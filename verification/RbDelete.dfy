/** Deletion on values: the rebalancing loop, taking a node out, and the order of the contents. */
module RbDelete {
  import opened RbShape
  import opened RbImage
  import opened RbInsert

  // ---------------------------------------------------------------- delete: rebalancing, on values

  function Blacken(t: Shape): Shape {
    if t.Bin? then t.(red := false) else t
  }

  /** The frame seen from the sibling: the hole and the other side change places. */
  function Flip(f: Frame, t: Shape): Frame {
    Frame(!f.onLeft, f.node, f.key, f.red, t)
  }

  /** The child of the sibling on the side of the hole, and the one away from it. */
  function Near(f: Frame): Shape
    requires f.other.Bin?
  {
    if f.onLeft then f.other.left else f.other.right
  }

  function Far(f: Frame): Shape
    requires f.other.Bin?
  {
    if f.onLeft then f.other.right else f.other.left
  }

  /** A red sibling is painted black, the parent red, and rotated over the parent. */
  function SiblingOver(fs: Path): Path
    requires fs != [] && Last(fs).other.Bin?
  {
    var f := Last(fs);
    Up(fs) + [Frame(f.onLeft, f.other.node, f.other.key, false, Far(f))] +
      [Frame(f.onLeft, f.node, f.key, true, Near(f))]
  }

  /** The sibling after its red near child has been rotated over it. */
  function NearOver(f: Frame): Shape
    requires f.other.Bin? && Near(f).Bin?
  {
    var w, n := f.other, Near(f);
    if f.onLeft then Bin(n.left, n.node, n.key, false, Bin(n.right, w.node, w.key, true, w.right))
    else Bin(Bin(w.left, w.node, w.key, true, n.left), n.node, n.key, false, n.right)
  }

  /** The parent, now black, sinks to the side of the hole; the sibling takes its place and
      colour, and the far child turns black. */
  function Borrow(f: Frame, t: Shape): Shape
    requires f.other.Bin? && Far(f).Bin?
  {
    Fill(Frame(f.onLeft, f.other.node, f.other.key, f.red, Far(f).(red := false)),
         Fill(Frame(f.onLeft, f.node, f.key, false, Near(f)), t))
  }

  /** The path once a red sibling is out of the way. */
  function Clear(fs: Path): Path
    requires fs != [] && Last(fs).other.Bin?
  {
    if Last(fs).other.red then SiblingOver(fs) else fs
  }

  /** The sibling painted red; what is short now is the subtree of the parent. */
  function SiblingRed(f: Frame, t: Shape): Shape
    requires f.other.Bin?
  {
    Fill(f.(other := f.other.(red := true)), t)
  }

  /** The sibling whose far child is red. */
  function Ready(f: Frame): Frame
    requires f.other.Bin? && (IsRed(Near(f)) || IsRed(Far(f)))
  {
    if IsRed(Far(f)) then f else f.(other := NearOver(f))
  }

  /** The sibling is a node, not the sentinel, both before and after a red one is rotated
      out of the way. */
  predicate SiblingThere(fs: Path)
    requires fs != []
  {
    Last(fs).other.Bin? && Last(Clear(fs)).other.Bin?
  }

  predicate NephewsBlack(f: Frame)
    requires f.other.Bin?
  {
    !IsRed(Near(f)) && !IsRed(Far(f))
  }

  /** Where a round leads once the sibling is black. */
  function Turn(gs: Path, t: Shape): (r: (Path, Shape))
    requires gs != [] && Last(gs).other.Bin?
  {
    if NephewsBlack(Last(gs)) then (Up(gs), SiblingRed(Last(gs), t))
    else ([], Plug(Up(gs), Borrow(Ready(Last(gs)), t)))
  }

  function TurnRotations(f: Frame): nat
    requires f.other.Bin?
  {
    if NephewsBlack(f) then 0 else if IsRed(Far(f)) then 1 else 2
  }

  /** One round of the rebalancing loop of a deletion, on values: where the loop is next. */
  function DeleteStep(fs: Path, t: Shape): (r: (Path, Shape))
    requires fs != [] && SiblingThere(fs)
    ensures |r.0| < |fs| || (|r.0| == |fs| && IsRed(r.1))
  {
    Turn(Clear(fs), t)
  }

  function DeleteStepRotations(fs: Path): nat
    requires fs != [] && SiblingThere(fs)
  {
    (if Last(fs).other.red then 1 else 0) + TurnRotations(Last(Clear(fs)))
  }

  /** The sibling is a node every time the loop looks at it. */
  ghost predicate DeleteSafe(fs: Path, t: Shape)
    decreases |fs|, if IsRed(t) then 0 else 1
  {
    fs != [] && !IsRed(t) ==>
      SiblingThere(fs) && DeleteSafe(DeleteStep(fs, t).0, DeleteStep(fs, t).1)
  }

  /** The whole rebalancing of a deletion whose hole has come out one black node short, with
      the number of rotations it makes. */
  ghost function DeleteFix(fs: Path, t: Shape): (r: (Shape, nat))
    requires DeleteSafe(fs, t)
    decreases |fs|, if IsRed(t) then 0 else 1
  {
    if fs == [] || IsRed(t) then (Plug(fs, Blacken(t)), 0)
    else
      var s := DeleteStep(fs, t);
      var r := DeleteFix(s.0, s.1);
      (r.0, r.1 + DeleteStepRotations(fs))
  }

  ghost predicate DeleteLeads(fs: Path, t: Shape, w: Shape, n: nat) {
    DeleteSafe(fs, t) && DeleteFix(fs, t) == (w, n)
  }

  lemma DeleteLeadsSafe(fs: Path, t: Shape, w: Shape, n: nat)
    requires DeleteLeads(fs, t, w, n) && fs != [] && !IsRed(t)
    ensures SiblingThere(fs)
  {
  }

  lemma DeleteLeadsOn(fs: Path, t: Shape, w: Shape, n: nat, fs': Path, t': Shape, m: nat)
    requires DeleteLeads(fs, t, w, n) && fs != [] && !IsRed(t) && SiblingThere(fs)
    requires (fs', t') == DeleteStep(fs, t) && m == DeleteStepRotations(fs)
    ensures m <= n && DeleteLeads(fs', t', w, n - m)
    ensures |fs'| < |fs| || (|fs'| == |fs| && IsRed(t'))
  {
  }

  /** The subtree in the hole is one black node short, everything else is in order.  A red
      one needs no more than a coat of paint, and until then may clash with its neighbours. */
  ghost predicate Short(fs: Path, t: Shape, h: nat) {
    && (if IsRed(t) then RB(Blacken(t), h + 1) else RB(t, h))
    && Around(fs, h + 1) && RootBlack(fs)
  }

  lemma SiblingOverKeeps(fs: Path, t: Shape, h: nat)
    requires Short(fs, t, h) && fs != [] && IsRed(Last(fs).other)
    ensures Short(SiblingOver(fs), t, h)
    ensures Last(SiblingOver(fs)).other.Bin? && !IsRed(Last(SiblingOver(fs)).other)
  {
    var f, gs := Last(fs), Up(fs);
    var f1 := Frame(f.onLeft, f.other.node, f.other.key, false, Far(f));
    var f2 := Frame(f.onLeft, f.node, f.key, true, Near(f));
    assert RB(f.other, h + 1) && RB(Near(f), h + 1) && !IsRed(Near(f));
    assert Near(f).Bin?;
    PlugDown(gs, f1, Fill(f2, t));
    PlugDown(gs + [f1], f2, t);
    assert Around(gs + [f1], h + 1);
  }

  lemma SiblingOverPlug(fs: Path, t: Shape)
    requires fs != [] && Last(fs).other.Bin?
    ensures var f := Last(fs);
      Plug(SiblingOver(fs), t) ==
      Plug(Up(fs), Fill(Frame(f.onLeft, f.other.node, f.other.key, false, Far(f)),
        Fill(Frame(f.onLeft, f.node, f.key, true, Near(f)), t)))
  {
    var f, gs := Last(fs), Up(fs);
    var f1 := Frame(f.onLeft, f.other.node, f.other.key, false, Far(f));
    var f2 := Frame(f.onLeft, f.node, f.key, true, Near(f));
    PlugDown(gs, f1, Fill(f2, t));
    PlugDown(gs + [f1], f2, t);
  }

  lemma SiblingOverOrder(fs: Path, t: Shape)
    requires fs != [] && Last(fs).other.Bin?
    ensures InOrder(Plug(SiblingOver(fs), t)) == InOrder(Plug(fs, t))
  {
    var f, gs := Last(fs), Up(fs);
    var f1 := Frame(f.onLeft, f.other.node, f.other.key, false, Far(f));
    var f2 := Frame(f.onLeft, f.node, f.key, true, Near(f));
    SiblingOverPlug(fs, t);
    RotationOrder(Fill(f, t));
    SameOrder(gs, Fill(f, t), Fill(f1, Fill(f2, t)));
  }

  lemma SiblingRedKeeps(fs: Path, t: Shape, h: nat) returns (h': nat)
    requires Short(fs, t, h) && fs != [] && !IsRed(t) && Last(fs).other.Bin? && !Last(fs).other.red
    requires !IsRed(Near(Last(fs))) && !IsRed(Far(Last(fs)))
    ensures Short(Up(fs), SiblingRed(Last(fs), t), h')
    ensures IsRed(SiblingRed(Last(fs), t)) <==> Last(fs).red
    ensures InOrder(Plug(Up(fs), SiblingRed(Last(fs), t))) == InOrder(Plug(fs, t))
  {
    h' := if Last(fs).red then h else h + 1;
    assert Around(Up(fs), h' + 1);
    SameOrder(Up(fs), Fill(Last(fs), t), SiblingRed(Last(fs), t));
  }

  lemma BorrowOrder(f: Frame, t: Shape)
    requires f.other.Bin? && (IsRed(Near(f)) || IsRed(Far(f)))
    ensures InOrder(Borrow(Ready(f), t)) == InOrder(Fill(f, t))
  {
    RotationOrder(f.other);
    RotationOrder(Fill(Ready(f), t));
    assert InOrder(Ready(f).other) == InOrder(f.other);
  }

  lemma BorrowRedBlack(fs: Path, t: Shape, h: nat)
    requires Short(fs, t, h) && fs != [] && !IsRed(t) && Last(fs).other.Bin? && !Last(fs).other.red
    requires IsRed(Near(Last(fs))) || IsRed(Far(Last(fs)))
    ensures RedBlack(Plug(Up(fs), Borrow(Ready(Last(fs)), t)))
  {
    var f := Last(fs);
    var r := Ready(f);
    assert RB(Near(f), h) && RB(Far(f), h);
    assert IsRed(Near(f)) ==> RB(Near(f).left, h) && RB(Near(f).right, h);
    assert RB(Near(r), h) && Far(r).Bin? && RB(Far(r).(red := false), h + 1);
    var u := Borrow(r, t);
    assert RB(Fill(Frame(f.onLeft, f.node, f.key, false, Near(r)), t), h + 1);
    assert f == fs[|fs| - 1];
    PlugRedBlack(Up(fs), u, if f.red then h + 1 else h + 2);
  }

  lemma DeleteStepKeeps(fs: Path, t: Shape, h: nat) returns (h': nat)
    requires Short(fs, t, h) && fs != [] && !IsRed(t)
    ensures SiblingThere(fs)
    ensures var r := DeleteStep(fs, t);
      && Short(r.0, r.1, h') && InOrder(Plug(r.0, r.1)) == InOrder(Plug(fs, t))
      && (DeleteStepRotations(fs) == 0 || (DeleteStepRotations(fs) <= 3 && (r.0 == [] || IsRed(r.1))))
  {
    var gs := Clear(fs);
    if Last(fs).other.red {
      SiblingOverKeeps(fs, t, h);
      SiblingOverOrder(fs, t);
    }
    var f := Last(gs);
    if NephewsBlack(Last(Clear(fs))) {
      h' := SiblingRedKeeps(gs, t, h);
    } else {
      BorrowRedBlack(gs, t, h);
      BorrowOrder(f, t);
      SameOrder(Up(gs), Fill(f, t), Borrow(Ready(f), t));
      h' := BlackHeight(Plug(Up(gs), Borrow(Ready(f), t)));
    }
  }

  /** Rebalancing never meets the sentinel where it needs a sibling, restores the red-black
      invariant, moves no element, and rotates at most three times. */
  lemma {:induction false} DeleteFixCorrect(fs: Path, t: Shape, h: nat)
    requires Short(fs, t, h)
    ensures DeleteSafe(fs, t)
    ensures var r := DeleteFix(fs, t);
      RedBlack(r.0) && InOrder(r.0) == InOrder(Plug(fs, t)) && r.1 <= 3
    ensures fs == [] || IsRed(t) ==> DeleteFix(fs, t).1 == 0
    decreases |fs|, if IsRed(t) then 0 else 1
  {
    if fs == [] || IsRed(t) {
      SameOrder(fs, t, Blacken(t));
      PlugRedBlack(fs, Blacken(t), if IsRed(t) then h + 1 else h);
    } else {
      var h' := DeleteStepKeeps(fs, t, h);
      var s := DeleteStep(fs, t);
      DeleteFixCorrect(s.0, s.1, h');
    }
  }

  lemma LastFrame(fs: Path, t: Shape)
    requires fs != []
    ensures fs == Up(fs) + [Last(fs)] && Plug(fs, t) == Plug(Up(fs), Fill(Last(fs), t))
  {
  }

  // ---------------------------------------------------------------- delete: taking a node out, on values

  /** `v` has at most one child, `u`. */
  predicate OnlyChild(v: Shape, u: Shape) {
    v.Bin? && ((v.left.Nil? && u == v.right) || (v.right.Nil? && u == v.left))
  }

  lemma UnlinkMaps(o: map<Node, Cell>, r: map<Node, Cell>, i: map<Node, Cell>, d: map<Node, Cell>, n: Node, c: Cell)
    requires o.Keys !! i.Keys && n !in o && n !in i && r.Keys <= o.Keys && d.Keys !! o.Keys && n !in d
    ensures (o + r) + (i + d) == ((o + i[n := c]) - {n}) + (r + d)
  {
  }

  lemma OnlyChildImage(v: Shape, u: Shape, p: Node?, s: Node)
    requires OnlyChild(v, u)
    ensures Image(v, p, s) == Image(u, v.node, s)[v.node := TopCell(v, p, s)]
  {
    assert map[] + Image(u, v.node, s) == Image(u, v.node, s);
    assert Image(u, v.node, s) + map[] == Image(u, v.node, s);
  }

  lemma OnlyChildNodes(v: Shape, u: Shape)
    requires OnlyChild(v, u)
    ensures Nodes(v) == Nodes(u) + {v.node}
    ensures Distinct(v) ==> Distinct(u) && v.node !in Nodes(u)
  {
  }

  lemma UnlinkNodes(gs: Path, v: Shape, u: Shape)
    requires Distinct(Plug(gs, v)) && OnlyChild(v, u)
    ensures Distinct(Plug(gs, u)) && Nodes(Plug(gs, u)) == Nodes(Plug(gs, v)) - {v.node}
    ensures PathDistinct(gs) && Distinct(u) && PathNodes(gs) !! Nodes(u)
    ensures v.node !in PathNodes(gs) && v.node !in Nodes(u)
  {
    OnlyChildNodes(v, u);
    Split(gs, v);
    Split(gs, u);
  }

  lemma UnlinkImage(gs: Path, v: Shape, u: Shape, s: Node)
    requires Distinct(Plug(gs, v)) && OnlyChild(v, u)
    ensures Image(Plug(gs, u), null, s) ==
      (Image(Plug(gs, v), null, s) - {v.node}) + (Rim(gs, Ptr(u, s), s) + Top(u, Above(gs), s))
  {
    UnlinkNodes(gs, v, u);
    SplitImage(gs, v, s);
    SplitImage(gs, u, s);
    Refill(gs, v.node, Ptr(u, s), s);
    Rehang(u, v.node, Above(gs), s);
    OnlyChildImage(v, u, Above(gs), s);
    UnlinkMaps(Outer(gs, v.node, s), Rim(gs, Ptr(u, s), s), Image(u, v.node, s), Top(u, Above(gs), s), v.node,
      TopCell(v, Above(gs), s));
  }

  lemma UpdateLast(i: map<Node, Cell>, d: map<Node, Cell>, n: Node, c: Cell)
    requires n !in d
    ensures (i + d)[n := c] == i + (map[n := c] + d)
  {
  }

  lemma RenameMaps(o: map<Node, Cell>, r: map<Node, Cell>, a: map<Node, Cell>, a': map<Node, Cell>,
                   b: map<Node, Cell>, b': map<Node, Cell>, m: Node, c: Cell, n: Node, c': Cell)
    requires o.Keys !! a.Keys !! b.Keys !! {m} !! {n}
    requires r.Keys <= o.Keys && a'.Keys <= a.Keys && b'.Keys <= b.Keys
    ensures (o + r) + ((a + a') + (b + b'))[n := c'] ==
      ((o + (a + b)[m := c]) - {m}) + (r + (map[n := c'] + (a' + b')))
  {
    MergeDeltas(a, a', b, b');
    UpdateLast(a + b, a' + b', n, c');
    UnlinkMaps(o, r, a + b, map[n := c'] + (a' + b'), m, c);
  }

  lemma RenameNodes(fs: Path, t: Shape, n: Node, k: Key)
    requires Distinct(Plug(fs, t)) && t.Bin? && n !in Nodes(Plug(fs, t))
    ensures var u := t.(node := n, key := k);
      && Distinct(Plug(fs, u)) && Nodes(Plug(fs, u)) == Nodes(Plug(fs, t)) - {t.node} + {n}
    ensures PathDistinct(fs) && Distinct(t) && PathNodes(fs) !! Nodes(t) && n !in PathNodes(fs) && n !in Nodes(t)
  {
    var u := t.(node := n, key := k);
    Split(fs, t);
    assert Nodes(u) == Nodes(t) - {t.node} + {n} && Distinct(u);
    Split(fs, u);
  }

  /** Another node in the place of the topmost one of `t`. */
  lemma RenameImage(fs: Path, t: Shape, n: Node, k: Key, s: Node)
    requires Distinct(Plug(fs, t)) && t.Bin? && n !in Nodes(Plug(fs, t))
    ensures var u := t.(node := n, key := k);
      Image(Plug(fs, u), null, s) ==
        (Image(Plug(fs, t), null, s) - {t.node}) +
        (Rim(fs, n, s) + (map[n := TopCell(u, Above(fs), s)] + (Top(t.left, n, s) + Top(t.right, n, s))))
  {
    var u := t.(node := n, key := k);
    RenameNodes(fs, t, n, k);
    SplitImage(fs, t, s);
    SplitImage(fs, u, s);
    Refill(fs, t.node, n, s);
    Rehang(t.left, t.node, n, s);
    Rehang(t.right, t.node, n, s);
    RenameMaps(Outer(fs, t.node, s), Rim(fs, n, s), Image(t.left, t.node, s), Top(t.left, n, s),
               Image(t.right, t.node, s), Top(t.right, n, s), t.node, TopCell(t, Above(fs), s), n,
                 TopCell(u, Above(fs), s));
  }

  lemma {:induction false} PlugConcat(fs: Path, d: Path, t: Shape)
    ensures Plug(fs + d, t) == Plug(fs, Plug(d, t))
    decreases |d|
  {
    if d == [] {
      assert fs + d == fs;
    } else {
      assert Up(fs + d) == fs + Up(d) && Last(fs + d) == Last(d);
      PlugConcat(fs, Up(d), Fill(Last(d), t));
    }
  }

  /** `d` gives the new cells when `temp` is linked in the place of `n` and told to point up to `q`. */
  ghost predicate Unlinking(m: map<Node, Cell>, d: map<Node, Cell>, n: Node, temp: Node, p: Node, q: Node, s: Node) {
    && n in m && p in m && p != n && s !in m && m[n].parent == p
    && (m[p].left == n || m[p].right == n)
    && p in d && d[p] == (if m[p].left == n then m[p].(left := temp) else m[p].(right := temp))
    && (temp != s ==> temp in m && temp !in {n, p} && temp in d && d[temp] == m[temp].(parent := q))
    && (forall k :: k in d ==> k in m && k != n && (k == p || (k == temp && temp != s)))
  }

  /** `d` gives the new cells when `n` is put in the place of `x`, whose children are `l` and `r`. */
  ghost predicate Transplanting(m: map<Node, Cell>, d: map<Node, Cell>, x: Node, n: Node, k: Key, l: Node, r: Node,
    p: Node?, s: Node) {
    && x in m && n !in m && s !in m && n != s
    && m[x].left == l && m[x].right == r && m[x].parent == p
    && n in d && d[n] == m[x].(key := k)
    && (l != s ==> l in m && l != x && l in d && d[l] == m[l].(parent := n))
    && (r != s ==> r in m && r != x && r in d && d[r] == m[r].(parent := n))
    && (p != null ==>
          && p in m && p in d && p !in {x, l, r}
          && (m[p].left == x || m[p].right == x)
          && d[p] == if m[p].left == x then m[p].(left := n) else m[p].(right := n))
    && (forall j :: j in d ==> j == n || (j in m && j != x && ((j == l && l != s) || (j == r && r != s) || j == p)))
  }

  lemma OverTop(m: map<Node, Cell>, r: map<Node, Cell>, a: map<Node, Cell>, b: map<Node, Cell>)
    requires a.Keys == b.Keys
    ensures m + (r + b) == (m + (r + a)) + b
  {
  }

  lemma UnlinkingOf(m: map<Node, Cell>, rim: map<Node, Cell>, top: map<Node, Cell>, n: Node, temp: Node, p: Node,
    q: Node, s: Node)
    requires n in m && p in m && p != n && s !in m && m[n].parent == p && m[p].left != m[p].right
    requires (m[p].left == n && rim == map[p := m[p].(left := temp)]) ||
      (m[p].right == n && rim == map[p := m[p].(right := temp)])
    requires if temp == s then top == map[] else
      temp in m && temp !in {n, p} && top == map[temp := m[temp].(parent := q)]
    ensures Unlinking(m, rim + top, n, temp, p, q, s)
  {
  }

  lemma UnlinkSpotCells(gs: Path, v: Shape, u: Shape, s: Node)
    requires Distinct(Plug(gs, v)) && gs != [] && OnlyChild(v, u) && s !in Nodes(Plug(gs, v))
    ensures var m, p := Image(Plug(gs, v), null, s), Last(gs).node;
      && v.node in m && m[v.node].parent == p && p in m && p != v.node && s !in m
      && m[p] == FrameCell(Last(gs), v.node, Above(Up(gs)), s) && m[p].left != m[p].right
      && (u.Bin? ==> u.node in m && u.node !in {v.node, p} && m[u.node] == TopCell(u, v.node, s))
  {
    var f := if u == v.right && v.left.Nil? then DownR(v) else DownL(v);
    PlugDown(gs, f, u);
    CellsAt(gs, v, s);
    CellsAt(gs + [f], u, s);
    Split(gs, v);
    OnlyChildNodes(v, u);
  }

  lemma TopIs(t: Shape, p: Node?, q: Node?, s: Node)
    ensures Top(t, q, s) == if t.Nil? then map[] else map[t.node := TopCell(t, p, s).(parent := q)]
  {
  }

  lemma RimIs(fs: Path, hole: Node, hole': Node, s: Node)
    requires fs != []
    ensures var f, c := Last(fs), FrameCell(Last(fs), hole, Above(Up(fs)), s);
      Rim(fs, hole', s) == map[f.node := if f.onLeft then c.(left := hole') else c.(right := hole')]
  {
  }

  lemma UnlinkSpots(gs: Path, v: Shape, u: Shape, q: Node, s: Node)
    requires Distinct(Plug(gs, v)) && gs != [] && OnlyChild(v, u) && s !in Nodes(Plug(gs, v))
    ensures Unlinking(Image(Plug(gs, v), null, s), Rim(gs, Ptr(u, s), s) +
      Top(u, q, s), v.node, Ptr(u, s), Last(gs).node, q, s)
  {
    UnlinkSpotCells(gs, v, u, s);
    TopIs(u, v.node, q, s);
    RimIs(gs, v.node, Ptr(u, s), s);
    UnlinkingOf(Image(Plug(gs, v), null, s), Rim(gs, Ptr(u, s), s), Top(u, q, s), v.node, Ptr(u, s), Last(gs).node, q,
      s);
  }

  lemma UnlinkOver(gs: Path, v: Shape, u: Shape, q: Node, s: Node)
    requires Distinct(Plug(gs, v)) && OnlyChild(v, u)
    ensures (Image(Plug(gs, v), null, s) - {v.node}) + (Rim(gs, Ptr(u, s), s) + Top(u, q, s)) ==
      Image(Plug(gs, u), null, s) + Top(u, q, s)
  {
    UnlinkImage(gs, v, u, s);
    OverTop(Image(Plug(gs, v), null, s) - {v.node}, Rim(gs, Ptr(u, s), s), Top(u, Above(gs), s), Top(u, q, s));
  }

  lemma TransplantingOf(m: map<Node, Cell>, rim: map<Node, Cell>, a: map<Node, Cell>, b: map<Node, Cell>,
                        x: Node, n: Node, k: Key, l: Node, r: Node, p: Node?, s: Node)
    requires x in m && n !in m && s !in m && n != s
    requires m[x].left == l && m[x].right == r && m[x].parent == p
    requires if l == s then a == map[] else l in m && l != x && a == map[l := m[l].(parent := n)]
    requires if r == s then b == map[] else r in m && r != x && b == map[r := m[r].(parent := n)]
    requires l == r ==> l == s
    requires if p == null then rim == map[] else
      && p in m && p !in {x, l, r} && m[p].left != m[p].right
      && ((m[p].left == x && rim == map[p := m[p].(left := n)]) ||
        (m[p].right == x && rim == map[p := m[p].(right := n)]))
    ensures Transplanting(m, rim + (map[n := m[x].(key := k)] + (a + b)), x, n, k, l, r, p, s)
  {
  }

  lemma TransplantSpotCells(fs: Path, t: Shape, s: Node)
    requires Distinct(Plug(fs, t)) && t.Bin? && s !in Nodes(Plug(fs, t))
    ensures var m, x := Image(Plug(fs, t), null, s), t.node;
      && x in m && s !in m && m[x] == TopCell(t, Above(fs), s)
      && (t.left.Bin? ==> t.left.node in m && t.left.node != x && m[t.left.node] == TopCell(t.left, x, s))
      && (t.right.Bin? ==> t.right.node in m && t.right.node != x && m[t.right.node] == TopCell(t.right, x, s))
      && (t.left.Bin? && t.right.Bin? ==> t.left.node != t.right.node)
      && (fs != [] ==>
            var p := Last(fs).node;
            && p in m && p != x && p != Ptr(t.left, s) && p != Ptr(t.right, s)
            && m[p] == FrameCell(Last(fs), x, Above(Up(fs)), s) && m[p].left != m[p].right)
  {
    PlugDown(fs, DownL(t), t.left);
    PlugDown(fs, DownR(t), t.right);
    Split(fs, t);
    CellsAt(fs, t, s);
    CellsAt(fs + [DownL(t)], t.left, s);
    CellsAt(fs + [DownR(t)], t.right, s);
  }

  ghost function TransplantDelta(fs: Path, t: Shape, n: Node, k: Key, s: Node): map<Node, Cell>
    requires t.Bin?
  {
    Rim(fs, n, s) + (map[n := TopCell(t.(node := n, key := k), Above(fs), s)] +
      (Top(t.left, n, s) + Top(t.right, n, s)))
  }

  /** The node `n`, not in the tree, can take the place of the topmost one of `t`; the right
      child may already point to it. */
  lemma TransplantSpots(fs: Path, t: Shape, n: Node, k: Key, x: map<Node, Cell>, s: Node)
    requires Distinct(Plug(fs, t)) && t.Bin? && s !in Nodes(Plug(fs, t)) && n !in Nodes(Plug(fs, t)) && n != s
    requires x == map[] || x == Top(t.right, n, s)
    ensures Transplanting(Image(Plug(fs, t), null, s) + x, TransplantDelta(fs, t, n, k, s), t.node, n, k,
                          Ptr(t.left, s), Ptr(t.right, s), Above(fs), s)
  {
    var m, l, r := Image(Plug(fs, t), null, s) + x, Ptr(t.left, s), Ptr(t.right, s);
    TransplantSpotCells(fs, t, s);
    TopIs(t.left, t.node, n, s);
    TopIs(t.right, t.node, n, s);
    if fs != [] {
      RimIs(fs, t.node, n, s);
    }
    assert m[t.node] == TopCell(t, Above(fs), s);
    TransplantingOf(m, Rim(fs, n, s), Top(t.left, n, s), Top(t.right, n, s), t.node, n, k, l, r, Above(fs), s);
  }

  lemma OverwriteMaps(m: map<Node, Cell>, x: map<Node, Cell>, d: map<Node, Cell>, n: Node)
    requires x.Keys <= d.Keys
    ensures ((m + x) - {n}) + d == (m - {n}) + d
  {
  }

  lemma TransplantOver(fs: Path, t: Shape, n: Node, k: Key, x: map<Node, Cell>, s: Node)
    requires Distinct(Plug(fs, t)) && t.Bin? && n !in Nodes(Plug(fs, t))
    requires x == map[] || x == Top(t.right, n, s)
    ensures ((Image(Plug(fs, t), null, s) + x) - {t.node}) + TransplantDelta(fs, t, n, k, s) ==
      Image(Plug(fs, t.(node := n, key := k)), null, s)
  {
    RenameImage(fs, t, n, k, s);
    OverwriteMaps(Image(Plug(fs, t), null, s), x, TransplantDelta(fs, t, n, k, s), t.node);
  }

  // ---------------------------------------------------------------- delete: contents

  /** The sequence without the element of `n`. */
  function Remove(s: seq<Elem>, n: Node): seq<Elem> {
    if s == [] then [] else if s[0].node == n then s[1..] else [s[0]] + Remove(s[1..], n)
  }

  lemma {:induction false} RemoveAt(a: seq<Elem>, n: Node, k: Key, b: seq<Elem>)
    requires forall e :: e in a ==> e.node != n
    ensures Remove(a + [Elem(n, k)] + b, n) == a + b
  {
    var s := a + [Elem(n, k)] + b;
    if a == [] {
      assert s[1..] == a + b;
    } else {
      assert a[0] in a;
      assert s[1..] == a[1..] + [Elem(n, k)] + b;
      RemoveAt(a[1..], n, k, b);
      assert [a[0]] + (a[1..] + b) == a + b;
    }
  }

  lemma {:induction false} RemoveSorted(s: seq<Elem>, n: Node)
    requires Sorted(s)
    ensures Sorted(Remove(s, n))
    ensures forall e :: e in Remove(s, n) ==> e in s
  {
    if s == [] {
    } else {
      assert Sorted(s[1..]);
      if s[0].node != n {
        RemoveSorted(s[1..], n);
        var r := Remove(s[1..], n);
        forall i | 0 <= i < |r|
          ensures s[0].key <= r[i].key
        {
          assert r[i] in s[1..];
        }
      }
    }
  }

  /** Taking out what was just put in restores the sequence. */
  lemma RemovePlace(s: seq<Elem>, e: Elem)
    requires forall f :: f in s ==> f.node != e.node
    ensures Remove(Place(s, e), e.node) == s
  {
    var r := Rank(s, e.key);
    RemoveAt(s[..r], e.node, e.key, s[r..]);
    assert s[..r] + s[r..] == s;
  }

  lemma {:induction false} BeforeNodes(fs: Path, e: Elem)
    requires e in Before(fs)
    ensures e.node in PathNodes(fs)
    decreases |fs|
  {
    var f := Last(fs);
    if e in Before(Up(fs)) {
      BeforeNodes(Up(fs), e);
    } else if e in InOrder(f.other) {
      NodesAreContents(f.other, e.node);
    }
  }

  lemma TopSeqs(a: seq<Elem>, l: seq<Elem>, x: Elem, r: seq<Elem>, b: seq<Elem>)
    ensures a + (l + [x] + r) + b == (a + l) + [x] + (r + b)
  {
  }

  lemma NotBefore(fs: Path, t: Shape)
    requires t.Bin? && Distinct(Plug(fs, t))
    ensures forall e :: e in Before(fs) + InOrder(t.left) ==> e.node != t.node
  {
    Split(fs, t);
    forall e | e in Before(fs) + InOrder(t.left)
      ensures e.node != t.node
    {
      if e in Before(fs) {
        BeforeNodes(fs, e);
      } else {
        NodesAreContents(t.left, e.node);
      }
    }
  }

  /** The element of the topmost node of `t` stands between what is before and after it. */
  lemma RemoveTop(fs: Path, t: Shape)
    requires t.Bin? && Distinct(Plug(fs, t))
    ensures Remove(InOrder(Plug(fs, t)), t.node) == (Before(fs) + InOrder(t.left)) + (InOrder(t.right) + After(fs))
  {
    InOrderPlug(fs, t);
    NotBefore(fs, t);
    TopSeqs(Before(fs), InOrder(t.left), Elem(t.node, t.key), InOrder(t.right), After(fs));
    RemoveAt(Before(fs) + InOrder(t.left), t.node, t.key, InOrder(t.right) + After(fs));
  }

  ghost predicate AllLeft(d: Path) {
    forall i :: 0 <= i < |d| ==> d[i].onLeft
  }

  lemma {:induction false} NothingBefore(d: Path)
    requires AllLeft(d)
    ensures Before(d) == []
    decreases |d|
  {
    if d == [] {
    } else {
      NothingBefore(Up(d));
    }
  }

  /** The path to a node's successor, once the successor has taken the node's place. */
  function Spliced(fs: Path, t: Shape, d: Path, v: Shape): Path
    requires t.Bin? && v.Bin?
  {
    fs + [DownR(t).(node := v.node, key := v.key)] + d
  }

  /** Where the node to be unlinked is: the node itself, if it has at most one child, or else
      the leftmost node of its right subtree. */
  ghost predicate Substitute(fs: Path, t: Shape, d: Path, gs: Path, v: Shape, u: Shape) {
    && t.Bin? && OnlyChild(v, u) && Plug(gs, v) == Plug(fs, t)
    && (if v.node == t.node then gs == fs && v == t && d == []
        else
          && gs == fs + [DownR(t)] + d && AllLeft(d) && t.left.Bin? && v.left.Nil?
          && u == v.right && t.right == Plug(d, v))
  }

  ghost function PathAfter(fs: Path, t: Shape, d: Path, gs: Path, v: Shape): Path
    requires t.Bin? && v.Bin?
  {
    if v.node == t.node then gs else Spliced(fs, t, d, v)
  }

  lemma SpliceSeqs(a: seq<Elem>, l: seq<Elem>, x: Elem, u: seq<Elem>, c: seq<Elem>, b: seq<Elem>)
    ensures a + (l + [x] + ([] + u + c)) + b == (a + l) + (([] + ([] + [x] + u) + c) + b)
  {
  }

  lemma OnlyChildSeqs(a: seq<Elem>, u: seq<Elem>, b: seq<Elem>)
    ensures (a + u) + ([] + b) == a + u + b
    ensures (a + []) + (u + b) == a + u + b
  {
  }

  lemma SpliceInnerOrder(fs: Path, t: Shape, d: Path, v: Shape)
    requires t.Bin? && t.right == Plug(d, v) && v.Bin? && v.left.Nil? && AllLeft(d)
    ensures InOrder(Plug(Spliced(fs, t, d, v), v.right)) == (Before(fs) + InOrder(t.left)) +
      (InOrder(t.right) + After(fs))
  {
    var f := DownR(t).(node := v.node, key := v.key);
    PlugConcat(fs + [f], d, v.right);
    PlugDown(fs, f, Plug(d, v.right));
    InOrderPlug(fs, Fill(f, Plug(d, v.right)));
    NothingBefore(d);
    InOrderPlug(d, v.right);
    InOrderPlug(d, v);
    SpliceSeqs(Before(fs), InOrder(t.left), Elem(v.node, v.key), InOrder(v.right), After(d), After(fs));
  }

  lemma SpliceOrder(fs: Path, t: Shape, d: Path, gs: Path, v: Shape, u: Shape)
    requires Substitute(fs, t, d, gs, v, u) && Distinct(Plug(fs, t))
    ensures InOrder(Plug(PathAfter(fs, t, d, gs, v), u)) == Remove(InOrder(Plug(fs, t)), t.node)
  {
    RemoveTop(fs, t);
    if v.node == t.node {
      InOrderPlug(fs, u);
      OnlyChildSeqs(Before(fs), InOrder(u), After(fs));
    } else {
      SpliceInnerOrder(fs, t, d, v);
    }
  }

  /** What is around a hole depends only on the colours along the path and on what hangs
      off it. */
  lemma {:induction false} AroundSame(gs: Path, hs: Path, h: nat)
    requires |gs| == |hs| && forall i :: 0 <= i < |gs| ==> gs[i].red == hs[i].red && gs[i].other == hs[i].other
    requires Around(gs, h) && RootBlack(gs)
    ensures Around(hs, h) && RootBlack(hs) && ParentRed(hs) == ParentRed(gs)
    decreases |gs|
  {
    if gs == [] {
    } else {
      assert RootBlack(Up(gs)) by {
        assert Up(gs) != [] ==> Up(gs)[0] == gs[0];
      }
      AroundSame(Up(gs), Up(hs), if Last(gs).red then h else h + 1);
    }
  }

  /** Taking out a red node leaves the tree in order; taking out a black one leaves the hole
      one black node short. */
  lemma SpliceColours(fs: Path, t: Shape, d: Path, gs: Path, v: Shape, u: Shape) returns (k: nat)
    requires Substitute(fs, t, d, gs, v, u) && RedBlack(Plug(fs, t)) && gs != []
    ensures v.red ==> RedBlack(Plug(PathAfter(fs, t, d, gs, v), u))
    ensures !v.red ==> Short(PathAfter(fs, t, d, gs, v), u, k)
  {
    k := 0;
    var hs := PathAfter(fs, t, d, gs, v);
    var h := UnplugRedBlack(gs, v, BlackHeight(Plug(gs, v)));
    AroundSame(gs, hs, h);
    if v.red {
      PlugRedBlack(hs, u, h);
    } else {
      k := h - 1;
    }
  }

  lemma RootOutColours(v: Shape, u: Shape)
    requires OnlyChild(v, u) && RedBlack(v)
    ensures RedBlack(Blacken(u))
  {
    var h := BlackHeight(v) - 1;
    assert RB(u, h);
    BlackHeightUnique(Blacken(u), if IsRed(u) then h + 1 else h);
  }

  lemma TopAgain(fs: Path, u: Shape, s: Node)
    requires Distinct(Plug(fs, u))
    ensures Image(Plug(fs, u), null, s) + Top(u, Above(fs), s) == Image(Plug(fs, u), null, s)
  {
    CellsAt(fs, u, s);
  }

  lemma SplicePlan(fs: Path, t: Shape, d: Path, gs: Path, v: Shape, u: Shape, s: Node)
    requires Substitute(fs, t, d, gs, v, u) && Distinct(Plug(fs, t)) && v.node != t.node
    ensures var w := Fill(DownR(t), Plug(d, u));
      && Plug(gs, u) == Plug(fs, w) && w.right == Plug(d, u)
      && Plug(Spliced(fs, t, d, v), u) == Plug(fs, w.(node := v.node, key := v.key))
    ensures gs != [] && Last(gs).node == (if d == [] then t.node else Last(d).node)
    ensures Last(Spliced(fs, t, d, v)).node == if d == [] then v.node else Last(d).node
    ensures d != [] ==> Last(gs).node != t.node
    ensures d != [] ==> Image(Plug(gs, u), null, s) + Top(u, Last(gs).node, s) == Image(Plug(gs, u), null, s)
  {
    var f := DownR(t).(node := v.node, key := v.key);
    PlugConcat(fs + [DownR(t)], d, u);
    PlugDown(fs, DownR(t), Plug(d, u));
    PlugConcat(fs + [f], d, u);
    PlugDown(fs, f, Plug(d, u));
    UnlinkNodes(gs, v, u);
    if d != [] {
      assert Last(gs) == Last(d);
      Split(fs, t);
      Split(d, v);
      TopAgain(gs, u, s);
    }
  }

  /** The tree that is left once a node has been taken out from above `u`: nothing more to do
      if the node was red, the rebalancing otherwise. */
  ghost function DeleteResult(hs: Path, u: Shape, red: bool): (r: (Shape, nat))
    requires !red ==> DeleteSafe(hs, u)
  {
    if red then (Plug(hs, u), 0) else DeleteFix(hs, u)
  }

  lemma DeleteOutcome(fs: Path, t: Shape, d: Path, gs: Path, v: Shape, u: Shape)
    requires Substitute(fs, t, d, gs, v, u) && Distinct(Plug(fs, t)) && RedBlack(Plug(fs, t)) && gs != []
    requires Sorted(InOrder(Plug(fs, t)))
    ensures var hs := PathAfter(fs, t, d, gs, v);
      && (!v.red ==> DeleteSafe(hs, u))
      && var r := DeleteResult(hs, u, v.red);
         && RedBlack(r.0) && r.1 <= 3
         && InOrder(r.0) == Remove(InOrder(Plug(fs, t)), t.node) && Sorted(InOrder(r.0))
  {
    var k := SpliceColours(fs, t, d, gs, v, u);
    SpliceOrder(fs, t, d, gs, v, u);
    RemoveSorted(InOrder(Plug(fs, t)), t.node);
    if !v.red {
      DeleteFixCorrect(PathAfter(fs, t, d, gs, v), u, k);
    }
  }

  lemma RootOutOutcome(v: Shape, u: Shape)
    requires OnlyChild(v, u) && Distinct(v) && RedBlack(v) && Sorted(InOrder(v))
    ensures RedBlack(Blacken(u)) && InOrder(Blacken(u)) == Remove(InOrder(v), v.node) && Sorted(InOrder(Blacken(u)))
  {
    RootOutColours(v, u);
    RemoveTop([], v);
    OnlyChildSeqs([], InOrder(u), []);
    RemoveSorted(InOrder(v), v.node);
    assert [] + InOrder(u) + [] == InOrder(u);
  }
}
