/** Insertion on values: the rebalancing loop, the new leaf, and the order of the contents. */
module RbInsert {
  import opened RbShape
  import opened RbImage

  // ---------------------------------------------------------------- insert, on values

  lemma PlugDown(fs: Path, f: Frame, t: Shape)
    ensures fs + [f] != [] && Up(fs + [f]) == fs && Last(fs + [f]) == f
    ensures Plug(fs + [f], t) == Plug(fs, Fill(f, t))
  {
  }

  lemma SameOrder(fs: Path, t: Shape, u: Shape)
    requires InOrder(t) == InOrder(u)
    ensures InOrder(Plug(fs, t)) == InOrder(Plug(fs, u))
  {
    InOrderPlug(fs, t);
    InOrderPlug(fs, u);
  }

  /** Below a hole that takes black height `h`, the red node `t` under the last frame. */
  ghost predicate RedAt(fs: Path, t: Shape, h: nat) {
    t.Bin? && t.red && RB(t, h) && Around(fs, h) && RootBlack(fs)
  }

  /** A red node under a red parent has a black grandparent. */
  lemma Grandparent(fs: Path, t: Shape, h: nat)
    requires RedAt(fs, t, h) && ParentRed(fs)
    ensures |fs| >= 2
    ensures var f, g := Last(fs), Last(Up(fs));
      && RB(f.other, h) && !IsRed(f.other) && !g.red && RB(g.other, h) && Around(Up(Up(fs)), h + 1) &&
        RootBlack(Up(Up(fs)))
  {
    assert Last(fs) == fs[|fs| - 1];
    assert Around(Up(fs), h) && !ParentRed(Up(fs));
  }

  /** Parent and uncle black, grandparent red. */
  function Recoloured(g: Frame, p: Shape): Shape
    requires p.Bin? && g.other.Bin?
  {
    Fill(g.(red := true, other := g.other.(red := false)), p.(red := false))
  }

  /** The frame over a red node after the last rotation: its parent, now black, holds the
      red grandparent on the other side. */
  function Turned(f: Frame, g: Frame): Frame {
    Frame(f.onLeft, f.node, f.key, false, Fill(Frame(f.onLeft, g.node, g.key, true, g.other), f.other))
  }

  /** After parent and child have changed places: the frame of the old child ... */
  function Risen(f: Frame, t: Shape): Frame
    requires t.Bin?
  {
    Frame(!f.onLeft, t.node, t.key, t.red, if f.onLeft then t.left else t.right)
  }

  /** ... and the old parent under it. */
  function Sunk(f: Frame, t: Shape): Shape
    requires t.Bin?
  {
    Fill(f, if f.onLeft then t.right else t.left)
  }

  /** One round of the rebalancing loop of an insertion, on values. */
  function InsertStep(fs: Path, t: Shape): (r: (Path, Shape))
    requires |fs| >= 2 && t.Bin?
    ensures |r.0| < |fs| && r.1.Bin? && (RootBlack(fs) ==> RootBlack(r.0))
  {
    var top, f, g := Up(Up(fs)), Last(fs), Last(Up(fs));
    if IsRed(g.other) then (top, Recoloured(g, Fill(f, t)))
    else if f.onLeft == g.onLeft then (top + [Turned(f, g)], t)
    else (top + [Turned(Risen(f, t), g)], Sunk(f, t))
  }

  function InsertStepRotations(fs: Path): nat
    requires |fs| >= 2
  {
    var f, g := Last(fs), Last(Up(fs));
    if IsRed(g.other) then 0 else if f.onLeft == g.onLeft then 1 else 2
  }

  lemma BentOrder(f: Frame, t: Shape)
    requires t.Bin?
    ensures InOrder(Fill(Risen(f, t), Sunk(f, t))) == InOrder(Fill(f, t))
  {
    RotationOrder(Fill(f, t));
  }

  lemma TurnedOrder(f: Frame, g: Frame, t: Shape)
    requires f.onLeft == g.onLeft
    ensures InOrder(Fill(Turned(f, g), t)) == InOrder(Fill(g, Fill(f, t)))
  {
    if f.onLeft {
      Regroup(InOrder(t), f.node, f.key, InOrder(f.other), g.node, g.key, InOrder(g.other));
    } else {
      Regroup(InOrder(g.other), g.node, g.key, InOrder(f.other), f.node, f.key, InOrder(t));
    }
  }

  lemma InsertStepOrder(fs: Path, t: Shape)
    requires |fs| >= 2 && t.Bin?
    ensures var r := InsertStep(fs, t); InOrder(Plug(r.0, r.1)) == InOrder(Plug(fs, t))
  {
    var top, f, g := Up(Up(fs)), Last(fs), Last(Up(fs));
    if IsRed(g.other) {
      SameOrder(top, Fill(g, Fill(f, t)), Recoloured(g, Fill(f, t)));
    } else {
      var f', u := f, t;
      if f.onLeft != g.onLeft {
        f', u := Risen(f, t), Sunk(f, t);
        BentOrder(f, t);
      }
      TurnedOrder(f', g, u);
      PlugDown(top, Turned(f', g), u);
      SameOrder(top, Fill(g, Fill(f, t)), Fill(Turned(f', g), u));
    }
  }

  lemma TurnedRedAt(fs: Path, g: Frame, f: Frame, t: Shape, h: nat)
    requires t.Bin? && t.red && RB(t, h)
    requires RB(f.other, h) && !IsRed(f.other) && RB(g.other, h) && !IsRed(g.other)
    requires Around(fs, h + 1) && RootBlack(fs)
    ensures RedAt(fs + [Turned(f, g)], t, h) && !ParentRed(fs + [Turned(f, g)])
  {
    PlugDown(fs, Turned(f, g), t);
  }

  /** A round keeps everything but the one red pair in order, and either moves that pair
      up or ends the loop. */
  lemma InsertStepKeeps(fs: Path, t: Shape, h: nat) returns (h': nat)
    requires RedAt(fs, t, h) && ParentRed(fs)
    ensures |fs| >= 2
    ensures var r := InsertStep(fs, t);
      && RedAt(r.0, r.1, h') && |r.0| < |fs|
      && (InsertStepRotations(fs) == 0 || !ParentRed(r.0))
  {
    Grandparent(fs, t, h);
    var top, f, g := Up(Up(fs)), Last(fs), Last(Up(fs));
    if IsRed(g.other) {
      h' := h + 1;
    } else {
      h' := h;
      if f.onLeft == g.onLeft {
        TurnedRedAt(top, g, f, t, h);
      } else {
        TurnedRedAt(top, g, Risen(f, t), Sunk(f, t), h);
      }
    }
  }

  /** When the parent of the red node is not red, blackening the root ends the insertion. */
  lemma InsertDone(fs: Path, t: Shape, h: nat)
    requires RedAt(fs, t, h) && !ParentRed(fs)
    ensures Plug(fs, t).Bin? && RedBlack(Plug(fs, t).(red := false))
  {
    if fs == [] {
      BlackHeightUnique(t.(red := false), h + 1);
    } else {
      PlugRedBlack(fs, t, h);
      RootOf(fs, t, t.node);
    }
  }

  /** The whole rebalancing of an insertion, with the number of rotations it makes. */
  function InsertFix(fs: Path, t: Shape): (r: (Shape, nat))
    requires t.Bin? && RootBlack(fs)
    ensures r.0.Bin?
    decreases |fs|
  {
    if !ParentRed(fs) then
      RootOf(fs, t, t.node);
      (Plug(fs, t).(red := false), 0)
    else
      TwoFrames(fs);
      var s := InsertStep(fs, t);
      var r := InsertFix(s.0, s.1);
      (r.0, r.1 + InsertStepRotations(fs))
  }

  ghost predicate InsertLeads(fs: Path, t: Shape, w: Shape, n: nat) {
    t.Bin? && RootBlack(fs) && InsertFix(fs, t) == (w, n)
  }

  lemma InsertLeadsOn(fs: Path, t: Shape, w: Shape, n: nat, fs': Path, t': Shape, m: nat)
    requires InsertLeads(fs, t, w, n) && ParentRed(fs) && |fs| >= 2
    requires (fs', t') == InsertStep(fs, t) && m == InsertStepRotations(fs)
    ensures m <= n && InsertLeads(fs', t', w, n - m) && |fs'| < |fs|
  {
  }

  lemma TwoFrames(fs: Path)
    requires RootBlack(fs) && ParentRed(fs)
    ensures |fs| >= 2
  {
    assert Last(fs) == fs[|fs| - 1];
  }

  /** Rebalancing restores the red-black invariant, moves no element, and rotates at most twice. */
  lemma {:induction false} InsertFixCorrect(fs: Path, t: Shape, h: nat)
    requires RedAt(fs, t, h)
    ensures var r := InsertFix(fs, t);
      RedBlack(r.0) && InOrder(r.0) == InOrder(Plug(fs, t)) && r.1 <= 2
    ensures !ParentRed(fs) ==> InsertFix(fs, t).1 == 0
    decreases |fs|
  {
    if !ParentRed(fs) {
      InsertDone(fs, t, h);
    } else {
      var h' := InsertStepKeeps(fs, t, h);
      InsertStepOrder(fs, t);
      var s := InsertStep(fs, t);
      InsertFixCorrect(s.0, s.1, h');
    }
  }

  lemma LastTwo(fs: Path)
    requires |fs| >= 2
    ensures fs == Up(Up(fs)) + [Last(Up(fs))] + [Last(fs)] && fs == Up(fs) + [Last(fs)]
  {
  }

  /** The new leaf in place of an empty hole. */
  function Leaf(n: Node, k: Key): Shape {
    Bin(Nil, n, k, true, Nil)
  }

  lemma LeafImage(fs: Path, n: Node, k: Key, s: Node)
    requires fs != [] && Distinct(Plug(fs, Nil)) && n !in Nodes(Plug(fs, Nil))
    ensures var w := Plug(fs, Leaf(n, k));
      && Distinct(w) && Nodes(w) == Nodes(Plug(fs, Nil)) + {n}
      && Image(w, null, s) == Image(Plug(fs, Nil), null, s) + (Rim(fs, n, s) + Top(Leaf(n, k), Above(fs), s))
  {
    Split(fs, Nil);
    Split(fs, Leaf(n, k));
    SplitImage(fs, Nil, s);
    SplitImage(fs, Leaf(n, k), s);
    Refill(fs, s, n, s);
    assert Image(Leaf(n, k), Above(fs), s) == Top(Leaf(n, k), Above(fs), s);
    MergeLeaf(Outer(fs, s, s), Rim(fs, n, s), Top(Leaf(n, k), Above(fs), s));
  }

  lemma MergeLeaf(o: map<Node, Cell>, r: map<Node, Cell>, l: map<Node, Cell>)
    ensures (o + r) + l == (o + map[]) + (r + l)
  {
  }

  /** How many of the leading elements have a key that does not exceed `k`. */
  function Rank(s: seq<Elem>, k: Key): (r: nat)
    ensures r <= |s|
  {
    if s == [] || k < s[0].key then 0 else 1 + Rank(s[1..], k)
  }

  /** The sequence with `e` after the last key not greater than its own. */
  function Place(s: seq<Elem>, e: Elem): seq<Elem> {
    s[..Rank(s, e.key)] + [e] + s[Rank(s, e.key)..]
  }

  lemma {:induction false} RankAt(a: seq<Elem>, b: seq<Elem>, k: Key)
    requires forall e :: e in a ==> e.key <= k
    requires forall e :: e in b ==> k < e.key
    ensures Rank(a + b, k) == |a|
  {
    if a == [] {
      assert a + b == b;
    } else {
      assert (a + b)[1..] == a[1..] + b;
      assert a[0] in a;
      RankAt(a[1..], b, k);
    }
  }

  /** Placing is stable: everything before is no greater, everything after is greater. */
  lemma {:induction false} PlaceStable(s: seq<Elem>, k: Key)
    requires Sorted(s)
    ensures forall i :: 0 <= i < Rank(s, k) ==> s[i].key <= k
    ensures forall i :: Rank(s, k) <= i < |s| ==> k < s[i].key
  {
    if s != [] && s[0].key <= k {
      var u := s[1..];
      assert Sorted(u);
      PlaceStable(u, k);
      forall i | 0 <= i < |s|
        ensures if i < Rank(s, k) then s[i].key <= k else k < s[i].key
      {
        assert i > 0 ==> s[i] == u[i - 1];
      }
    }
  }

  lemma PlaceSorted(s: seq<Elem>, e: Elem)
    requires Sorted(s)
    ensures Sorted(Place(s, e))
  {
    PlaceStable(s, e.key);
    var p, r := Place(s, e), Rank(s, e.key);
    assert forall i :: 0 <= i < |p| ==> p[i] == if i < r then s[i] else if i == r then e else s[i - 1];
  }

  lemma LeafOrder(fs: Path, n: Node, k: Key)
    requires forall e :: e in Before(fs) ==> e.key <= k
    requires forall e :: e in After(fs) ==> k < e.key
    ensures InOrder(Plug(fs, Leaf(n, k))) == Place(InOrder(Plug(fs, Nil)), Elem(n, k))
  {
    var a, b := Before(fs), After(fs);
    InOrderPlug(fs, Nil);
    InOrderPlug(fs, Leaf(n, k));
    assert a + [] + b == a + b;
    RankAt(a, b, k);
  }

  /** One step of the descent: at `t`, a key smaller than its own goes left, any other right. */
  lemma DescendKeeps(fs: Path, t: Shape, k: Key)
    requires t.Bin? && Sorted(InOrder(Plug(fs, t)))
    requires forall e :: e in Before(fs) ==> e.key <= k
    requires forall e :: e in After(fs) ==> k < e.key
    ensures var gs := fs + [if k < t.key then DownL(t) else DownR(t)];
      && Plug(gs, if k < t.key then t.left else t.right) == Plug(fs, t)
      && (forall e :: e in Before(gs) ==> e.key <= k)
      && (forall e :: e in After(gs) ==> k < e.key)
  {
    var f := if k < t.key then DownL(t) else DownR(t);
    PlugDown(fs, f, if k < t.key then t.left else t.right);
    SortedAround(fs, t);
  }

  /** Within a sorted tree, the left subtree is no greater than its node, the right no smaller. */
  lemma SortedAround(fs: Path, t: Shape)
    requires t.Bin? && Sorted(InOrder(Plug(fs, t)))
    ensures forall e :: e in InOrder(t.left) ==> e.key <= t.key
    ensures forall e :: e in InOrder(t.right) ==> t.key <= e.key
  {
    InOrderPlug(fs, t);
    var s, a, b := InOrder(Plug(fs, t)), Before(fs), After(fs);
    SortedSplit(s, a, InOrder(t.left), Elem(t.node, t.key), InOrder(t.right), b);
  }

  lemma SortedSplit(s: seq<Elem>, a: seq<Elem>, l: seq<Elem>, x: Elem, r: seq<Elem>, b: seq<Elem>)
    requires Sorted(s) && s == a + (l + [x] + r) + b
    ensures forall e :: e in l ==> e.key <= x.key
    ensures forall e :: e in r ==> x.key <= e.key
  {
    var m := |a| + |l|;
    assert s[m] == x;
    forall i | 0 <= i < |l|
      ensures l[i].key <= x.key
    {
      assert s[|a| + i] == l[i];
    }
    forall i | 0 <= i < |r|
      ensures x.key <= r[i].key
    {
      assert s[m + 1 + i] == r[i];
    }
  }

  /** Putting a leaf where the descent ends and rebalancing. */
  lemma InsertLeaf(fs: Path, n: Node, k: Key)
    requires RedBlack(Plug(fs, Nil)) && Sorted(InOrder(Plug(fs, Nil)))
    requires forall e :: e in Before(fs) ==> e.key <= k
    requires forall e :: e in After(fs) ==> k < e.key
    ensures RootBlack(fs)
    ensures var r := InsertFix(fs, Leaf(n, k));
      && RedBlack(r.0) && r.1 <= 2
      && InOrder(r.0) == Place(InOrder(Plug(fs, Nil)), Elem(n, k)) && Sorted(InOrder(r.0))
  {
    var h := UnplugRedBlack(fs, Nil, BlackHeight(Plug(fs, Nil)));
    InsertFixCorrect(fs, Leaf(n, k), 0);
    LeafOrder(fs, n, k);
    PlaceSorted(InOrder(Plug(fs, Nil)), Elem(n, k));
  }
}
