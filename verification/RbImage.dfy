/** What the fields of the nodes ought to be for the tree to have a given shape, and what
    each pointer operation changes in that picture. */
module RbImage {
  import opened RbShape

  // ---------------------------------------------------------------- the image on the heap

  /** What the fields of one node ought to be.  A null `parent` leaves that field open. */
  datatype Cell = Cell(left: Node, right: Node, parent: Node?, key: Key, red: bool)

  function Ptr(t: Shape, s: Node): Node {
    if t.Bin? then t.node else s
  }

  /** The fields of all the nodes of `t`, hung under `p`, with sentinel `s`. */
  ghost function Image(t: Shape, p: Node?, s: Node): (m: map<Node, Cell>)
    ensures m.Keys == Nodes(t)
  {
    match t
    case Nil => map[]
    case Bin(l, n, k, c, r) => (Image(l, n, s) + Image(r, n, s))[n := TopCell(t, p, s)]
  }

  /** The cell of the topmost node of a shape. */
  function TopCell(t: Shape, p: Node?, s: Node): Cell
    requires t.Bin?
  {
    Cell(Ptr(t.left, s), Ptr(t.right, s), p, t.key, t.red)
  }

  function Above(fs: Path): Node? {
    if fs == [] then null else Last(fs).node
  }

  /** The cell of a frame's node when its hole holds `hole`. */
  function FrameCell(f: Frame, hole: Node, p: Node?, s: Node): Cell {
    if f.onLeft then Cell(hole, Ptr(f.other, s), p, f.key, f.red)
    else Cell(Ptr(f.other, s), hole, p, f.key, f.red)
  }

  /** The fields of all the nodes around the hole. */
  ghost function Outer(fs: Path, hole: Node, s: Node): (m: map<Node, Cell>)
    ensures m.Keys == PathNodes(fs)
    decreases |fs|
  {
    if fs == [] then map[]
    else
      var f := Last(fs);
      (Outer(Up(fs), f.node, s) + Image(f.other, f.node, s))[f.node := FrameCell(f, hole, Above(Up(fs)), s)]
  }

  ghost function PathNodes(fs: Path): set<Node>
    decreases |fs|
  {
    if fs == [] then {} else PathNodes(Up(fs)) + FrameNodes(Last(fs))
  }

  ghost predicate PathDistinct(fs: Path)
    decreases |fs|
  {
    fs != [] ==>
      var f := Last(fs);
      && f.node !in Nodes(f.other) && Distinct(f.other)
      && PathNodes(Up(fs)) !! FrameNodes(f)
      && PathDistinct(Up(fs))
  }

  /** A whole tree is its path and what fills the hole, and the two share no node. */
  lemma {:induction false} Split(fs: Path, t: Shape)
    ensures Nodes(Plug(fs, t)) == PathNodes(fs) + Nodes(t)
    ensures Distinct(Plug(fs, t)) <==> PathDistinct(fs) && Distinct(t) && PathNodes(fs) !! Nodes(t)
    decreases |fs|
  {
    if fs == [] {
    } else {
      var f := Last(fs);
      Split(Up(fs), Fill(f, t));
      assert Nodes(Fill(f, t)) == FrameNodes(f) + Nodes(t);
    }
  }

  lemma {:induction false} RootOf(fs: Path, t: Shape, s: Node)
    ensures Ptr(Plug(fs, t), s) == if fs == [] then Ptr(t, s) else fs[0].node
    ensures fs != [] ==> Plug(fs, t).Bin? && fs[0].node in PathNodes(fs)
    decreases |fs|
  {
    if fs == [] {
    } else {
      RootOf(Up(fs), Fill(Last(fs), t), s);
    }
  }

  lemma MergeMaps(o: map<Node, Cell>, f: map<Node, Cell>, t: map<Node, Cell>, n: Node, c: Cell)
    requires n !in t && f.Keys !! t.Keys
    ensures o + (f + t)[n := c] == (o + f)[n := c] + t
    ensures f + t == t + f
  {
  }

  lemma {:induction false} SplitImage(fs: Path, t: Shape, s: Node)
    requires Distinct(Plug(fs, t))
    ensures Image(Plug(fs, t), null, s) == Outer(fs, Ptr(t, s), s) + Image(t, Above(fs), s)
    decreases |fs|
  {
    if fs == [] {
    } else {
      var f := Last(fs);
      SplitImage(Up(fs), Fill(f, t), s);
      Split(fs, t);
      MergeMaps(Outer(Up(fs), f.node, s), Image(f.other, f.node, s), Image(t, f.node, s), f.node,
                FrameCell(f, Ptr(t, s), Above(Up(fs)), s));
    }
  }

  // ---------------------------------------------------------------- what each operation changes

  /** The cells of a whole tree at a hole: the topmost node of what fills it, and the node
      just above. */
  lemma CellsAt(fs: Path, t: Shape, s: Node)
    requires Distinct(Plug(fs, t))
    ensures var m := Image(Plug(fs, t), null, s);
      && (t.Bin? ==> t.node in m && m[t.node] == TopCell(t, Above(fs), s))
      && (fs != [] ==> Last(fs).node in m && m[Last(fs).node] == FrameCell(Last(fs), Ptr(t, s), Above(Up(fs)), s))
  {
    Split(fs, t);
    SplitImage(fs, t, s);
  }

  /** The cell above the hole, once the hole holds `hole`. */
  ghost function Rim(fs: Path, hole: Node, s: Node): map<Node, Cell> {
    if fs == [] then map[] else map[Last(fs).node := FrameCell(Last(fs), hole, Above(Up(fs)), s)]
  }

  /** The cell of the topmost node of `t` once hung under `p`. */
  ghost function Top(t: Shape, p: Node?, s: Node): map<Node, Cell> {
    if t.Nil? then map[] else map[t.node := TopCell(t, p, s)]
  }

  lemma Rehang(t: Shape, p: Node?, q: Node?, s: Node)
    requires Distinct(t)
    ensures Image(t, q, s) == Image(t, p, s) + Top(t, q, s)
  {
  }

  lemma Refill(fs: Path, hole: Node, hole': Node, s: Node)
    requires PathDistinct(fs)
    ensures Outer(fs, hole', s) == Outer(fs, hole, s) + Rim(fs, hole', s)
  {
  }

  lemma MergeDeltas(o: map<Node, Cell>, r: map<Node, Cell>, i: map<Node, Cell>, d: map<Node, Cell>)
    requires o.Keys !! i.Keys && r.Keys <= o.Keys && d.Keys <= i.Keys
    ensures (o + r) + (i + d) == (o + i) + (r + d)
  {
  }

  /** Filling a hole with another shape over the same nodes. */
  lemma Replace(fs: Path, t: Shape, u: Shape, s: Node, delta: map<Node, Cell>)
    requires Distinct(Plug(fs, t)) && Distinct(u) && Nodes(u) == Nodes(t)
    requires Image(u, Above(fs), s) == Image(t, Above(fs), s) + delta
    ensures Distinct(Plug(fs, u)) && Nodes(Plug(fs, u)) == Nodes(Plug(fs, t))
    ensures Image(Plug(fs, u), null, s) == Image(Plug(fs, t), null, s) + (Rim(fs, Ptr(u, s), s) + delta)
  {
    Split(fs, t);
    Split(fs, u);
    SplitImage(fs, t, s);
    SplitImage(fs, u, s);
    Refill(fs, Ptr(t, s), Ptr(u, s), s);
    assert delta.Keys <= Image(u, Above(fs), s).Keys;
    MergeDeltas(Outer(fs, Ptr(t, s), s), Rim(fs, Ptr(u, s), s), Image(t, Above(fs), s), delta);
  }

  lemma UpdateRight(o: map<Node, Cell>, i: map<Node, Cell>, n: Node, c: Cell)
    requires n in i
    ensures o + i[n := c] == (o + i)[n := c]
  {
  }

  lemma RepaintImage(fs: Path, t: Shape, red: bool, s: Node)
    requires Distinct(Plug(fs, t)) && t.Bin?
    ensures var u := t.(red := red);
      && Distinct(Plug(fs, u)) && Nodes(Plug(fs, u)) == Nodes(Plug(fs, t))
      && Image(Plug(fs, u), null, s) == Image(Plug(fs, t), null, s)[t.node := TopCell(u, Above(fs), s)]
  {
    var u := t.(red := red);
    Split(fs, t);
    Split(fs, u);
    SplitImage(fs, t, s);
    SplitImage(fs, u, s);
    UpdateRight(Outer(fs, t.node, s), Image(t, Above(fs), s), t.node, TopCell(u, Above(fs), s));
  }

  /** `d` gives the new cells of the nodes that a left rotation at `x` touches: `y` takes the
      place of `x`, `x` hangs to the left of `y` and `b` to the right of `x`. */
  ghost predicate LeftRotation(m: map<Node, Cell>, d: map<Node, Cell>, x: Node, y: Node, b: Node, p: Node?, s: Node) {
    && x in m && y in m && x != y && s !in m
    && m[x].right == y && m[y].left == b && m[y].parent == x && m[x].parent == p
    && x in d && d[x] == m[x].(right := b, parent := y)
    && y in d && d[y] == m[y].(left := x, parent := p)
    && (b != s ==> b in m && b in d && b !in {x, y} && m[b].parent == y && d[b] == m[b].(parent := x))
    && (p != null ==>
          && p in m && p in d && p !in {x, y, b}
          && (m[p].left == x || m[p].right == x)
          && d[p] == if m[p].left == x then m[p].(left := y) else m[p].(right := y))
    && (forall n :: n in d ==> n in m && (n == x || n == y || (n == b && b != s) || n == p))
  }

  /** The mirror image. */
  ghost predicate RightRotation(m: map<Node, Cell>, d: map<Node, Cell>, x: Node, y: Node, b: Node, p: Node?, s: Node) {
    && x in m && y in m && x != y && s !in m
    && m[x].left == y && m[y].right == b && m[y].parent == x && m[x].parent == p
    && x in d && d[x] == m[x].(left := b, parent := y)
    && y in d && d[y] == m[y].(right := x, parent := p)
    && (b != s ==> b in m && b in d && b !in {x, y} && m[b].parent == y && d[b] == m[b].(parent := x))
    && (p != null ==>
          && p in m && p in d && p !in {x, y, b}
          && (m[p].left == x || m[p].right == x)
          && d[p] == if m[p].right == x then m[p].(right := y) else m[p].(left := y))
    && (forall n :: n in d ==> n in m && (n == x || n == y || (n == b && b != s) || n == p))
  }

  ghost function RotateLDelta(fs: Path, t: Shape, s: Node): map<Node, Cell>
    requires t.Bin? && t.right.Bin?
  {
    var u := RotateL(t);
    Rim(fs, u.node, s) + (Top(t.right.left, t.node, s) + (Top(u.left, u.node, s) + Top(u, Above(fs), s)))
  }

  ghost function RotateRDelta(fs: Path, t: Shape, s: Node): map<Node, Cell>
    requires t.Bin? && t.left.Bin?
  {
    var u := RotateR(t);
    Rim(fs, u.node, s) + (Top(t.left.right, t.node, s) + (Top(u.right, u.node, s) + Top(u, Above(fs), s)))
  }

  lemma RotateMaps(a: map<Node, Cell>, b: map<Node, Cell>, c: map<Node, Cell>, b': map<Node, Cell>,
                   x: Node, cx: Cell, cx': Cell, y: Node, cy: Cell, cy': Cell)
    requires a.Keys !! b.Keys !! c.Keys !! {x} !! {y} && b'.Keys <= b.Keys
    ensures ((a + (b + b'))[x := cx'] + c)[y := cy'] == (a + (b + c)[y := cy])[x := cx] +
      (b' + (map[x := cx'] + map[y := cy']))
  {
  }

  lemma RotateLImage(fs: Path, t: Shape, s: Node)
    requires Distinct(Plug(fs, t)) && t.Bin? && t.right.Bin?
    ensures var u := RotateL(t);
      && Distinct(Plug(fs, u)) && Nodes(Plug(fs, u)) == Nodes(Plug(fs, t))
      && Image(Plug(fs, u), null, s) == Image(Plug(fs, t), null, s) + RotateLDelta(fs, t, s)
  {
    var u, b := RotateL(t), t.right.left;
    Split(fs, t);
    RotateLNodes(t);
    Rehang(b, u.node, t.node, s);
    RotateMaps(Image(t.left, t.node, s), Image(b, u.node, s), Image(u.right, u.node, s), Top(b, t.node, s),
               t.node, TopCell(t, Above(fs), s), TopCell(u.left, u.node, s),
               u.node, TopCell(t.right, t.node, s), TopCell(u, Above(fs), s));
    Replace(fs, t, u, s, Top(b, t.node, s) + (Top(u.left, u.node, s) + Top(u, Above(fs), s)));
  }

  lemma LeftRotationOf(m: map<Node, Cell>, rim: map<Node, Cell>, top: map<Node, Cell>,
                         x: Node, y: Node, b: Node, p: Node?, s: Node)
    requires x in m && y in m && x != y && s !in m && b !in {x, y}
    requires m[x].right == y && m[y].left == b && m[y].parent == x && m[x].parent == p
    requires if b == s then top == map[] else b in m && m[b].parent == y && top == map[b := m[b].(parent := x)]
    requires if p == null then rim == map[] else
      && p in m && p !in {x, y, b} && m[p].left != m[p].right
      && ((m[p].left == x && rim == map[p := m[p].(left := y)]) ||
        (m[p].right == x && rim == map[p := m[p].(right := y)]))
    ensures LeftRotation(m, rim +
      (top + (map[x := m[x].(right := b, parent := y)] + map[y := m[y].(left := x, parent := p)])), x, y, b, p, s)
  {
  }

  lemma RightRotationOf(m: map<Node, Cell>, rim: map<Node, Cell>, top: map<Node, Cell>,
                         x: Node, y: Node, b: Node, p: Node?, s: Node)
    requires x in m && y in m && x != y && s !in m && b !in {x, y}
    requires m[x].left == y && m[y].right == b && m[y].parent == x && m[x].parent == p
    requires if b == s then top == map[] else b in m && m[b].parent == y && top == map[b := m[b].(parent := x)]
    requires if p == null then rim == map[] else
      && p in m && p !in {x, y, b} && m[p].left != m[p].right
      && ((m[p].left == x && rim == map[p := m[p].(left := y)]) ||
        (m[p].right == x && rim == map[p := m[p].(right := y)]))
    ensures RightRotation(m, rim +
      (top + (map[x := m[x].(left := b, parent := y)] + map[y := m[y].(right := x, parent := p)])), x, y, b, p, s)
  {
  }

  lemma RotateLCells(fs: Path, t: Shape, s: Node)
    requires Distinct(Plug(fs, t)) && t.Bin? && t.right.Bin?
    ensures var m := Image(Plug(fs, t), null, s);
      var x, y, b := t.node, t.right.node, t.right.left;
      && x in m && m[x] == TopCell(t, Above(fs), s)
      && y in m && y != x && m[y] == TopCell(t.right, x, s)
      && (b.Bin? ==> b.node in m && b.node !in {x, y} && m[b.node] == TopCell(b, y, s))
      && (fs != [] ==>
            var p := Last(fs).node;
            && p in m && p !in {x, y} && (b.Bin? ==> p != b.node)
            && m[p] == FrameCell(Last(fs), x, Above(Up(fs)), s)
            && (Last(fs).other.Bin? ==> Last(fs).other.node != x))
  {
    var y := t.right;
    var f := Frame(false, t.node, t.key, t.red, t.left);
    var g := Frame(true, y.node, y.key, y.red, y.right);
    assert Up(fs + [f]) == fs && Up(fs + [f, g]) == fs + [f];
    Split(fs, t);
    CellsAt(fs, t, s);
    CellsAt(fs + [f], y, s);
    CellsAt(fs + [f, g], y.left, s);
  }

  lemma RotateLSpots(fs: Path, t: Shape, s: Node)
    requires Distinct(Plug(fs, t)) && t.Bin? && t.right.Bin? && s !in Nodes(Plug(fs, t))
    ensures LeftRotation(Image(Plug(fs, t), null, s), RotateLDelta(fs, t, s), t.node, t.right.node,
      Ptr(t.right.left, s), Above(fs), s)
  {
    var u, b := RotateL(t), t.right.left;
    RotateLCells(fs, t, s);
    LeftRotationOf(Image(Plug(fs, t), null, s), Rim(fs, u.node, s), Top(b, t.node, s), t.node, u.node, Ptr(b, s),
      Above(fs), s);
  }

  lemma RotateMapsR(a: map<Node, Cell>, b: map<Node, Cell>, c: map<Node, Cell>, b': map<Node, Cell>,
                    x: Node, cx: Cell, cx': Cell, y: Node, cy: Cell, cy': Cell)
    requires a.Keys !! b.Keys !! c.Keys !! {x} !! {y} && b'.Keys <= b.Keys
    ensures (a + ((b + b') + c)[x := cx'])[y := cy'] == ((a + b)[y := cy] + c)[x := cx] +
      (b' + (map[x := cx'] + map[y := cy']))
  {
  }

  lemma RotateRImage(fs: Path, t: Shape, s: Node)
    requires Distinct(Plug(fs, t)) && t.Bin? && t.left.Bin?
    ensures var u := RotateR(t);
      && Distinct(Plug(fs, u)) && Nodes(Plug(fs, u)) == Nodes(Plug(fs, t))
      && Image(Plug(fs, u), null, s) == Image(Plug(fs, t), null, s) + RotateRDelta(fs, t, s)
  {
    var u, b := RotateR(t), t.left.right;
    Split(fs, t);
    RotateRNodes(t);
    Rehang(b, u.node, t.node, s);
    RotateMapsR(Image(u.left, u.node, s), Image(b, u.node, s), Image(t.right, t.node, s), Top(b, t.node, s),
                t.node, TopCell(t, Above(fs), s), TopCell(u.right, u.node, s),
                u.node, TopCell(t.left, t.node, s), TopCell(u, Above(fs), s));
    Replace(fs, t, u, s, Top(b, t.node, s) + (Top(u.right, u.node, s) + Top(u, Above(fs), s)));
  }

  lemma RotateRCells(fs: Path, t: Shape, s: Node)
    requires Distinct(Plug(fs, t)) && t.Bin? && t.left.Bin?
    ensures var m := Image(Plug(fs, t), null, s);
      var x, y, b := t.node, t.left.node, t.left.right;
      && x in m && m[x] == TopCell(t, Above(fs), s)
      && y in m && y != x && m[y] == TopCell(t.left, x, s)
      && (b.Bin? ==> b.node in m && b.node !in {x, y} && m[b.node] == TopCell(b, y, s))
      && (fs != [] ==>
            var p := Last(fs).node;
            && p in m && p !in {x, y} && (b.Bin? ==> p != b.node)
            && m[p] == FrameCell(Last(fs), x, Above(Up(fs)), s)
            && (Last(fs).other.Bin? ==> Last(fs).other.node != x))
  {
    var y := t.left;
    var f := Frame(true, t.node, t.key, t.red, t.right);
    var g := Frame(false, y.node, y.key, y.red, y.left);
    assert Up(fs + [f]) == fs && Up(fs + [f, g]) == fs + [f];
    Split(fs, t);
    CellsAt(fs, t, s);
    CellsAt(fs + [f], y, s);
    CellsAt(fs + [f, g], y.right, s);
  }

  lemma RotateRSpots(fs: Path, t: Shape, s: Node)
    requires Distinct(Plug(fs, t)) && t.Bin? && t.left.Bin? && s !in Nodes(Plug(fs, t))
    ensures RightRotation(Image(Plug(fs, t), null, s), RotateRDelta(fs, t, s), t.node, t.left.node,
      Ptr(t.left.right, s), Above(fs), s)
  {
    var u, b := RotateR(t), t.left.right;
    RotateRCells(fs, t, s);
    RightRotationOf(Image(Plug(fs, t), null, s), Rim(fs, u.node, s), Top(b, t.node, s), t.node, u.node, Ptr(b, s),
      Above(fs), s);
  }
}
