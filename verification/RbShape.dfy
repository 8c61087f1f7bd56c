/** The value world of the red-black tree: which nodes hang where, with the key and
    colour each carries.  A `Shape` is a subtree; a sequence of `Frame`s is the way from
    the root down to a hole, so that a shape plugged into the hole is the whole tree.
    Nothing here reads the heap: RbTree.dfy ties the fields of the nodes to a shape. */
module RbShape {

  // 64-bit unsigned keys.
  type Key = k: int | 0 <= k < 0x1_0000_0000_0000_0000

  /** A node as it is embedded in a larger record.  `red` is the colour byte. */
  class Node {
    var left: Node?
    var right: Node?
    var parent: Node?
    var key: Key
    var red: bool

    constructor ()
      ensures left == null && right == null && parent == null && key == 0 && !red
    {
      left, right, parent, key, red := null, null, null, 0, false;
    }

    /** Clears the links and the key; the colour is left as it was. */
    method Reset()
      modifies this`left, this`right, this`parent, this`key
      ensures left == null && right == null && parent == null && key == 0 && red == old(red)
    {
      left, right, parent, key := null, null, null, 0;
    }
  }

  datatype Elem = Elem(node: Node, key: Key)

  datatype Shape = Nil | Bin(left: Shape, node: Node, key: Key, red: bool, right: Shape)

  /** One step on the way from the root: at `node`, with the hole on the left or on the
      right, and `other` hanging on the opposite side. */
  datatype Frame = Frame(onLeft: bool, node: Node, key: Key, red: bool, other: Shape)

  type Path = seq<Frame>

  // ---------------------------------------------------------------- contents and order

  ghost function InOrder(t: Shape): seq<Elem> {
    match t
    case Nil => []
    case Bin(l, n, k, _, r) => InOrder(l) + [Elem(n, k)] + InOrder(r)
  }

  ghost function Nodes(t: Shape): set<Node> {
    match t
    case Nil => {}
    case Bin(l, n, _, _, r) => Nodes(l) + {n} + Nodes(r)
  }

  ghost predicate Sorted(s: seq<Elem>) {
    forall i, j :: 0 <= i < j < |s| ==> s[i].key <= s[j].key
  }

  /** No node occurs twice. */
  ghost predicate Distinct(t: Shape) {
    t.Bin? ==>
      && t.node !in Nodes(t.left) && t.node !in Nodes(t.right)
      && Nodes(t.left) !! Nodes(t.right)
      && Distinct(t.left) && Distinct(t.right)
  }

  lemma {:induction false} NodesAreContents(t: Shape, n: Node)
    ensures n in Nodes(t) <==> exists k: Key :: Elem(n, k) in InOrder(t)
  {
    match t
    case Nil =>
    case Bin(l, m, k, _, r) =>
      NodesAreContents(l, n);
      NodesAreContents(r, n);
      assert Elem(m, k) in InOrder(t);
      if n in Nodes(l) {
        var j: Key :| Elem(n, j) in InOrder(l);
        assert Elem(n, j) in InOrder(t);
      } else if n in Nodes(r) {
        var j: Key :| Elem(n, j) in InOrder(r);
        assert Elem(n, j) in InOrder(t);
      }
  }

  // ---------------------------------------------------------------- paths and holes

  function Fill(f: Frame, t: Shape): Shape {
    if f.onLeft then Bin(t, f.node, f.key, f.red, f.other) else Bin(f.other, f.node, f.key, f.red, t)
  }

  /** The frames that lead from a node to its two subtrees. */
  function DownL(t: Shape): Frame
    requires t.Bin?
  {
    Frame(true, t.node, t.key, t.red, t.right)
  }

  function DownR(t: Shape): Frame
    requires t.Bin?
  {
    Frame(false, t.node, t.key, t.red, t.left)
  }

  function Up(fs: Path): Path
    requires fs != []
  {
    fs[..|fs| - 1]
  }

  function Last(fs: Path): Frame
    requires fs != []
  {
    fs[|fs| - 1]
  }

  function Plug(fs: Path, t: Shape): Shape
    decreases |fs|
  {
    if fs == [] then t else Plug(Up(fs), Fill(Last(fs), t))
  }

  ghost function FrameNodes(f: Frame): set<Node> {
    Nodes(f.other) + {f.node}
  }

  /** The elements of the whole tree before the hole, and after it. */
  ghost function Before(fs: Path): seq<Elem> {
    if fs == [] then []
    else if Last(fs).onLeft then Before(Up(fs))
    else Before(Up(fs)) + InOrder(Last(fs).other) + [Elem(Last(fs).node, Last(fs).key)]
  }

  ghost function After(fs: Path): seq<Elem> {
    if fs == [] then []
    else if Last(fs).onLeft then [Elem(Last(fs).node, Last(fs).key)] + InOrder(Last(fs).other) + After(Up(fs))
    else After(Up(fs))
  }

  lemma {:induction false} InOrderPlug(fs: Path, t: Shape)
    ensures InOrder(Plug(fs, t)) == Before(fs) + InOrder(t) + After(fs)
    decreases |fs|
  {
    if fs == [] {
    } else {
      InOrderPlug(Up(fs), Fill(Last(fs), t));
    }
  }

  /** The path from the root to a given node, found by descent. */
  lemma {:induction false} Locate(fs: Path, t: Shape, n: Node) returns (gs: Path, u: Shape)
    requires n in Nodes(t)
    ensures Plug(gs, u) == Plug(fs, t) && u.Bin? && u.node == n
    decreases t
  {
    if t.node == n {
      gs, u := fs, t;
    } else if n in Nodes(t.left) {
      var f := Frame(true, t.node, t.key, t.red, t.right);
      assert Up(fs + [f]) == fs;
      gs, u := Locate(fs + [f], t.left, n);
    } else {
      var f := Frame(false, t.node, t.key, t.red, t.left);
      assert Up(fs + [f]) == fs;
      gs, u := Locate(fs + [f], t.right, n);
    }
  }

  // ---------------------------------------------------------------- colours and black height

  predicate IsRed(t: Shape) {
    t.Bin? && t.red
  }

  /** Every way down passes `h` black nodes, and no red node has a red child. */
  ghost predicate RB(t: Shape, h: nat) {
    match t
    case Nil => h == 0
    case Bin(l, _, _, red, r) =>
      if red then !IsRed(l) && !IsRed(r) && RB(l, h) && RB(r, h)
      else h > 0 && RB(l, h - 1) && RB(r, h - 1)
  }

  ghost function BlackHeight(t: Shape): nat {
    match t
    case Nil => 0
    case Bin(l, _, _, red, _) => BlackHeight(l) + if red then 0 else 1
  }

  lemma {:induction false} BlackHeightUnique(t: Shape, h: nat)
    requires RB(t, h)
    ensures h == BlackHeight(t)
  {
    match t
    case Nil =>
    case Bin(l, _, _, red, _) => BlackHeightUnique(l, if red then h else h - 1);
  }

  /** The red-black invariant of a whole tree. */
  ghost predicate RedBlack(t: Shape) {
    !IsRed(t) && RB(t, BlackHeight(t))
  }

  predicate ParentRed(fs: Path) {
    fs != [] && Last(fs).red
  }

  predicate RootBlack(fs: Path) {
    fs != [] ==> !fs[0].red
  }

  /** Everything around the hole is in order, provided the hole takes black height `h`. */
  ghost predicate Around(fs: Path, h: nat)
    decreases |fs|
  {
    fs != [] ==>
      var f := Last(fs);
      && RB(f.other, h)
      && (f.red ==> !IsRed(f.other) && !ParentRed(Up(fs)))
      && Around(Up(fs), if f.red then h else h + 1)
  }

  lemma {:induction false} PlugRedBlack(fs: Path, t: Shape, h: nat)
    requires Around(fs, h) && RootBlack(fs) && RB(t, h)
    requires !(IsRed(t) && ParentRed(fs))
    requires fs == [] ==> !IsRed(t)
    ensures RedBlack(Plug(fs, t))
    decreases |fs|
  {
    if fs == [] {
      BlackHeightUnique(t, h);
    } else {
      var f := Last(fs);
      PlugRedBlack(Up(fs), Fill(f, t), if f.red then h else h + 1);
    }
  }

  lemma {:induction false} UnplugRedBlack(fs: Path, t: Shape, h: nat) returns (k: nat)
    requires RB(Plug(fs, t), h) && !IsRed(Plug(fs, t))
    ensures Around(fs, k) && RootBlack(fs) && RB(t, k)
    ensures !(IsRed(t) && ParentRed(fs))
    ensures fs == [] ==> !IsRed(t)
    decreases |fs|
  {
    if fs == [] {
      k := h;
    } else {
      var f := Last(fs);
      var up := UnplugRedBlack(Up(fs), Fill(f, t), h);
      k := if f.red then up else up - 1;
    }
  }

  // ---------------------------------------------------------------- rotations

  function RotateL(t: Shape): Shape
    requires t.Bin? && t.right.Bin?
  {
    var y := t.right;
    Bin(Bin(t.left, t.node, t.key, t.red, y.left), y.node, y.key, y.red, y.right)
  }

  function RotateR(t: Shape): Shape
    requires t.Bin? && t.left.Bin?
  {
    var y := t.left;
    Bin(y.left, y.node, y.key, y.red, Bin(y.right, t.node, t.key, t.red, t.right))
  }

  lemma RotationsCancel(t: Shape)
    ensures t.Bin? && t.right.Bin? ==> RotateR(RotateL(t)) == t
    ensures t.Bin? && t.left.Bin? ==> RotateL(RotateR(t)) == t
  {
  }

  lemma RotationOrder(t: Shape)
    ensures t.Bin? && t.right.Bin? ==> InOrder(RotateL(t)) == InOrder(t)
    ensures t.Bin? && t.left.Bin? ==> InOrder(RotateR(t)) == InOrder(t)
  {
    if t.Bin? && t.right.Bin? {
      Regroup(InOrder(t.left), t.node, t.key, InOrder(t.right.left), t.right.node, t.right.key, InOrder(t.right.right));
    }
    if t.Bin? && t.left.Bin? {
      Regroup(InOrder(t.left.left), t.left.node, t.left.key, InOrder(t.left.right), t.node, t.key, InOrder(t.right));
    }
  }

  lemma Regroup(a: seq<Elem>, x: Node, i: Key, b: seq<Elem>, y: Node, j: Key, c: seq<Elem>)
    ensures a + [Elem(x, i)] + (b + [Elem(y, j)] + c) == (a + [Elem(x, i)] + b) + [Elem(y, j)] + c
  {
  }

  lemma RotateLNodes(t: Shape)
    requires t.Bin? && t.right.Bin?
    ensures Nodes(RotateL(t)) == Nodes(t)
    ensures Distinct(t) ==> Distinct(RotateL(t))
  {
    var a, b, c, x, y := Nodes(t.left), Nodes(t.right.left), Nodes(t.right.right), t.node, t.right.node;
    var low := RotateL(t).left;
    assert Nodes(t.right) == b + {y} + c;
    assert Nodes(low) == a + {x} + b;
    if Distinct(t) {
      assert Distinct(t.right);
      assert Distinct(low);
    }
  }

  lemma RotateRNodes(t: Shape)
    requires t.Bin? && t.left.Bin?
    ensures Nodes(RotateR(t)) == Nodes(t)
    ensures Distinct(t) ==> Distinct(RotateR(t))
  {
    var a, b, c, x, y := Nodes(t.left.left), Nodes(t.left.right), Nodes(t.right), t.node, t.left.node;
    var low := RotateR(t).right;
    assert Nodes(t.left) == a + {y} + b;
    assert Nodes(low) == b + {x} + c;
    if Distinct(t) {
      assert Distinct(t.left);
      assert Distinct(low);
    }
  }
}
