/** The intrusive red-black tree on the heap: nodes with parent links and one shared
    sentinel whose `parent` field is scratch space.  The root's own `parent` field and,
    between operations, every field of the sentinel except its colour are arbitrary. */
module RbTree {
  import opened RbShape
  import opened RbImage
  import opened RbInsert
  import opened RbDelete
  import opened RbSearch

  class RbTree {
    var root: Node
    const sentinel: Node
    ghost var shape: Shape
    ghost var turns: nat  // rotations carried out so far

    constructor (s: Node)
      modifies s
      ensures sentinel == s && Valid() && Contents() == [] && turns == 0
    {
      sentinel, root, shape, turns := s, s, Nil, 0;
      new;
      s.Reset();
      s.red := false;
    }

    ghost predicate Holds(n: Node, c: Cell)
      reads n
    {
      && n.left == c.left && n.right == c.right && n.key == c.key && n.red == c.red
      && (c.parent != null ==> n.parent == c.parent)
    }

    ghost predicate Match(m: map<Node, Cell>)
      reads m.Keys
    {
      forall n :: n in m ==> Holds(n, m[n])
    }

    /** The nodes in `R` are linked up as `w`: every link, parent link, key and colour is as
        `w` has it, except the root's parent link, which is left open. */
    ghost predicate Linked(R: set<Node>, w: Shape)
      reads this`root, R
    {
      && sentinel !in R && Nodes(w) == R && Distinct(w)
      && root == Ptr(w, sentinel)
      && Match(Image(w, null, sentinel))
    }

    /** What the fields say at a hole. */
    lemma At(R: set<Node>, fs: Path, t: Shape)
      requires Linked(R, Plug(fs, t))
      ensures t.Bin? ==> t.node in R && Holds(t.node, TopCell(t, Above(fs), sentinel))
      ensures fs != [] ==>
        Last(fs).node in R && Holds(Last(fs).node, FrameCell(Last(fs), Ptr(t, sentinel), Above(Up(fs)), sentinel))
      ensures t.Bin? ==> (t.node == root <==> fs == [])
      ensures fs != [] ==> root in R
    {
      CellsAt(fs, t, sentinel);
      Split(fs, t);
      RootOf(fs, t, sentinel);
    }

    // ------------------------------------------------------------ pointer surgery

    method PaintCell(n: Node, red: bool, ghost m: map<Node, Cell>)
      requires Match(m) && n in m
      modifies n`red
      ensures Match(m[n := m[n].(red := red)])
    {
      n.red := red;
    }

    method Paint(n: Node, red: bool, ghost R: set<Node>, ghost fs: Path, ghost t: Shape)
      requires Linked(R, Plug(fs, t)) && t.Bin? && t.node == n
      modifies R`red
      ensures Linked(R, Plug(fs, t.(red := red)))
    {
      CellsAt(fs, t, sentinel);
      RepaintImage(fs, t, red, sentinel);
      RootOf(fs, t, sentinel);
      RootOf(fs, t.(red := red), sentinel);
      PaintCell(n, red, Image(Plug(fs, t), null, sentinel));
    }

    method LeftRotate(node: Node, ghost R: set<Node>)
      requires node in R && sentinel !in R
      requires node.right != null && node.right in R && node.right != node
      requires var b := node.right.left; b != null && (b != sentinel ==> b in R && b != node.right && b != node)
      requires node != root ==>
        var p := node.parent;
        && p != null && p in R && p != node && p != node.right && p != node.right.left
        && (p.left == node || p.right == node)
      modifies this`root, this`turns, R`left, R`right, R`parent
      ensures root == if node == old(root) then old(node.right) else old(root)
      ensures forall n :: n in R ==> (n.left ==
        if n == old(node.right) then node
        else if node != old(root) && n == old(node.parent) && old(n.left) == node then old(node.right)
        else old(n.left))
      ensures forall n :: n in R ==> (n.right ==
        if n == node then old(node.right.left)
        else if node != old(root) && n == old(node.parent) && old(n.left) != node then old(node.right)
        else old(n.right))
      ensures forall n :: n in R ==> (n.parent ==
        if n == node then old(node.right)
        else if n == old(node.right) then old(node.parent)
        else if n == old(node.right.left) then node
        else old(n.parent))
      ensures turns == old(turns) + 1
    {
      var temp := node.right;
      node.right := temp.left;
      if temp.left != sentinel {
        temp.left.parent := node;
      }
      temp.parent := node.parent;
      if node == root {
        root := temp;
      } else if node == node.parent.left {
        node.parent.left := temp;
      } else {
        node.parent.right := temp;
      }
      temp.left := node;
      node.parent := temp;
      turns := turns + 1;
    }

    method RightRotate(node: Node, ghost R: set<Node>)
      requires node in R && sentinel !in R
      requires node.left != null && node.left in R && node.left != node
      requires var b := node.left.right; b != null && (b != sentinel ==> b in R && b != node.left && b != node)
      requires node != root ==>
        var p := node.parent;
        && p != null && p in R && p != node && p != node.left && p != node.left.right
        && (p.left == node || p.right == node)
      modifies this`root, this`turns, R`left, R`right, R`parent
      ensures root == if node == old(root) then old(node.left) else old(root)
      ensures forall n :: n in R ==> (n.right ==
        if n == old(node.left) then node
        else if node != old(root) && n == old(node.parent) && old(n.right) == node then old(node.left)
        else old(n.right))
      ensures forall n :: n in R ==> (n.left ==
        if n == node then old(node.left.right)
        else if node != old(root) && n == old(node.parent) && old(n.right) != node then old(node.left)
        else old(n.left))
      ensures forall n :: n in R ==> (n.parent ==
        if n == node then old(node.left)
        else if n == old(node.left) then old(node.parent)
        else if n == old(node.left.right) then node
        else old(n.parent))
      ensures turns == old(turns) + 1
    {
      var temp := node.left;
      node.left := temp.right;
      if temp.right != sentinel {
        temp.right.parent := node;
      }
      temp.parent := node.parent;
      if node == root {
        root := temp;
      } else if node == node.parent.right {
        node.parent.right := temp;
      } else {
        node.parent.left := temp;
      }
      temp.right := node;
      node.parent := temp;
      turns := turns + 1;
    }

    method LeftRotateCells(node: Node, ghost m: map<Node, Cell>, ghost d: map<Node, Cell>, ghost y: Node,
      ghost b: Node, ghost p: Node?)
      requires Match(m) && LeftRotation(m, d, node, y, b, p, sentinel) && (node == root <==> p == null)
      modifies this`root, this`turns, m.Keys`left, m.Keys`right, m.Keys`parent
      ensures root == if p == null then y else old(root)
      ensures Match(m + d)
      ensures turns == old(turns) + 1
    {
      assert Holds(node, m[node]) && Holds(y, m[y]) && (node != root ==> Holds(p, m[p]));
      LeftRotate(node, m.Keys);
      forall n | n in m
        ensures Holds(n, (m + d)[n])
      {
        if n in d {
        } else {
          assert (m + d)[n] == m[n];
        }
      }
    }

    method RightRotateCells(node: Node, ghost m: map<Node, Cell>, ghost d: map<Node, Cell>, ghost y: Node,
      ghost b: Node, ghost p: Node?)
      requires Match(m) && RightRotation(m, d, node, y, b, p, sentinel) && (node == root <==> p == null)
      modifies this`root, this`turns, m.Keys`left, m.Keys`right, m.Keys`parent
      ensures root == if p == null then y else old(root)
      ensures Match(m + d)
      ensures turns == old(turns) + 1
    {
      assert Holds(node, m[node]) && Holds(y, m[y]) && (node != root ==> Holds(p, m[p]));
      RightRotate(node, m.Keys);
      forall n | n in m
        ensures Holds(n, (m + d)[n])
      {
        if n in d {
        } else {
          assert (m + d)[n] == m[n];
        }
      }
    }

    lemma LeftRotatePlan(R: set<Node>, fs: Path, t: Shape)
      requires Linked(R, Plug(fs, t)) && t.Bin? && t.right.Bin?
      ensures var m, u, d := Image(Plug(fs, t), null, sentinel), Plug(fs, RotateL(t)), RotateLDelta(fs, t, sentinel);
        && Distinct(u) && Nodes(u) == R
        && Image(u, null, sentinel) == m + d && m.Keys == R
        && LeftRotation(m, d, t.node, t.right.node, Ptr(t.right.left, sentinel), Above(fs), sentinel)
        && (t.node == root <==> Above(fs) == null)
        && Ptr(u, sentinel) == if Above(fs) == null then t.right.node else root
    {
      RotateLImage(fs, t, sentinel);
      RotateLSpots(fs, t, sentinel);
      At(R, fs, t);
      RootOf(fs, t, sentinel);
      RootOf(fs, RotateL(t), sentinel);
    }

    method LeftRotateAt(node: Node, ghost R: set<Node>, ghost fs: Path, ghost t: Shape)
      requires Linked(R, Plug(fs, t)) && t.Bin? && t.right.Bin? && t.node == node
      modifies this`root, this`turns, R`left, R`right, R`parent
      ensures Linked(R, Plug(fs, RotateL(t)))
      ensures turns == old(turns) + 1
    {
      LeftRotatePlan(R, fs, t);
      LeftRotateCells(node, Image(Plug(fs, t), null, sentinel), RotateLDelta(fs, t, sentinel),
                 t.right.node, Ptr(t.right.left, sentinel), Above(fs));
    }

    lemma RightRotatePlan(R: set<Node>, fs: Path, t: Shape)
      requires Linked(R, Plug(fs, t)) && t.Bin? && t.left.Bin?
      ensures var m, u, d := Image(Plug(fs, t), null, sentinel), Plug(fs, RotateR(t)), RotateRDelta(fs, t, sentinel);
        && Distinct(u) && Nodes(u) == R
        && Image(u, null, sentinel) == m + d && m.Keys == R
        && RightRotation(m, d, t.node, t.left.node, Ptr(t.left.right, sentinel), Above(fs), sentinel)
        && (t.node == root <==> Above(fs) == null)
        && Ptr(u, sentinel) == if Above(fs) == null then t.left.node else root
    {
      RotateRImage(fs, t, sentinel);
      RotateRSpots(fs, t, sentinel);
      At(R, fs, t);
      RootOf(fs, t, sentinel);
      RootOf(fs, RotateR(t), sentinel);
    }

    method RightRotateAt(node: Node, ghost R: set<Node>, ghost fs: Path, ghost t: Shape)
      requires Linked(R, Plug(fs, t)) && t.Bin? && t.left.Bin? && t.node == node
      modifies this`root, this`turns, R`left, R`right, R`parent
      ensures Linked(R, Plug(fs, RotateR(t)))
      ensures turns == old(turns) + 1
    {
      RightRotatePlan(R, fs, t);
      RightRotateCells(node, Image(Plug(fs, t), null, sentinel), RotateRDelta(fs, t, sentinel),
                 t.left.node, Ptr(t.left.right, sentinel), Above(fs));
    }

    /** What the loop test of a rebalancing sees at a hole. */
    ghost predicate Seen(fs: Path, node: Node)
      reads this`root, node, if node.parent == null then {} else {node.parent}
    {
      && (node == root <==> fs == [])
      && (fs != [] ==> node.parent == Last(fs).node && node.parent.red == Last(fs).red)
    }

    // ------------------------------------------------------------ insert: rebalancing

    /** What the fields say about parent, grandparent and uncle. */
    lemma Family(R: set<Node>, fs: Path, t: Shape)
      requires Linked(R, Plug(fs, t)) && t.Bin? && |fs| >= 2 && !sentinel.red
      ensures var f, g := Last(fs), Last(Up(fs));
        && t.node.parent == f.node && f.node.red == f.red && f.node.parent == g.node
        && (t.node == f.node.left <==> f.onLeft) && (t.node == f.node.right <==> !f.onLeft)
        && (f.node == g.node.left <==> g.onLeft)
        && g.node.left == (if g.onLeft then f.node else Ptr(g.other, sentinel))
        && g.node.right == (if g.onLeft then Ptr(g.other, sentinel) else f.node)
        && Ptr(g.other, sentinel).red == IsRed(g.other)
    {
      var gs, f, g := Up(fs), Last(fs), Last(Up(fs));
      At(R, fs, t);
      At(R, gs, Fill(f, t));
      Split(fs, t);
      Split(gs, Fill(f, t));
      Sibling(R, gs, Fill(f, t));
    }

    /** The node on the other side of the last frame. */
    lemma Sibling(R: set<Node>, fs: Path, t: Shape)
      requires Linked(R, Plug(fs, t)) && fs != []
      ensures Last(fs).other.Bin? ==>
        Last(fs).other.node in R && Holds(Last(fs).other.node, TopCell(Last(fs).other, Last(fs).node, sentinel))
      ensures t.Bin? && Last(fs).other.Bin? ==> t.node != Last(fs).other.node
    {
      var f := Last(fs);
      var g := Frame(!f.onLeft, f.node, f.key, f.red, t);
      PlugDown(Up(fs), g, f.other);
      At(R, Up(fs) + [g], f.other);
      Split(fs, t);
    }

    /** Three paints: parent and uncle black, grandparent red. */
    method Recolour(p: Node, u: Node, g: Node, ghost R: set<Node>, ghost gs: Path, ghost f: Frame, ghost t: Shape)
      requires Linked(R, Plug(gs, Fill(f, t))) && t.Bin? && f.other.Bin?
      requires p == t.node && u == f.other.node && g == f.node
      modifies R`red
      ensures Linked(R, Plug(gs, Recoloured(f, t)))
    {
      PlugDown(gs, f, t);
      Paint(p, false, R, gs + [f], t);
      ghost var t' := t.(red := false);
      PlugDown(gs, f, t');
      ghost var k := Frame(!f.onLeft, f.node, f.key, f.red, t');
      PlugDown(gs, k, f.other);
      Paint(u, false, R, gs + [k], f.other);
      ghost var o := f.other.(red := false);
      PlugDown(gs, k, o);
      Paint(g, true, R, gs, Fill(k, o));
    }

    /** A red node on the right of its parent changes places with the parent. */
    method StraightenLeft(node: Node, ghost R: set<Node>, ghost gs: Path, ghost f: Frame, ghost t: Shape)
      requires Linked(R, Plug(gs + [f], t)) && t.Bin? && f.node == node && f.onLeft == false
      modifies this`root, this`turns, R`left, R`right, R`parent
      ensures Linked(R, Plug(gs + [Risen(f, t)], Sunk(f, t)))
      ensures turns == old(turns) + 1
    {
      PlugDown(gs, f, t);
      LeftRotateAt(node, R, gs, Fill(f, t));
      PlugDown(gs, Risen(f, t), Sunk(f, t));
    }

    /** The red parent on the left turns black, the grandparent red, and a rotation puts the
        parent on top. */
    method RaiseParentLeft(node: Node, ghost R: set<Node>, ghost gs: Path, ghost g: Frame, ghost f: Frame,
      ghost t: Shape)
      requires Linked(R, Plug(gs + [g] + [f], t)) && t.Bin? && t.node == node && f.onLeft == g.onLeft == true &&
        !sentinel.red
      modifies this`root, this`turns, R`left, R`right, R`parent, R`red
      ensures Linked(R, Plug(gs + [Turned(f, g)], t))
      ensures turns == old(turns) + 1
    {
      PlugDown(gs + [g], f, t);
      Family(R, gs + [g] + [f], t);
      Paint(node.parent, false, R, gs + [g], Fill(f, t));
      ghost var p := Fill(f, t).(red := false);
      PlugDown(gs, g, p);
      Paint(node.parent.parent, true, R, gs, Fill(g, p));
      RightRotateAt(node.parent.parent, R, gs, Fill(g, p).(red := true));
      PlugDown(gs, Turned(f, g), t);
    }

    /** A red node on the left of its parent changes places with the parent. */
    method StraightenRight(node: Node, ghost R: set<Node>, ghost gs: Path, ghost f: Frame, ghost t: Shape)
      requires Linked(R, Plug(gs + [f], t)) && t.Bin? && f.node == node && f.onLeft == true
      modifies this`root, this`turns, R`left, R`right, R`parent
      ensures Linked(R, Plug(gs + [Risen(f, t)], Sunk(f, t)))
      ensures turns == old(turns) + 1
    {
      PlugDown(gs, f, t);
      RightRotateAt(node, R, gs, Fill(f, t));
      PlugDown(gs, Risen(f, t), Sunk(f, t));
    }

    /** The red parent on the right turns black, the grandparent red, and a rotation puts the
        parent on top. */
    method RaiseParentRight(node: Node, ghost R: set<Node>, ghost gs: Path, ghost g: Frame, ghost f: Frame,
      ghost t: Shape)
      requires Linked(R, Plug(gs + [g] + [f], t)) && t.Bin? && t.node == node && f.onLeft == g.onLeft == false &&
        !sentinel.red
      modifies this`root, this`turns, R`left, R`right, R`parent, R`red
      ensures Linked(R, Plug(gs + [Turned(f, g)], t))
      ensures turns == old(turns) + 1
    {
      PlugDown(gs + [g], f, t);
      Family(R, gs + [g] + [f], t);
      Paint(node.parent, false, R, gs + [g], Fill(f, t));
      ghost var p := Fill(f, t).(red := false);
      PlugDown(gs, g, p);
      Paint(node.parent.parent, true, R, gs, Fill(g, p));
      LeftRotateAt(node.parent.parent, R, gs, Fill(g, p).(red := true));
      PlugDown(gs, Turned(f, g), t);
    }

    /** One round when the parent is a left child. */
    method InsertStepLeft(node0: Node, ghost R: set<Node>, ghost fs: Path, ghost t: Shape)
      returns (node: Node)
      requires Linked(R, Plug(fs, t)) && t.Bin? && t.node == node0 && !sentinel.red
      requires |fs| >= 2 && Last(Up(fs)).onLeft == true
      modifies this`root, this`turns, R`left, R`right, R`parent, R`red
      ensures var r := RbInsert.InsertStep(fs, t); Linked(R, Plug(r.0, r.1)) && r.1.node == node
      ensures turns == old(turns) + InsertStepRotations(fs)
    {
      Family(R, fs, t);
      LastTwo(fs);
      ghost var top, f, g := Up(Up(fs)), Last(fs), Last(Up(fs));
      PlugDown(Up(fs), f, t);
      PlugDown(top, g, Fill(f, t));
      node := node0;
      var temp := node.parent.parent.right;
      if temp.red {
        Recolour(node.parent, temp, node.parent.parent, R, top, g, Fill(f, t));
        node := node.parent.parent;
      } else {
        ghost var u := t;
        if node == node.parent.right {
          node := node.parent;
          StraightenLeft(node, R, top + [g], f, t);
          f, u := Risen(f, t), Sunk(f, t);
        }
        RaiseParentLeft(node, R, top, g, f, u);
      }
    }

    /** One round when the parent is a right child. */
    method InsertStepRight(node0: Node, ghost R: set<Node>, ghost fs: Path, ghost t: Shape)
      returns (node: Node)
      requires Linked(R, Plug(fs, t)) && t.Bin? && t.node == node0 && !sentinel.red
      requires |fs| >= 2 && Last(Up(fs)).onLeft == false
      modifies this`root, this`turns, R`left, R`right, R`parent, R`red
      ensures var r := RbInsert.InsertStep(fs, t); Linked(R, Plug(r.0, r.1)) && r.1.node == node
      ensures turns == old(turns) + InsertStepRotations(fs)
    {
      Family(R, fs, t);
      LastTwo(fs);
      ghost var top, f, g := Up(Up(fs)), Last(fs), Last(Up(fs));
      PlugDown(Up(fs), f, t);
      PlugDown(top, g, Fill(f, t));
      node := node0;
      var temp := node.parent.parent.left;
      if temp.red {
        Recolour(node.parent, temp, node.parent.parent, R, top, g, Fill(f, t));
        node := node.parent.parent;
      } else {
        ghost var u := t;
        if node == node.parent.left {
          node := node.parent;
          StraightenRight(node, R, top + [g], f, t);
          f, u := Risen(f, t), Sunk(f, t);
        }
        RaiseParentRight(node, R, top, g, f, u);
      }
    }

    method InsertStep(node0: Node, ghost R: set<Node>, ghost fs: Path, ghost t: Shape)
      returns (node: Node)
      requires Linked(R, Plug(fs, t)) && t.Bin? && t.node == node0 && !sentinel.red && |fs| >= 2
      modifies this`root, this`turns, R`left, R`right, R`parent, R`red
      ensures var r := RbInsert.InsertStep(fs, t); Linked(R, Plug(r.0, r.1)) && r.1.node == node && Seen(r.0, node)
      ensures turns == old(turns) + InsertStepRotations(fs)
    {
      Family(R, fs, t);
      if node0.parent == node0.parent.parent.left {
        node := InsertStepLeft(node0, R, fs, t);
      } else {
        node := InsertStepRight(node0, R, fs, t);
      }
      ghost var r := RbInsert.InsertStep(fs, t);
      At(R, r.0, r.1);
    }

    method InsertFixup(node0: Node, ghost R: set<Node>, ghost fs0: Path, ghost t0: Shape)
      requires Linked(R, Plug(fs0, t0)) && t0.Bin? && t0.node == node0 && RootBlack(fs0) && !sentinel.red &&
        Seen(fs0, node0)
      modifies this`root, this`turns, R`left, R`right, R`parent, R`red
      ensures Linked(R, InsertFix(fs0, t0).0) && turns == old(turns) + InsertFix(fs0, t0).1
    {
      var node := node0;
      ghost var fs, t, w := fs0, t0, InsertFix(fs0, t0).0;
      ghost var n: nat := InsertFix(fs0, t0).1;
      while node != root && node.parent.red
        invariant Linked(R, Plug(fs, t)) && t.Bin? && t.node == node && Seen(fs, node)
        invariant InsertLeads(fs, t, w, n) && turns + n == old(turns) + InsertFix(fs0, t0).1
        decreases |fs|
      {
        TwoFrames(fs);
        node := InsertStep(node, R, fs, t);
        ghost var s := RbInsert.InsertStep(fs, t);
        InsertLeadsOn(fs, t, w, n, s.0, s.1, InsertStepRotations(fs));
        n := n - InsertStepRotations(fs);
        fs, t := s.0, s.1;
      }
      RootOf(fs, t, sentinel);
      Paint(root, false, R, [], Plug(fs, t));
    }

    // ------------------------------------------------------------ insert

    ghost predicate Valid()
      reads this`root, this`shape, sentinel, Nodes(shape)
    {
      && Linked(Nodes(shape), shape)
      && !sentinel.red
      && RedBlack(shape)
      && Sorted(InOrder(shape))
    }

    ghost function Contents(): seq<Elem>
      reads this`shape
    {
      InOrder(shape)
    }

    /** The binary descent: the node under which a new node with this key belongs. */
    method FindLeaf(key: Key) returns (temp: Node, goLeft: bool, ghost fs: Path)
      requires Valid() && shape.Bin?
      ensures fs != [] && Plug(fs, Nil) == shape && Last(fs).node == temp && Last(fs).onLeft == goLeft
      ensures forall e :: e in Before(fs) ==> e.key <= key
      ensures forall e :: e in After(fs) ==> key < e.key
    {
      ghost var R, t := Nodes(shape), shape;
      temp := root;
      fs := [];
      while true
        invariant Linked(R, Plug(fs, t)) && Plug(fs, t) == shape && t.Bin? && t.node == temp
        invariant forall e :: e in Before(fs) ==> e.key <= key
        invariant forall e :: e in After(fs) ==> key < e.key
        decreases t
      {
        At(R, fs, t);
        DescendKeeps(fs, t, key);
        Split(fs, t);
        goLeft := key < temp.key;
        var p := if goLeft then temp.left else temp.right;
        fs, t := fs + [if goLeft then DownL(t) else DownR(t)], if goLeft then t.left else t.right;
        if p == sentinel {
          return;
        }
        temp := p;
      }
    }

    method AttachCells(node: Node, temp: Node, goLeft: bool, ghost m: map<Node, Cell>)
      requires Match(m) && temp in m && node !in m
      modifies temp`left, temp`right, node`parent, node`left, node`right, node`red
      ensures Match(m + (map[temp := if goLeft then m[temp].(left := node) else m[temp].(right := node)] +
                         map[node := Cell(sentinel, sentinel, temp, node.key, true)]))
    {
      assert Holds(temp, m[temp]);
      if goLeft {
        temp.left := node;
      } else {
        temp.right := node;
      }
      node.parent := temp;
      node.left := sentinel;
      node.right := sentinel;
      node.red := true;
    }

    method Attach(node: Node, temp: Node, goLeft: bool, ghost R: set<Node>, ghost fs: Path)
      requires Linked(R, Plug(fs, Nil)) && fs != [] && Last(fs).node == temp && Last(fs).onLeft == goLeft
      requires node !in R && node != sentinel
      modifies R`left, R`right, node`parent, node`left, node`right, node`red
      ensures Linked(R + {node}, Plug(fs, Leaf(node, node.key))) && Seen(fs, node)
    {
      CellsAt(fs, Nil, sentinel);
      Split(fs, Nil);
      LeafImage(fs, node, node.key, sentinel);
      RootOf(fs, Nil, sentinel);
      RootOf(fs, Leaf(node, node.key), sentinel);
      At(R, fs, Nil);
      AttachCells(node, temp, goLeft, Image(Plug(fs, Nil), null, sentinel));
      At(R + {node}, fs, Leaf(node, node.key));
    }

    method InsertAt(node: Node, temp: Node, goLeft: bool, ghost R: set<Node>, ghost fs: Path)
      requires Linked(R, Plug(fs, Nil)) && fs != [] && Last(fs).node == temp && Last(fs).onLeft == goLeft
      requires node !in R && node != sentinel && RootBlack(fs) && !sentinel.red
      modifies this`root, this`turns, node`left, node`right, node`parent, node`red, R`left, R`right, R`parent, R`red
      ensures var r := InsertFix(fs, Leaf(node, node.key)); Linked(R + {node}, r.0) && turns == old(turns) + r.1
    {
      Attach(node, temp, goLeft, R, fs);
      InsertFixup(node, R + {node}, fs, Leaf(node, node.key));
    }

    method InsertFirst(node: Node)
      requires node != sentinel
      modifies this`root, node`left, node`right, node`parent, node`red
      ensures Linked({node}, Bin(Nil, node, node.key, false, Nil))
    {
      node.parent := null;
      node.left := sentinel;
      node.right := sentinel;
      node.red := false;
      root := node;
    }

    method InsertBelow(node: Node) returns (ghost w: Shape)
      requires Valid() && shape.Bin? && node !in Nodes(shape) && node != sentinel
      modifies this`root, this`turns, node`left, node`right, node`parent, node`red
      modifies Nodes(shape)`left, Nodes(shape)`right, Nodes(shape)`parent, Nodes(shape)`red
      ensures Linked(Nodes(shape) + {node}, w) && RedBlack(w) && turns <= old(turns) + 2
      ensures InOrder(w) == Place(InOrder(shape), Elem(node, node.key)) && Sorted(InOrder(w))
    {
      ghost var R, t := Nodes(shape), shape;
      assert Linked(R, t);
      var temp, goLeft;
      ghost var fs;
      temp, goLeft, fs := FindLeaf(node.key);
      InsertLeaf(fs, node, node.key);
      InsertAt(node, temp, goLeft, R, fs);
      w := InsertFix(fs, Leaf(node, node.key)).0;
    }

    method Insert(node: Node)
      requires Valid() && node !in Nodes(shape) && node != sentinel
      modifies this`root, this`turns, this`shape, node`left, node`right, node`parent, node`red
      modifies Nodes(shape)`left, Nodes(shape)`right, Nodes(shape)`parent, Nodes(shape)`red
      ensures Valid() && Nodes(shape) == old(Nodes(shape)) + {node}
      ensures Contents() == Place(old(Contents()), Elem(node, node.key)) && node.key == old(node.key)
      ensures turns <= old(turns) + 2
    {
      if root == sentinel {
        InsertFirst(node);
        shape := Bin(Nil, node, node.key, false, Nil);
      } else {
        shape := InsertBelow(node);
      }
    }

    // ------------------------------------------------------------ delete: rebalancing

    /** `temp`, which may be the sentinel, fills the hole and points up to the node above it. */
    ghost predicate Hook(fs: Path, t: Shape, temp: Node)
      reads this`root, temp
    {
      && temp == Ptr(t, sentinel) && temp.red == IsRed(t)
      && (temp == root <==> fs == [])
      && (fs != [] ==> temp.parent == Last(fs).node)
    }

    lemma HookUp(R: set<Node>, fs: Path, t: Shape, temp: Node)
      requires Linked(R, Plug(fs, t)) && fs != [] && temp == Ptr(t, sentinel) && !sentinel.red
      requires temp == sentinel ==> temp.parent == Last(fs).node
      ensures Hook(fs, t, temp)
    {
      At(R, fs, t);
    }

    /** What the fields say about the sibling and its children. */
    lemma Nephews(R: set<Node>, fs: Path, t: Shape)
      requires Linked(R, Plug(fs, t)) && fs != [] && Last(fs).other.Bin? && !sentinel.red
      ensures var f := Last(fs);
        && Holds(f.node, FrameCell(f, Ptr(t, sentinel), Above(Up(fs)), sentinel))
        && Holds(f.other.node, TopCell(f.other, f.node, sentinel))
        && Ptr(f.other.left, sentinel).red == IsRed(f.other.left)
        && Ptr(f.other.right, sentinel).red == IsRed(f.other.right)
        && (Ptr(t, sentinel) == f.node.left <==> f.onLeft)
    {
      var f := Last(fs);
      var k, w := Flip(f, t), f.other;
      At(R, fs, t);
      Sibling(R, fs, t);
      PlugDown(Up(fs), k, w);
      PlugDown(Up(fs) + [k], DownL(w), w.left);
      PlugDown(Up(fs) + [k], DownR(w), w.right);
      At(R, Up(fs) + [k] + [DownL(w)], w.left);
      At(R, Up(fs) + [k] + [DownR(w)], w.right);
    }

    method PaintOther(n: Node, red: bool, ghost R: set<Node>, ghost gs: Path, ghost f: Frame, ghost t: Shape)
      requires Linked(R, Plug(gs, Fill(f, t))) && f.other.Bin? && n == f.other.node
      modifies R`red
      ensures Linked(R, Plug(gs, Fill(f.(other := f.other.(red := red)), t)))
    {
      PlugDown(gs, Flip(f, t), f.other);
      Paint(n, red, R, gs + [Flip(f, t)], f.other);
      PlugDown(gs, Flip(f, t), f.other.(red := red));
    }

    method PaintChild(n: Node, red: bool, left: bool, ghost R: set<Node>, ghost gs: Path, ghost t: Shape)
      requires Linked(R, Plug(gs, t)) && t.Bin?
      requires if left then t.left.Bin? && n == t.left.node else t.right.Bin? && n == t.right.node
      modifies R`red
      ensures Linked(R, Plug(gs, if left then t.(left := t.left.(red := red)) else t.(right := t.right.(red := red))))
    {
      ghost var f, u := if left then DownL(t) else DownR(t), if left then t.left else t.right;
      PlugDown(gs, f, u);
      Paint(n, red, R, gs + [f], u);
      PlugDown(gs, f, u.(red := red));
    }

    /** A red sibling on the right is painted black, the parent red, and rotated over it. */
    method DeleteLiftLeft(p: Node, w: Node, ghost R: set<Node>, ghost fs: Path, ghost t: Shape)
      requires Linked(R, Plug(fs, t)) && fs != [] && Last(fs).other.Bin? && Last(fs).onLeft
      requires p == Last(fs).node && w == Last(fs).other.node
      modifies this`root, this`turns, R`left, R`right, R`parent, R`red
      ensures Linked(R, Plug(SiblingOver(fs), t))
      ensures turns == old(turns) + 1
    {
      ghost var gs, f := Up(fs), Last(fs);
      LastFrame(fs, t);
      PaintOther(w, false, R, gs, f, t);
      ghost var g := f.(other := f.other.(red := false));
      Paint(p, true, R, gs, Fill(g, t));
      LeftRotateAt(p, R, gs, Fill(g, t).(red := true));
      SiblingOverPlug(fs, t);
    }

    method DeleteClearLeft(temp: Node, ghost R: set<Node>, ghost fs: Path, ghost t: Shape)
      returns (w: Node)
      requires Linked(R, Plug(fs, t)) && Hook(fs, t, temp) && !sentinel.red && fs != [] && Last(fs).other.Bin? &&
        Last(fs).onLeft
      modifies this`root, this`turns, R`left, R`right, R`parent, R`red
      ensures Linked(R, Plug(Clear(fs), t)) && temp.parent == Last(fs).node
      ensures w == Ptr(Last(Clear(fs)).other, sentinel)
      ensures turns == old(turns) + if Last(fs).other.red then 1 else 0
    {
      Nephews(R, fs, t);
      w := temp.parent.right;
      if w.red {
        DeleteLiftLeft(temp.parent, w, R, fs, t);
        At(R, SiblingOver(fs), t);
        w := temp.parent.right;
      }
    }

    /** A red sibling on the left is painted black, the parent red, and rotated over it. */
    method DeleteLiftRight(p: Node, w: Node, ghost R: set<Node>, ghost fs: Path, ghost t: Shape)
      requires Linked(R, Plug(fs, t)) && fs != [] && Last(fs).other.Bin? && !Last(fs).onLeft
      requires p == Last(fs).node && w == Last(fs).other.node
      modifies this`root, this`turns, R`left, R`right, R`parent, R`red
      ensures Linked(R, Plug(SiblingOver(fs), t))
      ensures turns == old(turns) + 1
    {
      ghost var gs, f := Up(fs), Last(fs);
      LastFrame(fs, t);
      PaintOther(w, false, R, gs, f, t);
      ghost var g := f.(other := f.other.(red := false));
      Paint(p, true, R, gs, Fill(g, t));
      RightRotateAt(p, R, gs, Fill(g, t).(red := true));
      SiblingOverPlug(fs, t);
    }

    method DeleteClearRight(temp: Node, ghost R: set<Node>, ghost fs: Path, ghost t: Shape)
      returns (w: Node)
      requires Linked(R, Plug(fs, t)) && Hook(fs, t, temp) && !sentinel.red && fs != [] && Last(fs).other.Bin? &&
        !Last(fs).onLeft
      modifies this`root, this`turns, R`left, R`right, R`parent, R`red
      ensures Linked(R, Plug(Clear(fs), t)) && temp.parent == Last(fs).node
      ensures w == Ptr(Last(Clear(fs)).other, sentinel)
      ensures turns == old(turns) + if Last(fs).other.red then 1 else 0
    {
      Nephews(R, fs, t);
      w := temp.parent.left;
      if w.red {
        DeleteLiftRight(temp.parent, w, R, fs, t);
        At(R, SiblingOver(fs), t);
        w := temp.parent.left;
      }
    }

    /** The far nephew is made red if it is not, and the sibling goes up. */
    method DeleteBorrowLeft(temp: Node, w0: Node, ghost R: set<Node>, ghost fs: Path, ghost t: Shape)
      requires Linked(R, Plug(fs, t)) && Hook(fs, t, temp) && !sentinel.red && fs != [] && Last(fs).other.Bin? &&
        Last(fs).onLeft
      requires w0 == Last(fs).other.node && (IsRed(Near(Last(fs))) || IsRed(Far(Last(fs))))
      modifies this`root, this`turns, R`left, R`right, R`parent, R`red
      ensures Linked(R, Plug(Up(fs), Borrow(Ready(Last(fs)), t)))
      ensures turns == old(turns) + if IsRed(Far(Last(fs))) then 1 else 2
    {
      ghost var gs, f := Up(fs), Last(fs);
      LastFrame(fs, t);
      Nephews(R, fs, t);
      var w := w0;
      if !w.right.red {
        DeleteStraightenLeft(w, R, gs, f, t);
        f := Ready(f);
        PlugDown(gs, f, t);
        At(R, gs + [f], t);
        w := temp.parent.right;
      }
      DeleteRaiseLeft(temp.parent, w, R, gs, f, t);
    }

    method DeleteStraightenLeft(w: Node, ghost R: set<Node>, ghost gs: Path, ghost f: Frame, ghost t: Shape)
      requires Linked(R, Plug(gs, Fill(f, t))) && f.onLeft && f.other.Bin? && w == f.other.node && IsRed(Near(f)) &&
        !IsRed(Far(f))
      modifies this`root, this`turns, R`left, R`right, R`parent, R`red
      ensures Linked(R, Plug(gs, Fill(Ready(f), t)))
      ensures turns == old(turns) + 1
    {
      ghost var k, x := Flip(f, t), f.other;
      PlugDown(gs, k, x);
      At(R, gs + [k], x);
      PaintChild(w.left, false, true, R, gs + [k], x);
      x := x.(left := x.left.(red := false));
      Paint(w, true, R, gs + [k], x);
      x := x.(red := true);
      RightRotateAt(w, R, gs + [k], x);
      PlugDown(gs, k, RotateR(x));
    }

    method DeleteRaiseLeft(p: Node, w: Node, ghost R: set<Node>, ghost gs: Path, ghost f: Frame, ghost t: Shape)
      requires Linked(R, Plug(gs, Fill(f, t))) && f.onLeft && f.other.Bin? && w == f.other.node && p == f.node &&
        IsRed(Far(f))
      modifies this`root, this`turns, R`left, R`right, R`parent, R`red
      ensures Linked(R, Plug(gs, Borrow(f, t)))
      ensures turns == old(turns) + 1
    {
      At(R, gs, Fill(f, t));
      PaintOther(w, p.red, R, gs, f, t);
      ghost var g := f.(other := f.other.(red := f.red));
      Paint(p, false, R, gs, Fill(g, t));
      g := g.(red := false);
      ghost var k, x := Flip(g, t), g.other;
      PlugDown(gs, k, x);
      At(R, gs + [k], x);
      PaintChild(w.right, false, false, R, gs + [k], x);
      x := x.(right := x.right.(red := false));
      PlugDown(gs, k, x);
      LeftRotateAt(p, R, gs, Fill(k, x));
    }

    /** The far nephew is made red if it is not, and the sibling goes up. */
    method DeleteBorrowRight(temp: Node, w0: Node, ghost R: set<Node>, ghost fs: Path, ghost t: Shape)
      requires Linked(R, Plug(fs, t)) && Hook(fs, t, temp) && !sentinel.red && fs != [] && Last(fs).other.Bin? &&
        !Last(fs).onLeft
      requires w0 == Last(fs).other.node && (IsRed(Near(Last(fs))) || IsRed(Far(Last(fs))))
      modifies this`root, this`turns, R`left, R`right, R`parent, R`red
      ensures Linked(R, Plug(Up(fs), Borrow(Ready(Last(fs)), t)))
      ensures turns == old(turns) + if IsRed(Far(Last(fs))) then 1 else 2
    {
      ghost var gs, f := Up(fs), Last(fs);
      LastFrame(fs, t);
      Nephews(R, fs, t);
      var w := w0;
      if !w.left.red {
        DeleteStraightenRight(w, R, gs, f, t);
        f := Ready(f);
        PlugDown(gs, f, t);
        At(R, gs + [f], t);
        w := temp.parent.left;
      }
      DeleteRaiseRight(temp.parent, w, R, gs, f, t);
    }

    method DeleteStraightenRight(w: Node, ghost R: set<Node>, ghost gs: Path, ghost f: Frame, ghost t: Shape)
      requires Linked(R, Plug(gs, Fill(f, t))) && !f.onLeft && f.other.Bin? && w == f.other.node && IsRed(Near(f)) &&
        !IsRed(Far(f))
      modifies this`root, this`turns, R`left, R`right, R`parent, R`red
      ensures Linked(R, Plug(gs, Fill(Ready(f), t)))
      ensures turns == old(turns) + 1
    {
      ghost var k, x := Flip(f, t), f.other;
      PlugDown(gs, k, x);
      At(R, gs + [k], x);
      PaintChild(w.right, false, false, R, gs + [k], x);
      x := x.(right := x.right.(red := false));
      Paint(w, true, R, gs + [k], x);
      x := x.(red := true);
      LeftRotateAt(w, R, gs + [k], x);
      PlugDown(gs, k, RotateL(x));
    }

    method DeleteRaiseRight(p: Node, w: Node, ghost R: set<Node>, ghost gs: Path, ghost f: Frame, ghost t: Shape)
      requires Linked(R, Plug(gs, Fill(f, t))) && !f.onLeft && f.other.Bin? && w == f.other.node && p == f.node &&
        IsRed(Far(f))
      modifies this`root, this`turns, R`left, R`right, R`parent, R`red
      ensures Linked(R, Plug(gs, Borrow(f, t)))
      ensures turns == old(turns) + 1
    {
      At(R, gs, Fill(f, t));
      PaintOther(w, p.red, R, gs, f, t);
      ghost var g := f.(other := f.other.(red := f.red));
      Paint(p, false, R, gs, Fill(g, t));
      g := g.(red := false);
      ghost var k, x := Flip(g, t), g.other;
      PlugDown(gs, k, x);
      At(R, gs + [k], x);
      PaintChild(w.left, false, true, R, gs + [k], x);
      x := x.(left := x.left.(red := false));
      PlugDown(gs, k, x);
      RightRotateAt(p, R, gs, Fill(k, x));
    }


    method DeleteTurnLeft(temp0: Node, w: Node, ghost R: set<Node>, ghost gs: Path, ghost t: Shape)
      returns (temp: Node)
      requires Linked(R, Plug(gs, t)) && Hook(gs, t, temp0) && !sentinel.red
      requires gs != [] && Last(gs).other.Bin? && Last(gs).onLeft && w == Last(gs).other.node
      modifies this`root, this`turns, R`left, R`right, R`parent, R`red
      ensures var r := Turn(gs, t); Linked(R, Plug(r.0, r.1)) && temp == Ptr(r.1, sentinel)
      ensures turns == old(turns) + TurnRotations(Last(gs))
    {
      Nephews(R, gs, t);
      LastFrame(gs, t);
      if !w.left.red && !w.right.red {
        PaintOther(w, true, R, Up(gs), Last(gs), t);
        temp := temp0.parent;
      } else {
        DeleteBorrowLeft(temp0, w, R, gs, t);
        temp := root;
      }
    }

    /** One round when the short subtree is a left child. */
    method DeleteStepLeft(temp0: Node, ghost R: set<Node>, ghost fs: Path, ghost t: Shape)
      returns (temp: Node)
      requires Linked(R, Plug(fs, t)) && Hook(fs, t, temp0) && !sentinel.red && !IsRed(t)
      requires fs != [] && SiblingThere(fs) && Last(fs).onLeft
      modifies this`root, this`turns, R`left, R`right, R`parent, R`red
      ensures var r := RbDelete.DeleteStep(fs, t); Linked(R, Plug(r.0, r.1)) && temp == Ptr(r.1, sentinel)
      ensures turns == old(turns) + DeleteStepRotations(fs)
    {
      var w;
      w := DeleteClearLeft(temp0, R, fs, t);
      ghost var gs := Clear(fs);
      HookUp(R, gs, t, temp0);
      temp := DeleteTurnLeft(temp0, w, R, gs, t);
    }

    method DeleteTurnRight(temp0: Node, w: Node, ghost R: set<Node>, ghost gs: Path, ghost t: Shape)
      returns (temp: Node)
      requires Linked(R, Plug(gs, t)) && Hook(gs, t, temp0) && !sentinel.red
      requires gs != [] && Last(gs).other.Bin? && !Last(gs).onLeft && w == Last(gs).other.node
      modifies this`root, this`turns, R`left, R`right, R`parent, R`red
      ensures var r := Turn(gs, t); Linked(R, Plug(r.0, r.1)) && temp == Ptr(r.1, sentinel)
      ensures turns == old(turns) + TurnRotations(Last(gs))
    {
      Nephews(R, gs, t);
      LastFrame(gs, t);
      if !w.left.red && !w.right.red {
        PaintOther(w, true, R, Up(gs), Last(gs), t);
        temp := temp0.parent;
      } else {
        DeleteBorrowRight(temp0, w, R, gs, t);
        temp := root;
      }
    }

    /** One round when the short subtree is a right child. */
    method DeleteStepRight(temp0: Node, ghost R: set<Node>, ghost fs: Path, ghost t: Shape)
      returns (temp: Node)
      requires Linked(R, Plug(fs, t)) && Hook(fs, t, temp0) && !sentinel.red && !IsRed(t)
      requires fs != [] && SiblingThere(fs) && !Last(fs).onLeft
      modifies this`root, this`turns, R`left, R`right, R`parent, R`red
      ensures var r := RbDelete.DeleteStep(fs, t); Linked(R, Plug(r.0, r.1)) && temp == Ptr(r.1, sentinel)
      ensures turns == old(turns) + DeleteStepRotations(fs)
    {
      var w;
      w := DeleteClearRight(temp0, R, fs, t);
      ghost var gs := Clear(fs);
      HookUp(R, gs, t, temp0);
      temp := DeleteTurnRight(temp0, w, R, gs, t);
    }

    method DeleteStep(temp0: Node, ghost R: set<Node>, ghost fs: Path, ghost t: Shape)
      returns (temp: Node, ghost fs': Path, ghost t': Shape)
      requires Linked(R, Plug(fs, t)) && Hook(fs, t, temp0) && !sentinel.red && !IsRed(t)
      requires fs != [] && SiblingThere(fs)
      modifies this`root, this`turns, R`left, R`right, R`parent, R`red
      ensures (fs', t') == RbDelete.DeleteStep(fs, t)
      ensures Linked(R, Plug(fs', t')) && Hook(fs', t', temp)
      ensures turns == old(turns) + DeleteStepRotations(fs)
    {
      Nephews(R, fs, t);
      if temp0 == temp0.parent.left {
        temp := DeleteStepLeft(temp0, R, fs, t);
      } else {
        temp := DeleteStepRight(temp0, R, fs, t);
      }
      ghost var r := RbDelete.DeleteStep(fs, t);
      fs', t' := r.0, r.1;
      At(R, fs', t');
    }

    method BlackCell(n: Node, ghost m: map<Node, Cell>)
      requires Match(m)
      modifies n`red
      ensures Match(if n in m then m[n := m[n].(red := false)] else m) && !n.red
    {
      n.red := false;
    }

    /** Painting black whatever fills the hole, the sentinel included. */
    method Black(temp: Node, ghost R: set<Node>, ghost fs: Path, ghost t: Shape)
      requires Linked(R, Plug(fs, t)) && temp == Ptr(t, sentinel) && !sentinel.red
      modifies R`red, sentinel`red
      ensures Linked(R, Plug(fs, Blacken(t))) && !sentinel.red
    {
      if t.Bin? {
        CellsAt(fs, t, sentinel);
        RepaintImage(fs, t, false, sentinel);
      }
      RootOf(fs, t, sentinel);
      RootOf(fs, Blacken(t), sentinel);
      BlackCell(temp, Image(Plug(fs, t), null, sentinel));
    }

    /** One round: `w` stays where the rebalancing leads, with `n` rotations to go. */
    method DeleteRound(temp0: Node, ghost R: set<Node>, ghost fs: Path, ghost t: Shape, ghost w: Shape, ghost n: nat)
      returns (temp: Node, ghost fs': Path, ghost t': Shape, ghost n': nat)
      requires Linked(R, Plug(fs, t)) && Hook(fs, t, temp0) && !sentinel.red && DeleteLeads(fs, t, w, n)
      requires fs != [] && !IsRed(t)
      modifies this`root, this`turns, R`left, R`right, R`parent, R`red
      ensures Linked(R, Plug(fs', t')) && Hook(fs', t', temp) && DeleteLeads(fs', t', w, n')
      ensures turns + n' == old(turns) + n
      ensures |fs'| < |fs| || (|fs'| == |fs| && IsRed(t'))
    {
      DeleteLeadsSafe(fs, t, w, n);
      temp, fs', t' := DeleteStep(temp0, R, fs, t);
      DeleteLeadsOn(fs, t, w, n, fs', t', DeleteStepRotations(fs));
      n' := n - DeleteStepRotations(fs);
    }

    method DeleteFixup(temp0: Node, ghost R: set<Node>, ghost fs0: Path, ghost t0: Shape)
      requires Linked(R, Plug(fs0, t0)) && Hook(fs0, t0, temp0) && !sentinel.red && DeleteSafe(fs0, t0)
      modifies this`root, this`turns, R`left, R`right, R`parent, R`red, sentinel`red
      ensures Linked(R, DeleteFix(fs0, t0).0) && turns == old(turns) + DeleteFix(fs0, t0).1 && !sentinel.red
    {
      var temp := temp0;
      ghost var fs, t, w, n := fs0, t0, DeleteFix(fs0, t0).0, DeleteFix(fs0, t0).1;
      while temp != root && !temp.red
        invariant Linked(R, Plug(fs, t)) && Hook(fs, t, temp) && !sentinel.red
        invariant DeleteLeads(fs, t, w, n) && turns + n == old(turns) + DeleteFix(fs0, t0).1
        decreases |fs|, if IsRed(t) then 0 else 1
      {
        temp, fs, t, n := DeleteRound(temp, R, fs, t, w, n);
      }
      Black(temp, R, fs, t);
    }

    // ------------------------------------------------------------ delete: taking a node out

    method Unlink(node: Node, subst: Node, temp: Node, ghost R: set<Node>)
      requires subst in R && sentinel !in R
      requires subst.parent != null && subst.parent in R && subst.parent != subst
      requires subst.parent.left == subst || subst.parent.right == subst
      requires temp == sentinel || (temp in R && temp != subst && temp != subst.parent)
      modifies R`left, R`right, R`parent, sentinel`parent
      ensures forall n :: n in R ==>
        n.left == if n == old(subst.parent) && old(n.left) == subst then temp else old(n.left)
      ensures forall n :: n in R ==>
        n.right == if n == old(subst.parent) && old(n.left) != subst then temp else old(n.right)
      ensures forall n :: n in R && n != temp ==> n.parent == old(n.parent)
      ensures temp.parent == if subst != node && old(subst.parent) == node then subst else old(subst.parent)
    {
      if subst == subst.parent.left {
        subst.parent.left := temp;
      } else {
        subst.parent.right := temp;
      }
      if subst == node {
        temp.parent := subst.parent;
      } else {
        if subst.parent == node {
          temp.parent := subst;
        } else {
          temp.parent := subst.parent;
        }
      }
    }

    method UnlinkCells(node: Node, subst: Node, temp: Node, ghost m: map<Node, Cell>, ghost d: map<Node, Cell>,
      ghost p: Node, ghost q: Node)
      requires Match(m) && Unlinking(m, d, subst, temp, p, q, sentinel)
      requires q == if subst != node && p == node then subst else p
      modifies m.Keys`left, m.Keys`right, m.Keys`parent, sentinel`parent
      ensures Match((m - {subst}) + d) && temp.parent == q
    {
      assert Holds(subst, m[subst]) && Holds(p, m[p]);
      Unlink(node, subst, temp, m.Keys);
      ghost var m' := (m - {subst}) + d;
      forall n | n in m'
        ensures Holds(n, m'[n])
      {
        if n in d {
          assert m'[n] == d[n];
        } else {
          assert m'[n] == m[n];
        }
      }
    }

    method Transplant(node: Node, subst: Node, ghost R: set<Node>)
      requires node in R && subst !in R && sentinel !in R && subst != sentinel
      requires node.left != null && (node.left != sentinel ==> node.left in R && node.left != node)
      requires node.right != null && (node.right != sentinel ==> node.right in R && node.right != node)
      requires node != root ==>
        var p := node.parent;
        && p != null && p in R && p != node && p != node.left && p != node.right
        && (p.left == node || p.right == node)
      modifies this`root, R`left, R`right, R`parent, subst`left, subst`right, subst`parent, subst`red
      ensures root == if node == old(root) then subst else old(root)
      ensures subst.left == old(node.left) && subst.right == old(node.right) && subst.parent == old(node.parent) &&
        subst.red == old(node.red)
      ensures forall n :: n in R ==>
        n.left == if node != old(root) && n == old(node.parent) && old(n.left) == node then subst else old(n.left)
      ensures forall n :: n in R ==>
        n.right == if node != old(root) && n == old(node.parent) && old(n.left) != node then subst else old(n.right)
      ensures forall n :: n in R ==>
        n.parent == if n == old(node.left) || n == old(node.right) then subst else old(n.parent)
    {
      subst.left := node.left;
      subst.right := node.right;
      subst.parent := node.parent;
      subst.red := node.red;
      if node == root {
        root := subst;
      } else {
        if node == node.parent.left {
          node.parent.left := subst;
        } else {
          node.parent.right := subst;
        }
      }
      if subst.left != sentinel {
        subst.left.parent := subst;
      }
      if subst.right != sentinel {
        subst.right.parent := subst;
      }
    }

    method TransplantCells(node: Node, subst: Node, ghost m: map<Node, Cell>, ghost d: map<Node, Cell>, ghost l: Node,
      ghost r: Node, ghost p: Node?)
      requires Match(m) && Transplanting(m, d, node, subst, subst.key, l, r, p, sentinel) &&
        (node == root <==> p == null)
      modifies this`root, m.Keys`left, m.Keys`right, m.Keys`parent, subst`left, subst`right, subst`parent, subst`red
      ensures Match((m - {node}) + d)
      ensures root == if p == null then subst else old(root)
    {
      assert Holds(node, m[node]) && (p != null ==> Holds(p, m[p]));
      assert (l != sentinel ==> Holds(l, m[l])) && (r != sentinel ==> Holds(r, m[r]));
      Transplant(node, subst, m.Keys);
      ghost var m' := (m - {node}) + d;
      forall n | n in m'
        ensures Holds(n, m'[n])
      {
        if n in d {
          assert m'[n] == d[n];
        } else {
          assert m'[n] == m[n];
        }
      }
    }

    lemma UnlinkPlan(R: set<Node>, gs: Path, v: Shape, u: Shape, q: Node)
      requires Linked(R, Plug(gs, v)) && gs != [] && OnlyChild(v, u)
      ensures var m, d := Image(Plug(gs, v), null, sentinel), Rim(gs, Ptr(u, sentinel), sentinel) + Top(u, q, sentinel);
        && m.Keys == R && Unlinking(m, d, v.node, Ptr(u, sentinel), Last(gs).node, q, sentinel)
        && (m - {v.node}) + d == Image(Plug(gs, u), null, sentinel) + Top(u, q, sentinel)
      ensures Distinct(Plug(gs, u)) && Nodes(Plug(gs, u)) == R - {v.node} && root == Ptr(Plug(gs, u), sentinel)
    {
      UnlinkNodes(gs, v, u);
      UnlinkOver(gs, v, u, q, sentinel);
      UnlinkSpots(gs, v, u, q, sentinel);
      RootOf(gs, v, sentinel);
      RootOf(gs, u, sentinel);
    }

    method UnlinkAt(node: Node, subst: Node, temp: Node, ghost R: set<Node>, ghost gs: Path, ghost v: Shape,
      ghost u: Shape, ghost q: Node)
      requires Linked(R, Plug(gs, v)) && gs != [] && OnlyChild(v, u) && v.node == subst && temp == Ptr(u, sentinel)
      requires q == if subst != node && Last(gs).node == node then subst else Last(gs).node
      modifies R`left, R`right, R`parent, sentinel`parent
      ensures Match(Image(Plug(gs, u), null, sentinel) + Top(u, q, sentinel)) && temp.parent == q
      ensures Distinct(Plug(gs, u)) && Nodes(Plug(gs, u)) == R - {subst} && root == Ptr(Plug(gs, u), sentinel)
    {
      UnlinkPlan(R, gs, v, u, q);
      UnlinkCells(node, subst, temp, Image(Plug(gs, v), null, sentinel),
                  Rim(gs, Ptr(u, sentinel), sentinel) + Top(u, q, sentinel), Last(gs).node, q);
    }

    lemma TransplantTop(R: set<Node>, fs: Path, t: Shape, n: Node, k: Key)
      requires Distinct(Plug(fs, t)) && Nodes(Plug(fs, t)) == R && root == Ptr(Plug(fs, t), sentinel)
      requires t.Bin? && n !in R
      ensures var u := t.(node := n, key := k);
        && Distinct(Plug(fs, u)) && Nodes(Plug(fs, u)) == R - {t.node} + {n}
        && Ptr(Plug(fs, u), sentinel) == (if Above(fs) == null then n else root)
      ensures t.node == root <==> Above(fs) == null
    {
      RenameNodes(fs, t, n, k);
      RootOf(fs, t, sentinel);
      RootOf(fs, t.(node := n, key := k), sentinel);
      Split(fs, t);
    }

    lemma TransplantPlan(R: set<Node>, fs: Path, t: Shape, n: Node, k: Key, x: map<Node, Cell>)
      requires Distinct(Plug(fs, t)) && Nodes(Plug(fs, t)) == R && sentinel !in R
      requires t.Bin? && n !in R && n != sentinel && (x == map[] || x == Top(t.right, n, sentinel))
      ensures var m, d := Image(Plug(fs, t), null, sentinel) + x, TransplantDelta(fs, t, n, k, sentinel);
        && m.Keys == R
        && Transplanting(m, d, t.node, n, k, Ptr(t.left, sentinel), Ptr(t.right, sentinel), Above(fs), sentinel)
        && (m - {t.node}) + d == Image(Plug(fs, t.(node := n, key := k)), null, sentinel)
    {
      TransplantSpots(fs, t, n, k, x, sentinel);
      TransplantOver(fs, t, n, k, x, sentinel);
      Split(fs, t);
    }

    method TransplantAt(node: Node, subst: Node, ghost R: set<Node>, ghost fs: Path, ghost t: Shape,
      ghost x: map<Node, Cell>, ghost R': set<Node>, ghost w: Shape)
      requires R' == R - {node} + {subst} && t.Bin? && w == Plug(fs, t.(node := subst, key := subst.key))
      requires Distinct(Plug(fs, t)) && Nodes(Plug(fs, t)) == R && root == Ptr(Plug(fs, t), sentinel) && sentinel !in R
      requires t.Bin? && t.node == node && subst !in R && subst != sentinel &&
        (x == map[] || x == Top(t.right, subst, sentinel))
      requires Match(Image(Plug(fs, t), null, sentinel) + x)
      modifies this`root, R`left, R`right, R`parent, subst`left, subst`right, subst`parent, subst`red
      ensures Linked(R', w)
    {
      TransplantTop(R, fs, t, subst, subst.key);
      TransplantPlan(R, fs, t, subst, subst.key, x);
      TransplantCells(node, subst, Image(Plug(fs, t), null, sentinel) +
        x, TransplantDelta(fs, t, subst, subst.key, sentinel),
                      Ptr(t.left, sentinel), Ptr(t.right, sentinel), Above(fs));
    }

    // ------------------------------------------------------------ leftmost and rightmost

    /** The leftmost node below `node0`, and the way down to it. */
    method NodeMin(node0: Node, ghost R: set<Node>, ghost fs: Path, ghost t: Shape)
      returns (node: Node, ghost d: Path, ghost v: Shape)
      requires Linked(R, Plug(fs, t)) && t.Bin? && t.node == node0
      ensures Plug(d, v) == t && AllLeft(d) && v.Bin? && v.left.Nil? && v.node == node
    {
      node, d, v := node0, [], t;
      assert fs + d == fs;
      At(R, fs, t);
      while node.left != sentinel
        invariant Linked(R, Plug(fs + d, v)) && Plug(d, v) == t && AllLeft(d)
        invariant v.Bin? && v.node == node && node in R && node.left == Ptr(v.left, sentinel)
        decreases v
      {
        node := node.left;
        PlugDown(d, DownL(v), v.left);
        PlugDown(fs + d, DownL(v), v.left);
        assert fs + (d + [DownL(v)]) == fs + d + [DownL(v)];
        d, v := d + [DownL(v)], v.left;
        At(R, fs + d, v);
      }
      LeftEnd(R, fs + d, v);
    }

    /** A left link to the sentinel means no left subtree. */
    lemma LeftEnd(R: set<Node>, fs: Path, v: Shape)
      requires Linked(R, Plug(fs, v)) && v.Bin?
      ensures Ptr(v.left, sentinel) == sentinel <==> v.left.Nil?
      ensures Ptr(v.right, sentinel) == sentinel <==> v.right.Nil?
    {
      Split(fs, v);
    }

    // ------------------------------------------------------------ delete

    /** The node to unlink and the child that goes in its place. */
    method FindSubst(node: Node, ghost R: set<Node>, ghost fs: Path, ghost t: Shape)
      returns (subst: Node, temp: Node, ghost d: Path, ghost gs: Path, ghost v: Shape, ghost u: Shape)
      requires Linked(R, Plug(fs, t)) && t.Bin? && t.node == node
      ensures Substitute(fs, t, d, gs, v, u) && v.node == subst && temp == Ptr(u, sentinel)
      ensures subst == node ==> gs == fs
    {
      At(R, fs, t);
      LeftEnd(R, fs, t);
      d, gs, v := [], fs, t;
      if node.left == sentinel {
        temp := node.right;
        subst := node;
        u := t.right;
      } else if node.right == sentinel {
        temp := node.left;
        subst := node;
        u := t.left;
      } else {
        PlugDown(fs, DownR(t), t.right);
        subst, d, v := NodeMin(node.right, R, fs + [DownR(t)], t.right);
        PlugConcat(fs + [DownR(t)], d, v);
        gs, u := fs + [DownR(t)] + d, v.right;
        At(R, gs, v);
        Split(fs, t);
        Split(d, v);
        temp := subst.right;
      }
    }

    /** Taking out a node that has at most one child. */
    method SpliceOuter(node: Node, temp: Node, ghost R: set<Node>, ghost fs: Path, ghost t: Shape, ghost u: Shape)
      requires Linked(R, Plug(fs, t)) && OnlyChild(t, u) && fs != [] && t.node == node && temp == Ptr(u, sentinel) &&
        !sentinel.red
      modifies R`left, R`right, R`parent, sentinel`parent
      ensures Linked(R - {node}, Plug(fs, u)) && Hook(fs, u, temp)
    {
      UnlinkAt(node, node, temp, R, fs, t, u, Last(fs).node);
      TopAgain(fs, u, sentinel);
      HookUp(R - {node}, fs, u, temp);
    }

    /** The successor is unlinked; its own right child, if that is what its place falls to,
        already points to it. */
    method UnlinkInner(node: Node, subst: Node, temp: Node, ghost R: set<Node>, ghost fs: Path, ghost t: Shape,
      ghost d: Path, ghost gs: Path, ghost v: Shape, ghost u: Shape)
      requires Linked(R, Plug(fs, t)) && Substitute(fs, t, d, gs, v, u) && t.node == node &&
        v.node == subst != node && temp == Ptr(u, sentinel)
      modifies R`left, R`right, R`parent, sentinel`parent
      ensures var w := Fill(DownR(t), Plug(d, u));
        && Distinct(Plug(fs, w)) && Nodes(Plug(fs, w)) == R - {subst} && root == Ptr(Plug(fs, w), sentinel)
        && Match(Image(Plug(fs, w), null, sentinel) + if d == [] then Top(u, subst, sentinel) else map[])
      ensures temp.parent == Last(Spliced(fs, t, d, v)).node
    {
      SplicePlan(fs, t, d, gs, v, u, sentinel);
      UnlinkAt(node, subst, temp, R, gs, v, u, if Last(gs).node == node then subst else Last(gs).node);
      assert d != [] ==> Image(Plug(gs, u), null, sentinel) + map[] == Image(Plug(gs, u), null, sentinel);
    }

    /** Taking out a node with two children: its successor is unlinked and put in its place. */
    method SpliceInner(node: Node, subst: Node, temp: Node, ghost R: set<Node>, ghost fs: Path, ghost t: Shape,
      ghost d: Path, ghost gs: Path, ghost v: Shape, ghost u: Shape, ghost hs: Path)
      requires Linked(R, Plug(fs, t)) && Substitute(fs, t, d, gs, v, u) && t.node == node &&
        v.node == subst != node && temp == Ptr(u, sentinel)
      requires !sentinel.red && hs == Spliced(fs, t, d, v)
      modifies this`root, R`left, R`right, R`parent, R`red, sentinel`parent
      ensures Linked(R - {node}, Plug(hs, u))
      ensures temp == sentinel ==> temp.parent == Last(hs).node
    {
      SuccessorKey(R, fs, t, d, gs, v, u);
      SplicePlan(fs, t, d, gs, v, u, sentinel);
      UnlinkInner(node, subst, temp, R, fs, t, d, gs, v, u);
      TransplantAt(node, subst, R - {subst}, fs, Fill(DownR(t), Plug(d, u)), if d ==
        [] then Top(u, subst, sentinel) else map[],
                   R - {node}, Plug(hs, u));
    }

    lemma SuccessorKey(R: set<Node>, fs: Path, t: Shape, d: Path, gs: Path, v: Shape, u: Shape)
      requires Linked(R, Plug(fs, t)) && Substitute(fs, t, d, gs, v, u)
      ensures v.node in R && v.node.key == v.key && v.node != sentinel && t.node in R
    {
      At(R, gs, v);
      At(R, fs, t);
    }

    /** Clearing a node that is in no link of the tree. */
    method Discard(node: Node, ghost R: set<Node>, ghost w: Shape)
      requires Linked(R, w) && node !in R
      modifies node`left, node`right, node`parent, node`key
      ensures Linked(R, w)
      ensures node.left == null && node.right == null && node.parent == null && node.key == 0
    {
      node.Reset();
    }

    /** The node leaves the tree; what is left has `u` in the hole of `hs`. */
    method Splice(node: Node, subst: Node, temp: Node, ghost R: set<Node>, ghost fs: Path, ghost t: Shape,
      ghost d: Path, ghost gs: Path, ghost v: Shape, ghost u: Shape, ghost hs: Path)
      requires Linked(R, Plug(fs, t)) && Substitute(fs, t, d, gs, v, u) && t.node == node && v.node == subst &&
        temp == Ptr(u, sentinel)
      requires !sentinel.red && gs != [] && hs == PathAfter(fs, t, d, gs, v) && node in R
      modifies this`root, R`left, R`right, R`parent, R`red, sentinel`parent, node`left, node`right, node`parent,
        node`key
      ensures Linked(R - {node}, Plug(hs, u)) && Hook(hs, u, temp)
      ensures node.left == null && node.right == null && node.parent == null && node.key == 0
    {
      if subst == node {
        SpliceOuter(node, temp, R, fs, t, u);
      } else {
        SpliceInner(node, subst, temp, R, fs, t, d, gs, v, u, hs);
        HookUp(R - {node}, hs, u, temp);
      }
      Discard(node, R - {node}, Plug(hs, u));
      HookUp(R - {node}, hs, u, temp);
    }

    lemma RootOut(R: set<Node>, v: Shape, u: Shape)
      requires Linked(R, v) && OnlyChild(v, u)
      ensures Match(Image(u, null, sentinel)) && Nodes(u) == R - {v.node} && Distinct(u)
    {
      OnlyChildNodes(v, u);
      OnlyChildImage(v, u, null, sentinel);
      Rehang(u, v.node, null, sentinel);
      var m, m' := Image(v, null, sentinel), Image(u, null, sentinel);
      forall n | n in m'
        ensures Holds(n, m'[n])
      {
        assert n in m && Holds(n, m[n]);
      }
    }

    /** The root has at most one child, which becomes the root; its parent link is left as it was. */
    method DeleteRoot(node: Node, temp: Node, ghost R: set<Node>, ghost v: Shape, ghost u: Shape)
      requires Linked(R, v) && OnlyChild(v, u) && v.node == node && temp == Ptr(u, sentinel) && !sentinel.red &&
        node in R
      modifies this`root, R`red, sentinel`red, node`left, node`right, node`parent, node`key
      ensures Linked(R - {node}, Blacken(u)) && !sentinel.red
      ensures node.left == null && node.right == null && node.parent == null && node.key == 0
    {
      RootOut(R, v, u);
      root := temp;
      Black(temp, R - {node}, [], u);
      Discard(node, R - {node}, Blacken(u));
    }

    method DeleteBelow(node: Node, subst: Node, temp: Node, ghost R: set<Node>, ghost fs: Path, ghost t: Shape,
      ghost d: Path, ghost gs: Path, ghost v: Shape, ghost u: Shape, ghost hs: Path)
      requires Linked(R, Plug(fs, t)) && Substitute(fs, t, d, gs, v, u) && t.node == node && v.node == subst &&
        temp == Ptr(u, sentinel)
      requires !sentinel.red && gs != [] && hs == PathAfter(fs, t, d, gs, v) && node in R && subst.red == v.red
      requires !v.red ==> DeleteSafe(hs, u)
      modifies this`root, this`turns, R`left, R`right, R`parent, R`red, sentinel`parent, sentinel`red, node`left,
        node`right,
        node`parent, node`key
      ensures Linked(R - {node}, DeleteResult(hs, u, v.red).0) && turns == old(turns) + DeleteResult(hs, u, v.red).1 &&
        !sentinel.red
      ensures node.left == null && node.right == null && node.parent == null && node.key == 0
    {
      var red := subst.red;
      Splice(node, subst, temp, R, fs, t, d, gs, v, u, hs);
      if red {
        return;
      }
      DeleteFixup(temp, R - {node}, hs, u);
    }

    lemma SubstSeen(R: set<Node>, gs: Path, v: Shape)
      requires Linked(R, Plug(gs, v)) && v.Bin?
      ensures v.node.red == v.red && (v.node == root <==> gs == [])
    {
      At(R, gs, v);
    }

    method DeleteAt(node: Node, ghost R: set<Node>, ghost fs: Path, ghost t: Shape)
      returns (ghost w: Shape)
      requires Linked(R, Plug(fs, t)) && t.Bin? && t.node == node && !sentinel.red && node in R
      requires RedBlack(Plug(fs, t)) && Sorted(InOrder(Plug(fs, t)))
      modifies this`root, this`turns, R`left, R`right, R`parent, R`red, sentinel`parent, sentinel`red, node`left,
        node`right,
        node`parent, node`key
      ensures Linked(R - {node}, w) && RedBlack(w) && InOrder(w) == Remove(InOrder(Plug(fs, t)), node) &&
        Sorted(InOrder(w))
      ensures turns <= old(turns) + 3 && !sentinel.red
      ensures node.left == null && node.right == null && node.parent == null && node.key == 0
    {
      var subst, temp;
      ghost var d, gs, v, u;
      subst, temp, d, gs, v, u := FindSubst(node, R, fs, t);
      SubstSeen(R, gs, v);
      if subst == root {
        RootOutOutcome(v, u);
        DeleteRoot(node, temp, R, v, u);
        w := Blacken(u);
      } else {
        DeleteOutcome(fs, t, d, gs, v, u);
        ghost var hs := PathAfter(fs, t, d, gs, v);
        w := DeleteResult(hs, u, v.red).0;
        DeleteBelow(node, subst, temp, R, fs, t, d, gs, v, u, hs);
      }
    }

    method Delete(node: Node)
      requires Valid() && node in Nodes(shape)
      modifies this`root, this`turns, this`shape, node`key, sentinel`parent, sentinel`red
      modifies Nodes(shape)`left, Nodes(shape)`right, Nodes(shape)`parent, Nodes(shape)`red
      ensures Valid() && Nodes(shape) == old(Nodes(shape)) - {node}
      ensures Contents() == Remove(old(Contents()), node)
      ensures node.left == null && node.right == null && node.parent == null && node.key == 0
      ensures turns <= old(turns) + 3
    {
      ghost var fs, t := Locate([], shape, node);
      ghost var R := Nodes(shape);
      assert Linked(R, shape);
      shape := DeleteAt(node, R, fs, t);
    }

    // ------------------------------------------------------------ reading the tree

    method NodeMax(node0: Node, ghost R: set<Node>)
      returns (node: Node, ghost d: Path, ghost v: Shape)
      requires Linked(R, shape) && shape.Bin? && shape.node == node0
      ensures Plug(d, v) == shape && AllRight(d) && v.Bin? && v.right.Nil? && v.node == node
    {
      node, d, v := node0, [], shape;
      At(R, d, v);
      while node.right != sentinel
        invariant Plug(d, v) == shape && AllRight(d)
        invariant v.Bin? && v.node == node && node.right == Ptr(v.right, sentinel)
        decreases v
      {
        node := node.right;
        PlugDown(d, DownR(v), v.right);
        d, v := d + [DownR(v)], v.right;
        At(R, d, v);
      }
      LeftEnd(R, d, v);
    }

    method Min() returns (node: Node?)
      requires Valid()
      ensures node == null <==> Contents() == []
      ensures node != null ==> Contents()[0] == Elem(node, node.key)
    {
      if root == sentinel {
        return null;
      }
      ghost var d, v;
      assert Linked(Nodes(shape), Plug([], shape));
      node, d, v := NodeMin(root, Nodes(shape), [], shape);
      At(Nodes(shape), d, v);
      NothingBefore(d);
      InOrderPlug(d, v);
    }

    method Max() returns (node: Node?)
      requires Valid()
      ensures node == null <==> Contents() == []
      ensures node != null ==> Contents()[|Contents()| - 1] == Elem(node, node.key)
    {
      if root == sentinel {
        return null;
      }
      ghost var d, v;
      assert Linked(Nodes(shape), shape);
      node, d, v := NodeMax(root, Nodes(shape));
      At(Nodes(shape), d, v);
      NothingAfter(d);
      InOrderPlug(d, v);
    }

    /** What one step of the search sees. */
    lemma LookAt(R: set<Node>, fs: Path, t: Shape, key: Key)
      requires Linked(R, Plug(fs, t)) && t.Bin? && Sorted(InOrder(Plug(fs, t))) && Narrowed(fs, key)
      ensures t.node.key == t.key && t.node.left == Ptr(t.left, sentinel) && t.node.right == Ptr(t.right, sentinel)
      ensures Plug(fs + [DownL(t)], t.left) == Plug(fs + [DownR(t)], t.right) == Plug(fs, t)
      ensures key < t.key ==> Narrowed(fs + [DownL(t)], key)
      ensures t.key < key ==> Narrowed(fs + [DownR(t)], key)
      ensures Elem(t.node, t.key) in InOrder(Plug(fs, t))
    {
      At(R, fs, t);
      NarrowDown(fs, t, key);
      PlugDown(fs, DownL(t), t.left);
      PlugDown(fs, DownR(t), t.right);
      InOrderPlug(fs, t);
    }

    /** A search that ends at the sentinel has left nothing out. */
    lemma LookedEverywhere(R: set<Node>, fs: Path, t: Shape, key: Key)
      requires Linked(R, Plug(fs, t)) && Ptr(t, sentinel) == sentinel && Narrowed(fs, key)
      ensures forall e :: e in InOrder(Plug(fs, t)) ==> e.key != key
    {
      Split(fs, t);
      InOrderPlug(fs, t);
    }

    /** So many steps down are few: at most twice the logarithm of the number of nodes plus one. */
    lemma StepsBound(steps: nat)
      requires Valid() && steps <= Height(shape)
      ensures Pow2(steps) <= (|Contents()| + 1) * (|Contents()| + 1)
    {
      HeightBound(shape);
      Pow2Mono(steps, Height(shape));
    }

    /** The search by key, with the number of nodes it looks at. */
    method Lookup(key: Key) returns (found: Node?, ghost steps: nat)
      requires Valid()
      ensures found != null ==> Elem(found, key) in Contents()
      ensures found == null ==> forall e :: e in Contents() ==> e.key != key
      ensures steps <= Height(shape) && Pow2(steps) <= (|Contents()| + 1) * (|Contents()| + 1)
    {
      var node := root;
      ghost var R, fs, t := Nodes(shape), [], shape;
      steps := 0;
      while node != sentinel
        invariant Linked(R, Plug(fs, t)) && Plug(fs, t) == shape && node == Ptr(t, sentinel)
        invariant Narrowed(fs, key)
        invariant steps + Height(t) <= Height(shape)
        decreases t
      {
        LookAt(R, fs, t, key);
        steps := steps + 1;
        if key < node.key {
          node := node.left;
          fs, t := fs + [DownL(t)], t.left;
          continue;
        }
        if key > node.key {
          node := node.right;
          fs, t := fs + [DownR(t)], t.right;
          continue;
        }
        StepsBound(steps);
        return node, steps;
      }
      LookedEverywhere(R, fs, t, key);
      StepsBound(steps);
      return null, steps;
    }

    /** An element of the contents is a node with its key. */
    lemma ElemKey(n: Node, k: Key)
      requires Valid() && Elem(n, k) in Contents()
      ensures n in Nodes(shape) && n.key == k
    {
      ElemCell(shape, null, n, k, sentinel);
      var m := Image(shape, null, sentinel);
      assert Holds(n, m[n]);
    }

    lemma NotAnElem(n: Node)
      requires Valid() && n !in Nodes(shape)
      ensures forall k: Key :: Elem(n, k) !in Contents()
    {
      NodesAreContents(shape, n);
    }
  }
}
