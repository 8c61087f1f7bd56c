/** How high a red-black tree can be, and what a search by key narrows down. */
module RbSearch {
  import opened RbShape
  import opened RbImage
  import opened RbInsert
  import opened RbDelete

  // ---------------------------------------------------------------- height

  ghost function Height(t: Shape): nat {
    match t
    case Nil => 0
    case Bin(l, _, _, _, r) => 1 + if Height(l) < Height(r) then Height(r) else Height(l)
  }

  function Pow2(n: nat): nat {
    if n == 0 then 1 else 2 * Pow2(n - 1)
  }

  lemma {:induction false} Pow2Mono(a: nat, b: nat)
    requires a <= b
    ensures Pow2(a) <= Pow2(b)
    decreases b - a
  {
    if a == b {
    } else {
      Pow2Mono(a, b - 1);
    }
  }

  lemma {:induction false} Pow2Double(n: nat)
    ensures Pow2(2 * n) == Pow2(n) * Pow2(n)
  {
    if n == 0 {
    } else {
      Pow2Double(n - 1);
      var p := Pow2(n - 1);
      assert Pow2(2 * n) == 2 * Pow2(2 * n - 1) == 4 * Pow2(2 * (n - 1));
      assert (2 * p) * (2 * p) == 4 * (p * p);
    }
  }

  /** Black height against size and height. */
  lemma {:induction false} BlackHeightBounds(t: Shape, h: nat)
    requires RB(t, h)
    ensures Pow2(h) <= |InOrder(t)| + 1
    ensures Height(t) <= 2 * h + if IsRed(t) then 1 else 0
  {
    if t.Nil? {
    } else {
      var k := if t.red then h else h - 1;
      BlackHeightBounds(t.left, k);
      BlackHeightBounds(t.right, k);
      assert Pow2(h) <= 2 * Pow2(k);
    }
  }

  /** A red-black tree of n nodes is at most 2 log2(n + 1) high. */
  lemma HeightBound(t: Shape)
    requires RedBlack(t)
    ensures Pow2(Height(t)) <= (|InOrder(t)| + 1) * (|InOrder(t)| + 1)
  {
    var h, n := BlackHeight(t), |InOrder(t)| + 1;
    BlackHeightBounds(t, h);
    Pow2Mono(Height(t), 2 * h);
    Pow2Double(h);
    SquareMono(Pow2(h), n);
  }

  lemma SquareMono(a: nat, b: nat)
    requires a <= b
    ensures a * a <= b * b
  {
    assert a * a <= a * b <= b * b;
  }

  // ---------------------------------------------------------------- search

  lemma {:induction false} NothingAfter(d: Path)
    requires AllRight(d)
    ensures After(d) == []
    decreases |d|
  {
    if d == [] {
    } else {
      NothingAfter(Up(d));
    }
  }

  ghost predicate AllRight(d: Path) {
    forall i :: 0 <= i < |d| ==> !d[i].onLeft
  }

  /** Whatever of a sorted tree has the key `k` is in the subtree the search is at. */
  ghost predicate Narrowed(fs: Path, k: Key) {
    && (forall e :: e in Before(fs) ==> e.key < k)
    && (forall e :: e in After(fs) ==> k < e.key)
  }

  lemma NarrowDown(fs: Path, t: Shape, k: Key)
    requires t.Bin? && Sorted(InOrder(Plug(fs, t))) && Narrowed(fs, k)
    ensures k < t.key ==> Narrowed(fs + [DownL(t)], k)
    ensures t.key < k ==> Narrowed(fs + [DownR(t)], k)
  {
    PlugDown(fs, DownL(t), t.left);
    PlugDown(fs, DownR(t), t.right);
    SortedAround(fs, t);
  }

  lemma PlaceMembers(s: seq<Elem>, x: Elem)
    ensures |Place(s, x)| == |s| + 1
    ensures forall e :: e in Place(s, x) <==> e in s || e == x
  {
    assert s == s[..Rank(s, x.key)] + s[Rank(s, x.key)..];
  }

  lemma {:induction false} RemoveMembers(s: seq<Elem>, n: Node)
    ensures forall e :: e in Remove(s, n) ==> e in s
    ensures forall e :: e in s && e.node != n ==> e in Remove(s, n)
    ensures (exists k: Key :: Elem(n, k) in s) ==> |Remove(s, n)| == |s| - 1
  {
    if s == [] {
    } else {
      if s[0].node == n {
        assert s == [s[0]] + s[1..];
      } else {
        RemoveMembers(s[1..], n);
        assert s == [s[0]] + s[1..];
        if k: Key :| Elem(n, k) in s {
          assert Elem(n, k) in s[1..];
        }
      }
    }
  }

  lemma {:induction false} ElemCell(t: Shape, p: Node?, n: Node, k: Key, s: Node)
    requires Distinct(t) && Elem(n, k) in InOrder(t)
    ensures n in Nodes(t) && Image(t, p, s)[n].key == k
  {
    if Elem(n, k) in InOrder(t.left) {
      ElemCell(t.left, t.node, n, k, s);
    } else if Elem(n, k) in InOrder(t.right) {
      ElemCell(t.right, t.node, n, k, s);
    }
  }
}
