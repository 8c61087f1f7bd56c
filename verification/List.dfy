/** Circular doubly linked lists with the links embedded in the entries.  A list is its head
    and the sequence of entries after it; head and entries are nodes alike. */
module List {

  class ListHead {
    var next: ListHead?
    var prev: ListHead?

    constructor ()
      ensures next == null && prev == null
    {
      next, prev := null, null;
    }
  }

  /** The node at position `i` of the ring, counted from the head, which is also at the end. */
  function At(head: ListHead, s: seq<ListHead>, i: nat): ListHead {
    if 0 < i <= |s| then s[i - 1] else head
  }

  ghost predicate Distinct(head: ListHead, s: seq<ListHead>) {
    && head !in s
    && forall i, j :: 0 <= i < j < |s| ==> s[i] != s[j]
  }

  ghost predicate Linked(head: ListHead, s: seq<ListHead>, i: nat)
    reads head`next, head`prev, s`next, s`prev
  {
    At(head, s, i).next == At(head, s, i + 1) && At(head, s, i + 1).prev == At(head, s, i)
  }

  /** Going by `next` from the head meets the entries of `s` in order and ends at the head,
      and `prev` is the inverse of `next`. */
  ghost predicate Ring(head: ListHead, s: seq<ListHead>)
    reads head`next, head`prev, s`next, s`prev
  {
    Distinct(head, s) && forall i: nat :: i <= |s| ==> Linked(head, s, i)
  }

  method InitList(head: ListHead)
    modifies head
    ensures Ring(head, [])
  {
    head.next := head;
    head.prev := head;
  }

  /** Links a new entry between two consecutive nodes, which are one and the same in an empty list. */
  method Link(entry: ListHead, prev: ListHead, next: ListHead)
    requires entry != prev && entry != next
    modifies next`prev, entry, prev`next
    ensures next.prev == entry && entry.next == next && entry.prev == prev && prev.next == entry
  {
    next.prev := entry;
    entry.next := next;
    entry.prev := prev;
    prev.next := entry;
  }

  method Add(entry: ListHead, head: ListHead, ghost s: seq<ListHead>)
    requires Ring(head, s) && entry != head && entry !in s
    modifies entry, head, s
    ensures Ring(head, [entry] + s)
  {
    assert Linked(head, s, 0);
    Link(entry, head, head.next);
    ghost var r := [entry] + s;
    forall i: nat | i <= |r|
      ensures Linked(head, r, i)
    {
      if i >= 2 {
        assert old(Linked(head, s, i - 1));
      }
    }
  }

  method AddTail(entry: ListHead, head: ListHead, ghost s: seq<ListHead>)
    requires Ring(head, s) && entry != head && entry !in s
    modifies entry, head, s
    ensures Ring(head, s + [entry])
  {
    assert Linked(head, s, |s|);
    Link(entry, head.prev, head);
    ghost var r := s + [entry];
    forall i: nat | i <= |r|
      ensures Linked(head, r, i)
    {
      if i < |s| {
        assert old(Linked(head, s, i));
      }
    }
  }

  method Unlink(prev: ListHead, next: ListHead)
    modifies next`prev, prev`next
    ensures next.prev == prev && prev.next == next
  {
    next.prev := prev;
    prev.next := next;
  }

  function Without(s: seq<ListHead>, k: nat): seq<ListHead>
    requires k < |s|
  {
    s[..k] + s[k + 1..]
  }

  /** The entry leaves the ring; its own links stay as they were. */
  method Del(entry: ListHead, ghost head: ListHead, ghost s: seq<ListHead>, ghost k: nat)
    requires Ring(head, s) && k < |s| && s[k] == entry
    modifies head, s
    ensures Ring(head, Without(s, k))
    ensures entry.next == old(entry.next) && entry.prev == old(entry.prev)
  {
    assert Linked(head, s, k) && Linked(head, s, k + 1);
    assert k > 0 ==> s[k - 1] != entry;
    assert k + 1 < |s| ==> s[k + 1] != entry;
    Unlink(entry.prev, entry.next);
    ghost var r := Without(s, k);
    forall i: nat | i <= |r|
      ensures Linked(head, r, i)
    {
      if i < k {
        assert old(Linked(head, s, i));
      } else if i > k {
        assert old(Linked(head, s, i + 1));
      }
    }
  }

  /** As above, and the entry becomes an empty list of its own. */
  method DelInit(entry: ListHead, ghost head: ListHead, ghost s: seq<ListHead>, ghost k: nat)
    requires Ring(head, s) && k < |s| && s[k] == entry
    modifies head, s
    ensures Ring(head, Without(s, k)) && Ring(entry, [])
  {
    Del(entry, head, s, k);
    assert entry !in Without(s, k);
    assert Ring(head, Without(s, k));
    InitList(entry);
  }

  method Empty(head: ListHead, ghost s: seq<ListHead>) returns (empty: bool)
    requires Ring(head, s)
    ensures empty <==> s == []
  {
    assert Linked(head, s, 0);
    empty := head.next == head;
  }

  /** All of `list`'s entries go in front of those of `head`; `list` itself is left as it was
      and, unless it was empty, is no longer a list. */
  method Splice(list: ListHead, head: ListHead, ghost a: seq<ListHead>, ghost b: seq<ListHead>)
    requires Ring(list, a) && Ring(head, b) && list != head && list !in b && head !in a
    requires forall i, j :: 0 <= i < |a| && 0 <= j < |b| ==> a[i] != b[j]
    modifies head, a, b
    ensures Ring(head, a + b)
    ensures list.next == old(list.next) && list.prev == old(list.prev)
  {
    assert Linked(list, a, 0) && Linked(list, a, |a|) && Linked(head, b, 0);
    var first := list.next;
    if first != list {
      var last := list.prev;
      var at := head.next;

      first.prev := head;
      head.next := first;

      last.next := at;
      at.prev := last;

      ghost var r := a + b;
      forall i: nat | i <= |r|
        ensures Linked(head, r, i)
      {
        if 0 < i < |a| {
          assert old(Linked(list, a, i));
        } else if i > |a| {
          assert old(Linked(head, b, i - |a|));
        }
      }
    } else {
      assert a == [] by {
        assert At(list, a, 1) == list;
      }
      assert a + b == b;
    }
  }

  /** The iteration is at an entry until it is back at the head. */
  lemma AtEntry(head: ListHead, s: seq<ListHead>, i: nat)
    requires Distinct(head, s) && i <= |s|
    ensures At(head, s, i + 1) == head <==> i == |s|
    ensures i < |s| ==> At(head, s, i + 1) == s[i]
  {
  }

  /** The iteration macro: every entry once, in order. */
  method ForEach(head: ListHead, ghost s: seq<ListHead>) returns (visited: seq<ListHead>)
    requires Ring(head, s)
    ensures visited == s
  {
    visited := [];
    assert Linked(head, s, 0);
    var pos := head.next;
    ghost var i := 0;
    while pos != head
      invariant i <= |s| && visited == s[..i] && pos == At(head, s, i + 1)
      decreases |s| - i
    {
      AtEntry(head, s, i);
      visited := visited + [pos];
      i := i + 1;
      assert Linked(head, s, i);
      pos := pos.next;
    }
    AtEntry(head, s, i);
  }
}
