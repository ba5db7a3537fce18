/**
  The intrusive circular doubly linked list (xcpmd/src/list.h), refined to sequences.

  A list is described by the sequence of its nodes starting at the head; the head
  carries no entry, so the abstract contents are the nodes after it.
 */
module IntrusiveList {
  class Node {
    var next: Node?
    var prev: Node?

    /** INIT_LIST_HEAD. */
    constructor ()
      ensures Circular([this])
    {
      next, prev := this, this;
    }
  }

  ghost predicate Distinct(s: seq<Node>) {
    forall i, j :: 0 <= i < j < |s| ==> s[i] != s[j]
  }

  /** next and prev are mutually inverse and run once around s. */
  ghost predicate Circular(s: seq<Node>)
    reads s
  {
    && s != [] && Distinct(s)
    && (forall i :: 0 <= i < |s| - 1 ==> s[i].next == s[i + 1])
    && (forall i :: 1 <= i < |s| ==> s[i].prev == s[i - 1])
    && s[|s| - 1].next == s[0]
    && s[0].prev == s[|s| - 1]
  }

  /** The links of the k-th node. */
  lemma Neighbours(s: seq<Node>, k: nat)
    requires Circular(s) && k < |s|
    ensures s[k].next == s[if k + 1 == |s| then 0 else k + 1]
    ensures s[k].prev == s[if k == 0 then |s| - 1 else k - 1]
  {
    if k + 1 < |s| {
      assert s[k].next == s[k + 1];
    }
  }

  ghost function Without(s: seq<Node>, k: nat): (r: seq<Node>)
    requires k < |s|
    ensures |r| == |s| - 1
    ensures forall i :: 0 <= i < |r| ==> r[i] == s[if i < k then i else i + 1]
  {
    s[..k] + s[k + 1..]
  }

  lemma WithoutMembers(s: seq<Node>, k: nat)
    requires Distinct(s) && k < |s|
    ensures Distinct(Without(s, k)) && s[k] !in Without(s, k)
    ensures forall x :: x in Without(s, k) ==> x in s
  {
  }

  /** Any node of the ring may serve as its head. */
  lemma Rotate(s: seq<Node>, k: nat)
    requires Circular(s) && k < |s|
    ensures Circular(s[k..] + s[..k])
  {
    var r := s[k..] + s[..k];
    forall i | 0 <= i < |r| ensures r[i] == s[if i < |s| - k then i + k else i + k - |s|] {
    }
  }

  /** A ring determines its sequence: following next from the head visits exactly s, in order. */
  lemma {:induction false} CircularUnique(s: seq<Node>, t: seq<Node>, i: nat)
    requires Circular(s) && Circular(t) && s[0] == t[0]
    requires i < |s|
    ensures i < |t| && s[i] == t[i]
  {
    if i > 0 {
      CircularUnique(s, t, i - 1);
      assert s[i - 1].next == s[i];
      assert i - 1 < |t| - 1;
    }
  }

  // ---------------------------------------------------------------------
  // Insertion
  // ---------------------------------------------------------------------

  /** __list_add: link x between two neighbours. */
  method Link(x: Node, prev: Node, next: Node)
    modifies x, prev, next
    ensures x != prev && x != next ==> x.next == next && x.prev == prev
    ensures x != prev && x != next ==> next.prev == x && prev.next == x
    ensures x != prev && x != next && prev != next ==> prev.prev == old(prev.prev) && next.next == old(next.next)
  {
    next.prev := x;
    x.next := next;
    x.prev := prev;
    prev.next := x;
  }

  /** list_add: x becomes the first entry. */
  method Add(x: Node, head: Node, ghost s: seq<Node>)
    requires Circular(s) && s[0] == head && x !in s
    modifies x, head, head.next
    ensures Circular([head, x] + s[1..])
  {
    Neighbours(s, 0);
    ghost var r := [head, x] + s[1..];
    assert forall i :: 2 <= i < |r| ==> r[i] == s[i - 1];
    assert |s| > 1 ==> r[2] == s[1];
    Link(x, head, head.next);
  }

  /** list_add_tail: x becomes the last entry. */
  method AddTail(x: Node, head: Node, ghost s: seq<Node>)
    requires Circular(s) && s[0] == head && x !in s
    modifies x, head, head.prev
    ensures Circular(s + [x])
  {
    Neighbours(s, 0);
    Link(x, head.prev, head);
  }

  // ---------------------------------------------------------------------
  // Deletion
  // ---------------------------------------------------------------------

  /** __list_del: make the neighbours of the k-th node point to each other. */
  method Unlink(prev: Node, next: Node, ghost s: seq<Node>, ghost k: nat)
    requires Circular(s) && 0 < k < |s|
    requires prev == s[k - 1] && next == s[if k + 1 == |s| then 0 else k + 1]
    modifies prev, next
    ensures Circular(Without(s, k))
  {
    next.prev := prev;
    prev.next := next;
  }

  /** list_del: removes an entry and clears its links. */
  method Delete(x: Node, ghost s: seq<Node>, ghost k: nat)
    requires Circular(s) && 0 < k < |s| && s[k] == x
    modifies x, x.prev, x.next
    ensures Circular(Without(s, k))
    ensures x.next == null && x.prev == null
  {
    Neighbours(s, k);
    Unlink(x.prev, x.next, s, k);
    x.next := null;
    x.prev := null;
  }

  /** list_del_init: removes an entry and leaves it a ring of its own. */
  method DeleteInit(x: Node, ghost s: seq<Node>, ghost k: nat)
    requires Circular(s) && 0 < k < |s| && s[k] == x
    modifies x, x.prev, x.next
    ensures Circular(Without(s, k))
    ensures Circular([x])
  {
    Neighbours(s, k);
    Unlink(x.prev, x.next, s, k);
    x.next := x;
    x.prev := x;
  }

  ghost predicate Disjoint(s: seq<Node>, t: seq<Node>) {
    forall i, j :: 0 <= i < |s| && 0 <= j < |t| ==> s[i] != t[j]
  }

  /** list_move: from one list to the front of another. */
  method Move(x: Node, head: Node, ghost s: seq<Node>, ghost k: nat, ghost t: seq<Node>)
    requires Circular(s) && 0 < k < |s| && s[k] == x
    requires Circular(t) && t[0] == head && Disjoint(s, t)
    modifies x, x.prev, x.next, head, head.next
    ensures Circular(Without(s, k)) && Circular([head, x] + t[1..])
  {
    Neighbours(s, k);
    Neighbours(t, 0);
    Unlink(x.prev, x.next, s, k);
    WithoutMembers(s, k);
    assert Circular(t);
    Add(x, head, t);
  }

  /** list_move within one list: x becomes the first entry. */
  method MoveToFront(x: Node, head: Node, ghost s: seq<Node>, ghost k: nat)
    requires Circular(s) && s[0] == head && 0 < k < |s| && s[k] == x
    modifies s
    ensures Circular([head, x] + Without(s, k)[1..])
  {
    Neighbours(s, k);
    Unlink(x.prev, x.next, s, k);
    WithoutMembers(s, k);
    Neighbours(Without(s, k), 0);
    Add(x, head, Without(s, k));
  }

  /** list_move_tail: from one list to the end of another. */
  method MoveTail(x: Node, head: Node, ghost s: seq<Node>, ghost k: nat, ghost t: seq<Node>)
    requires Circular(s) && 0 < k < |s| && s[k] == x
    requires Circular(t) && t[0] == head && Disjoint(s, t)
    modifies x, x.prev, x.next, head, head.prev
    ensures Circular(Without(s, k)) && Circular(t + [x])
  {
    Neighbours(s, k);
    Neighbours(t, 0);
    Unlink(x.prev, x.next, s, k);
    WithoutMembers(s, k);
    assert Circular(t);
    AddTail(x, head, t);
  }

  /** list_move_tail within one list: x becomes the last entry. */
  method MoveToBack(x: Node, head: Node, ghost s: seq<Node>, ghost k: nat)
    requires Circular(s) && s[0] == head && 0 < k < |s| && s[k] == x
    modifies s
    ensures Circular(Without(s, k) + [x])
  {
    Neighbours(s, k);
    Unlink(x.prev, x.next, s, k);
    WithoutMembers(s, k);
    Neighbours(Without(s, k), 0);
    AddTail(x, head, Without(s, k));
  }

  // ---------------------------------------------------------------------
  // Whole lists
  // ---------------------------------------------------------------------

  method IsEmpty(head: Node, ghost s: seq<Node>) returns (b: bool)
    requires Circular(s) && s[0] == head
    ensures b <==> s[1..] == []
  {
    b := head.next == head;
    if |s| > 1 {
      assert head.next == s[1] != s[0];
    }
  }

  ghost function Spliced(s: seq<Node>, t: seq<Node>): (r: seq<Node>)
    requires s != [] && t != []
    ensures |r| == |s| + |t| - 1 && r[0] == t[0]
    ensures forall i :: 1 <= i < |s| ==> r[i] == s[i]
    ensures forall i :: |s| <= i < |r| ==> r[i] == t[i - |s| + 1]
  {
    [t[0]] + s[1..] + t[1..]
  }

  lemma SplicedDistinct(s: seq<Node>, t: seq<Node>)
    requires s != [] && t != [] && Distinct(s) && Distinct(t) && Disjoint(s, t)
    ensures Distinct(Spliced(s, t))
  {
  }

  /** __list_splice: the entries of a non-empty s go in front of those of t. */
  method SpliceEntries(list: Node, head: Node, ghost s: seq<Node>, ghost t: seq<Node>)
    requires Circular(s) && s[0] == list && Circular(t) && t[0] == head && Disjoint(s, t)
    requires |s| > 1
    modifies s, t
    ensures Circular(Spliced(s, t))
  {
    Neighbours(s, 0);
    Neighbours(t, 0);
    SplicedDistinct(s, t);
    var first, last, at := list.next, list.prev, head.next;
    first.prev := head;
    head.next := first;
    last.next := at;
    at.prev := last;
    ghost var r := Spliced(s, t);
    assert |t| > 1 ==> r[|s|] == t[1];
    forall i | 0 <= i < |r| - 1 ensures r[i].next == r[i + 1] {
      if i >= |s| {
        assert t[i - |s| + 1].next == t[i - |s| + 2];
      }
    }
    forall i | 1 <= i < |r| ensures r[i].prev == r[i - 1] {
      if i > |s| {
        assert t[i - |s| + 1].prev == t[i - |s|];
      }
    }
  }

  /** list_splice: nothing happens if s is empty; otherwise its head keeps dangling links. */
  method Splice(list: Node, head: Node, ghost s: seq<Node>, ghost t: seq<Node>)
    requires Circular(s) && s[0] == list && Circular(t) && t[0] == head && Disjoint(s, t)
    modifies s, t
    ensures Circular(Spliced(s, t))
    ensures |s| == 1 ==> Circular(s)
  {
    var empty := IsEmpty(list, s);
    if !empty {
      SpliceEntries(list, head, s, t);
    } else {
      assert Spliced(s, t) == t;
    }
  }

  /** list_splice_init: as above, and the emptied list is reinitialised. */
  method SpliceInit(list: Node, head: Node, ghost s: seq<Node>, ghost t: seq<Node>)
    requires Circular(s) && s[0] == list && Circular(t) && t[0] == head && Disjoint(s, t)
    modifies s, t
    ensures Circular(Spliced(s, t))
    ensures Circular([list])
  {
    Splice(list, head, s, t);
    list.next := list;
    list.prev := list;
  }

  // ---------------------------------------------------------------------
  // Safe iteration
  // ---------------------------------------------------------------------

  ghost function Kept(s: seq<Node>, doomed: set<Node>): (r: seq<Node>)
    ensures forall x :: x in r ==> x in s
  {
    if s == [] then []
    else Kept(s[..|s| - 1], doomed) + (if s[|s| - 1] in doomed then [] else [s[|s| - 1]])
  }

  // The ring while the i-th original node is current: what was kept, then the untouched rest.
  ghost function Partial(s: seq<Node>, i: nat, doomed: set<Node>): (r: seq<Node>)
    requires 1 <= i <= |s|
    ensures r != [] && r[0] == s[0]
    ensures forall x :: x in r ==> x in s
  {
    [s[0]] + Kept(s[1..i], doomed) + s[i..]
  }

  lemma PartialStep(s: seq<Node>, i: nat, doomed: set<Node>, at: nat)
    requires 1 <= i < |s| && at == |Kept(s[1..i], doomed)| + 1
    ensures at < |Partial(s, i, doomed)| && Partial(s, i, doomed)[at] == s[i]
    ensures i + 1 < |s| ==> at + 1 < |Partial(s, i, doomed)| && Partial(s, i, doomed)[at + 1] == s[i + 1]
    ensures i + 1 == |s| ==> at + 1 == |Partial(s, i, doomed)|
    ensures Partial(s, i + 1, doomed) ==
            if s[i] in doomed then Without(Partial(s, i, doomed), at) else Partial(s, i, doomed)
  {
    var done := s[1..i + 1];
    assert done[..|done| - 1] == s[1..i] && done[|done| - 1] == s[i];
    assert s[i..] == [s[i]] + s[i + 1..];
  }

  lemma PartialEnds(s: seq<Node>, doomed: set<Node>)
    requires s != []
    ensures Partial(s, 1, doomed) == s && s[1..1] == []
    ensures Partial(s, |s|, doomed) == [s[0]] + Kept(s[1..], doomed) && s[1..|s|] == s[1..]
  {
    assert s[1..|s|] == s[1..];
  }

  /** The loop body: the current entry is deleted if it is doomed. */
  method DeleteIf(pos: Node, doomed: set<Node>, ghost s: seq<Node>, ghost i: nat)
    requires 1 <= i < |s| && pos == s[i] && Circular(Partial(s, i, doomed))
    modifies s
    ensures Circular(Partial(s, i + 1, doomed))
  {
    ghost var ring, at := Partial(s, i, doomed), |Kept(s[1..i], doomed)| + 1;
    PartialStep(s, i, doomed, at);
    Neighbours(ring, at);
    assert pos.next in ring && pos.prev in ring;
    if pos in doomed {
      Delete(pos, ring, at);
    }
  }

  /**
    list_for_each_safe with deletion of the current entry: every original entry is
    visited exactly once, in order, and exactly the doomed ones are gone afterwards.
   */
  method DeleteWhere(head: Node, doomed: set<Node>, ghost s: seq<Node>) returns (visited: seq<Node>)
    requires Circular(s) && s[0] == head
    modifies s
    ensures visited == s[1..]
    ensures Circular([head] + Kept(s[1..], doomed))
  {
    visited := [];
    Neighbours(s, 0);
    Neighbours(s, if |s| == 1 then 0 else 1);
    PartialEnds(s, doomed);
    var pos, n := head.next, head.next.next;
    ghost var i := 1;
    while pos != head
      invariant 1 <= i <= |s|
      invariant visited == s[1..i]
      invariant Circular(Partial(s, i, doomed))
      invariant if i < |s| then pos == s[i] && n == s[if i + 1 == |s| then 0 else i + 1] else pos == head
      decreases |s| - i
    {
      assert s[1..i] + [s[i]] == s[1..i + 1];
      visited := visited + [pos];
      DeleteIf(pos, doomed, s, i);
      i := i + 1;
      pos := n;
      NextInPartial(s, i, doomed, pos);
      n := pos.next;
    }
    PartialEnds(s, doomed);
  }

  lemma NextInPartial(s: seq<Node>, i: nat, doomed: set<Node>, pos: Node)
    requires 1 <= i <= |s| && Circular(Partial(s, i, doomed))
    requires pos == s[if i == |s| then 0 else i]
    ensures pos.next != null
    ensures i < |s| ==> pos.next == s[if i + 1 == |s| then 0 else i + 1]
  {
    var ring := Partial(s, i, doomed);
    if i < |s| {
      var at := |Kept(s[1..i], doomed)| + 1;
      PartialStep(s, i, doomed, at);
      Neighbours(ring, at);
    } else {
      Neighbours(ring, 0);
    }
  }
}
