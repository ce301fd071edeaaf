/**
  The doubly linked tail queue of gem5/ext/libelf/elf_queue.h (the TAILQ macros).

  A queue head is a pair {tqh_first, tqh_last} and the entry embedded in an element
  is a pair {tqe_next, tqe_prev}.  Both start with a pointer to an element and go on
  with the address of such a pointer, and the macros rely on that: the address of a
  next-field is also the address of the pair it starts, and TAILQ_LAST and TAILQ_PREV
  cast it to a head to read the second field.  One class, Link, therefore stands for
  heads and entries alike; an address of a next-field is a reference to its Link, and
  `*p` is `p.first`.  An element is identified with its entry.
 */
module TailQueue {
  import opened Sequences

  class Link {
    var first: Link?  // tqh_first of a head, tqe_next of an entry
    var last: Link    // tqh_last of a head, tqe_prev of an entry

    /** TAILQ_HEAD_INITIALIZER: an empty queue. */
    constructor ()
      ensures IsChain([this])
    {
      first, last := null, this;
    }
  }

  /**
    c[0] is the head of a queue holding exactly the elements c[1..], in order: `first`
    leads from each link to the next and from the last one to null; `last` leads from
    each element to the link before it and from the head to the end of the chain.
   */
  ghost predicate IsChain(c: seq<Link>)
    reads c
  {
    && c != []
    && Distinct(c)
    && (forall i {:trigger c[i].first} :: 0 <= i < |c| - 1 ==> c[i].first == c[i + 1])
    && (forall i {:trigger c[i].last} :: 0 < i < |c| ==> c[i].last == c[i - 1])
    && c[|c| - 1].first == null
    && c[0].last == c[|c| - 1]
  }

  // ----- Operations that change a queue

  /** TAILQ_INIT: whatever the head held, it now heads an empty queue. */
  method Init(head: Link)
    modifies head
    ensures IsChain([head])
  {
    head.first := null;
    head.last := head;
  }

  /** TAILQ_INSERT_HEAD */
  method InsertHead(head: Link, elm: Link, ghost c: seq<Link>)
    requires IsChain(c) && head == c[0] && elm !in c
    modifies head, elm, if |c| > 1 then {c[1]} else {}
    ensures IsChain(Inserted(c, 1, elm))
  {
    elm.first := head.first;
    if elm.first != null {
      head.first.last := elm;
    } else {
      head.last := elm;
    }
    head.first := elm;
    elm.last := head;
  }

  /** TAILQ_INSERT_TAIL: constant time, through the address of the last next-field. */
  method InsertTail(head: Link, elm: Link, ghost c: seq<Link>)
    requires IsChain(c) && head == c[0] && elm !in c
    modifies head, elm, c[|c| - 1]
    ensures IsChain(Inserted(c, |c|, elm))
  {
    elm.first := null;
    elm.last := head.last;
    head.last.first := elm;
    head.last := elm;
  }

  /** TAILQ_INSERT_AFTER */
  method InsertAfter(head: Link, listelm: Link, elm: Link, ghost c: seq<Link>, ghost k: nat)
    requires IsChain(c) && head == c[0] && elm !in c
    requires 0 < k < |c| && c[k] == listelm
    modifies head, elm, listelm, if k + 1 < |c| then {c[k + 1]} else {}
    ensures IsChain(Inserted(c, k + 1, elm))
  {
    elm.first := listelm.first;
    if elm.first != null {
      elm.first.last := elm;
    } else {
      head.last := elm;
    }
    listelm.first := elm;
    elm.last := listelm;
  }

  /** TAILQ_INSERT_BEFORE: needs no head, the back link leads to the field to overwrite. */
  method InsertBefore(listelm: Link, elm: Link, ghost c: seq<Link>, ghost k: nat)
    requires IsChain(c) && elm !in c
    requires 0 < k < |c| && c[k] == listelm
    modifies elm, listelm, c[k - 1]
    ensures IsChain(Inserted(c, k, elm))
  {
    elm.last := listelm.last;
    elm.first := listelm;
    listelm.last.first := elm;
    listelm.last := elm;
  }

  /** TAILQ_REMOVE: the removed element keeps its stale links. */
  method Remove(head: Link, elm: Link, ghost c: seq<Link>, ghost k: nat)
    requires IsChain(c) && head == c[0]
    requires 0 < k < |c| && c[k] == elm
    modifies head, c[k - 1], if k + 1 < |c| then {c[k + 1]} else {}
    ensures IsChain(Removed(c, k))
  {
    if elm.first != null {
      elm.first.last := elm.last;
    } else {
      head.last := elm.last;
    }
    elm.last.first := elm.first;
  }

  /** TAILQ_CONCAT: splices in constant time and leaves the second queue empty. */
  method Concat(head1: Link, head2: Link, ghost c1: seq<Link>, ghost c2: seq<Link>)
    requires IsChain(c1) && IsChain(c2) && head1 == c1[0] && head2 == c2[0]
    requires Apart(c1, c2)
    modifies head1, c1[|c1| - 1], head2, if |c2| > 1 then {c2[1]} else {}
    ensures IsChain(Joined(c1, c2))
    ensures IsChain([head2])
  {
    assert Distinct(Joined(c1, c2));
    if head2.first != null {
      head1.last.first := head2.first;
      head2.first.last := head1.last;
      head1.last := head2.last;
      Init(head2);
    }
  }

  // ----- Access

  /** TAILQ_LAST: two casts deep, the last element, or null of an empty queue. */
  method Last(head: Link, ghost c: seq<Link>) returns (r: Link?)
    requires IsChain(c) && head == c[0]
    ensures r == if |c| == 1 then null else c[|c| - 1]
  {
    r := head.last.last.first;
  }

  /** TAILQ_PREV: the element before `elm`, or null of the first one. */
  method Prev(elm: Link, ghost c: seq<Link>, ghost k: nat) returns (r: Link?)
    requires IsChain(c)
    requires 0 < k < |c| && c[k] == elm
    ensures r == if k == 1 then null else c[k - 1]
  {
    r := elm.last.last.first;
  }

  // ----- Traversal

  /** TAILQ_FOREACH */
  method Forward(head: Link, ghost c: seq<Link>) returns (visited: seq<Link>)
    requires IsChain(c) && head == c[0]
    ensures visited == c[1..]
  {
    visited := [];
    var p := head.first;
    ghost var k := 1;
    while p != null
      invariant 1 <= k <= |c| && visited == c[1..k]
      invariant p == if k < |c| then c[k] else null
      decreases |c| - k
    {
      visited := visited + [p];
      p := p.first;
      k := k + 1;
    }
  }

  /** TAILQ_FOREACH_REVERSE: starts at TAILQ_LAST and follows TAILQ_PREV. */
  method Backward(head: Link, ghost c: seq<Link>) returns (visited: seq<Link>)
    requires IsChain(c) && head == c[0]
    ensures visited == Reversed(c[1..])
  {
    visited := [];
    var p := Last(head, c);
    ghost var k := |c|;
    while p != null
      invariant 1 <= k <= |c| && |visited| == |c| - k
      invariant forall i :: 0 <= i < |visited| ==> visited[i] == c[|c| - 1 - i]
      invariant p == if k > 1 then c[k - 1] else null
      decreases k
    {
      k := k - 1;
      visited := visited + [p];
      p := Prev(p, c, k);
    }
  }

  /** TAILQ_PREV undoes TAILQ_NEXT on every element but the last, and the other way round. */
  lemma PrevUndoesNext(c: seq<Link>, k: nat)
    requires IsChain(c) && 0 < k < |c| - 1
    ensures c[k].first != null && c[k].first.last.last.first == c[k]
    ensures c[k + 1].last.last.first != null && c[k + 1].last.last.first.first == c[k + 1]
  {
    assert c[k + 1].last == c[k] && c[k].last == c[k - 1];
  }

  /** The heap determines the contents: a head heads one queue only. */
  lemma ContentsUnique(c: seq<Link>, d: seq<Link>)
    requires IsChain(c) && IsChain(d) && c[0] == d[0]
    ensures c == d
  {
    var k := 0;
    while k + 1 < |c| && k + 1 < |d|
      invariant k < |c| && k < |d|
      invariant forall i :: 0 <= i <= k ==> c[i] == d[i]
    {
      assert c[k].first == c[k + 1] && d[k].first == d[k + 1];
      k := k + 1;
    }
  }
}
