/**
  The singly linked tail queue of gem5/ext/libelf/elf_queue.h (the STAILQ macros), on
  which libelf keeps its sections and data descriptors.

  The macros hold the address of a pointer: of the head's stqh_first or of an element's
  stqe_next.  A Cell is a memory cell holding such a pointer; an element is identified
  with the cell of its stqe_next field (STAILQ_LAST subtracts the constant offset of that
  field), and a head owns the cell of its stqh_first field.
 */
module STailQueue {
  import opened Sequences

  class Cell {
    var next: Cell?

    constructor ()
      ensures next == null
    {
      next := null;
    }
  }

  class Head {
    const first: Cell  // the cell stqh_first; it never moves
    var last: Cell     // stqh_last, the address of the last next-field

    /** STAILQ_HEAD_INITIALIZER */
    constructor ()
      ensures fresh(first) && IsChain(this, [first])
    {
      var cell := new Cell();
      first, last := cell, cell;
    }
  }

  /** The queue of `h` holds exactly the elements c[1..], in order; c[0] is the head's own cell. */
  ghost predicate IsChain(h: Head, c: seq<Cell>)
    reads h, c
  {
    && c != [] && c[0] == h.first
    && Distinct(c)
    && (forall i {:trigger c[i].next} :: 0 <= i < |c| - 1 ==> c[i].next == c[i + 1])
    && c[|c| - 1].next == null
    && h.last == c[|c| - 1]
  }

  // ----- Operations that change a queue

  /** STAILQ_INIT */
  method Init(h: Head)
    modifies h, h.first
    ensures IsChain(h, [h.first])
  {
    h.first.next := null;
    h.last := h.first;
  }

  /** STAILQ_INSERT_HEAD */
  method InsertHead(h: Head, elm: Cell, ghost c: seq<Cell>)
    requires IsChain(h, c) && elm !in c
    modifies h, h.first, elm
    ensures IsChain(h, Inserted(c, 1, elm))
  {
    elm.next := h.first.next;
    if elm.next == null {
      h.last := elm;
    }
    h.first.next := elm;
  }

  /** STAILQ_INSERT_TAIL */
  method InsertTail(h: Head, elm: Cell, ghost c: seq<Cell>)
    requires IsChain(h, c) && elm !in c
    modifies h, elm, c[|c| - 1]
    ensures IsChain(h, Inserted(c, |c|, elm))
  {
    elm.next := null;
    h.last.next := elm;
    h.last := elm;
  }

  /** STAILQ_INSERT_AFTER */
  method InsertAfter(h: Head, tqelm: Cell, elm: Cell, ghost c: seq<Cell>, ghost k: nat)
    requires IsChain(h, c) && elm !in c
    requires 0 < k < |c| && c[k] == tqelm
    modifies h, tqelm, elm
    ensures IsChain(h, Inserted(c, k + 1, elm))
  {
    elm.next := tqelm.next;
    if elm.next == null {
      h.last := elm;
    }
    tqelm.next := elm;
  }

  /** STAILQ_REMOVE_HEAD: the queue must not be empty. */
  method RemoveHead(h: Head, ghost c: seq<Cell>)
    requires IsChain(h, c) && |c| > 1
    modifies h, h.first
    ensures IsChain(h, Removed(c, 1))
  {
    h.first.next := h.first.next.next;
    if h.first.next == null {
      h.last := h.first;
    }
  }

  /** STAILQ_REMOVE: walks to the predecessor of `elm`, which must be in the queue. */
  method Remove(h: Head, elm: Cell, ghost c: seq<Cell>, ghost k: nat)
    requires IsChain(h, c)
    requires 0 < k < |c| && c[k] == elm
    modifies h, c[k - 1]
    ensures IsChain(h, Removed(c, k))
  {
    if h.first.next == elm {
      RemoveHead(h, c);
    } else {
      var curelm := h.first.next;
      ghost var i := 1;
      while curelm.next != elm
        invariant 1 <= i < k && curelm == c[i]
        decreases k - i
      {
        curelm := curelm.next;
        i := i + 1;
      }
      curelm.next := curelm.next.next;
      if curelm.next == null {
        h.last := curelm;
      }
    }
  }

  /** STAILQ_CONCAT */
  method Concat(h1: Head, h2: Head, ghost c1: seq<Cell>, ghost c2: seq<Cell>)
    requires IsChain(h1, c1) && IsChain(h2, c2)
    requires h1 != h2 && Apart(c1, c2)
    modifies h1, h2, c1[|c1| - 1], h2.first
    ensures IsChain(h1, Joined(c1, c2))
    ensures IsChain(h2, [h2.first])
  {
    assert Distinct(Joined(c1, c2));
    if h2.first.next != null {
      h1.last.next := h2.first.next;
      h1.last := h2.last;
      Init(h2);
    }
  }

  // ----- Access

  /** STAILQ_LAST */
  method Last(h: Head, ghost c: seq<Cell>) returns (r: Cell?)
    requires IsChain(h, c)
    ensures r == if |c| == 1 then null else c[|c| - 1]
  {
    r := if h.first.next == null then null else h.last;
  }

  /** STAILQ_FOREACH */
  method Forward(h: Head, ghost c: seq<Cell>) returns (visited: seq<Cell>)
    requires IsChain(h, c)
    ensures visited == c[1..]
  {
    visited := [];
    var p := h.first.next;
    ghost var k := 1;
    while p != null
      invariant 1 <= k <= |c| && visited == c[1..k]
      invariant p == if k < |c| then c[k] else null
      decreases |c| - k
    {
      visited := visited + [p];
      p := p.next;
      k := k + 1;
    }
  }

  /**
    The section reclaim loop of elf_end: STAILQ_FOREACH_SAFE whose body takes the visited
    element off the queue it is walking and frees it.  Every element is released once, in
    order, and the queue ends empty, as _libelf_release_elf asserts.
   */
  method ReleaseAll(h: Head, ghost c: seq<Cell>) returns (released: seq<Cell>)
    requires IsChain(h, c)
    modifies h, h.first
    ensures released == c[1..]
    ensures IsChain(h, [h.first])
  {
    released := [];
    var s := h.first.next;
    ghost var d := c;
    while s != null
      invariant 1 <= |d| <= |c| && IsChain(h, d)
      invariant released == c[1..|c| - |d| + 1]
      invariant forall i :: 1 <= i < |d| ==> d[i] == c[i + |c| - |d|]
      invariant s == if |d| > 1 then d[1] else null
      decreases |d|
    {
      var t := s.next;
      Remove(h, s, d, 1);
      released := released + [s];
      d := Removed(d, 1);
      s := t;
    }
    assert d == [h.first];
  }
}
