/**
  The lifetime of libelf descriptors: elf_begin (gem5/ext/libelf/elf_begin.c), elf_memory
  (elf_memory.c), opening an archive member (libelf_ar.c) and elf_end (elf_end.c).

  A descriptor counts its activations; an archive also counts its open members, and a
  member points to its archive.  elf_end releases a descriptor when its last activation
  goes, defers the release of an archive with open members, and walks up the chain of
  archives whose release becomes due.
 */
module ElfLifetime {

  datatype Kind = KNone | KAr | KElf
  datatype Cmd = CNull | CRead | CWrite | CRdWr | COther

  /** What the file, or the next archive member, turns out to be. */
  datatype Image =
    | NoImage      // fstat, mmap or ftruncate failed, no further member, or a bad member size
    | Plain        // neither ELF nor archive
    | GoodElf
    | BadElf       // ELF magic with a bad version, class or byte order
    | GoodArchive
    | BadArchive   // archive magic, but _libelf_ar_open fails

  class Elf {
    var activations: int
    var kind: Kind
    var cmd: Cmd
    var fd: int
    var parent: Elf?
    var nchildren: int
    ghost var members: set<Elf>  // the unreleased descriptors naming this one as parent
    ghost const depth: nat  // how many archives it is nested in

    /** _libelf_allocate_elf with a kind */
    constructor (kind: Kind, ghost depth: nat)
      ensures activations == 1 && nchildren == 0 && members == {} && parent == null && cmd == CRead && fd == -1
      ensures this.kind == kind && this.depth == depth
    {
      activations, nchildren, members, parent := 1, 0, {}, null;
      this.kind, cmd, fd := kind, CRead, -1;
      this.depth := depth;
    }
  }

  /** What the counters of one descriptor say, and where it hangs. */
  ghost predicate Fits(e: Elf, live: set<Elf>)
    requires e in live
    reads live`activations, live`nchildren, live`members, live`kind, live`parent
  {
    && e.activations >= 0
    && e.nchildren == |e.members|
    && (forall c :: c in e.members ==> c in live && c.parent == e)
    && (e.kind != KAr ==> e.members == {})
    && (e.parent != null ==>
      e.parent in live && e in e.parent.members && e.parent.kind == KAr && e.parent.depth < e.depth)
  }

  /** The archives around a descriptor, innermost first: c[i + 1] is the archive c[i] is a member of. */
  ghost predicate IsNest(c: seq<Elf>)
    reads c`parent
  {
    && c != []
    && (forall i {:trigger c[i].parent} :: 0 <= i < |c| - 1 ==> c[i].parent == c[i + 1])
    && (forall i {:trigger c[i].depth} :: 0 <= i < |c| - 1 ==> c[i + 1].depth < c[i].depth)
    && c[|c| - 1].parent == null
  }

  lemma NestDistinct(c: seq<Elf>, k: nat)
    requires IsNest(c) && k < |c|
    ensures forall i :: k < i < |c| ==> c[i] != c[k]
  {
    var j := k;
    while j + 1 < |c|
      invariant k <= j < |c| && c[j].depth <= c[k].depth
      invariant forall i :: k < i <= j ==> c[i].depth < c[k].depth
    {
      assert c[j + 1].depth < c[j].depth;
      j := j + 1;
    }
  }

  ghost function First(c: seq<Elf>, k: nat): (s: set<Elf>)
    requires k <= |c|
  {
    if k == 0 then {} else First(c, k - 1) + {c[k - 1]}
  }

  /**
    elf_end on c[0], active `left` times, is to release c[i] once what is nested in it is gone:
    c[0] if no member of it is open, an archive around it if inactive with that one open member.
   */
  ghost predicate Closes(c: seq<Elf>, i: nat, left: int)
    requires i < |c|
    reads c`activations, c`nchildren
  {
    if i == 0 then c[i].activations == left && c[i].nchildren == 0
    else c[i].activations == 0 && c[i].nchildren == 1
  }

  /** k is how far the release goes. */
  ghost predicate ClosesUpTo(c: seq<Elf>, k: nat, left: int)
    requires k <= |c|
    reads c`activations, c`nchildren
  {
    AllClose(c, k, left) && (k < |c| ==> !Closes(c, k, left))
  }

  ghost predicate AllClose(c: seq<Elf>, k: nat, left: int)
    requires k <= |c|
    reads c`activations, c`nchildren
  {
    forall i :: 0 <= i < k ==> Closes(c, i, left)
  }

  /** The release loop stands at e, with the first k of the nest released. */
  ghost predicate Unwound(c: seq<Elf>, k: nat, e: Elf?, live0: set<Elf>, live: set<Elf>, released0: set<Elf>, released: set<Elf>) {
    && k <= |c| && e == (if k < |c| then c[k] else null)
    && First(c, k) <= live0 && live == live0 - First(c, k) && released == released0 + First(c, k)
    && forall i :: k <= i < |c| ==> c[i] in live
  }

  lemma UnwoundOneMore(c: seq<Elf>, k: nat, live0: set<Elf>, live1: set<Elf>, live: set<Elf>,
                       released0: set<Elf>, released1: set<Elf>, released: set<Elf>)
    requires k < |c| && Unwound(c, k, c[k], live0, live1, released0, released1)
    requires live == live1 - {c[k]} && released == released1 + {c[k]} && forall i :: k < i < |c| ==> c[i] in live
    ensures Unwound(c, k + 1, if k + 1 < |c| then c[k + 1] else null, live0, live, released0, released)
  {
  }

  ghost function One(e: Elf?): (s: set<Elf>) {
    if e == null then {} else {e}
  }

  lemma OneMore(s: set<Elf>, e: Elf?)
    ensures |s + One(e)| <= |s| + if e == null then 0 else 1
  {
  }

  /** The calls elf_begin turns down before it looks at any file. */
  predicate Refused(version: bool, fd: int, c: Cmd, a: Elf?)
    reads a
  {
    !version || c.CNull? || c.COther? || (a != null && (!c.CRead? || a.fd != fd || a.cmd != c))
  }

  /** A step of a program: elf_begin, inside held descriptor `from` if there is one, or elf_end. */
  datatype Op = OpenOp(fd: int, c: Cmd, from: nat, image: Image) | CloseOp(k: nat)

  /** How many steps of a program open an archive that turns out bad. */
  function BadOpens(ops: seq<Op>): (n: nat) {
    if ops == [] then 0 else BadOpens(ops[..|ops| - 1]) + BadOpen(ops[|ops| - 1])
  }

  function BadOpen(op: Op): (n: nat) {
    if op.OpenOp? && op.image == BadArchive then 1 else 0
  }

  class Library {
    var version: bool        // elf_version has been called
    ghost var live: set<Elf>
    ghost var released: set<Elf>

    /** The counters are right and the nesting is well founded. */
    ghost predicate Counted()
      reads this`live, this`released, live`activations, live`nchildren, live`members, live`kind, live`parent
    {
      live !! released && forall e {:trigger Fits(e, live)} :: e in live ==> Fits(e, live)
    }

    ghost predicate InUse(e: Elf)
      reads e`activations, e`nchildren
    {
      e.activations > 0 || e.nchildren > 0
    }

    /** A descriptor is unreleased exactly when it is active or has open members. */
    ghost predicate Valid()
      reads this`live, this`released, live`activations, live`nchildren, live`members, live`kind, live`parent
      reads released`activations, released`nchildren
    {
      && Counted()
      && (forall e :: e in live ==> InUse(e))
      && (forall e :: e in released ==> !InUse(e))
    }

    constructor ()
      ensures Valid() && live == {} && released == {}
    {
      version, live, released := false, {}, {};
    }

    /** The child counter is the number of unreleased descriptors with this parent. */
    lemma CountsChildren(e: Elf)
      requires Counted() && e in live
      ensures e.nchildren == |set c | c in live && c.parent == e|
    {
      assert Fits(e, live);
      var children := set c | c in live && c.parent == e;
      forall c | c in live && c.parent == e ensures c in e.members {
        assert Fits(c, live);
      }
      assert children == e.members;
    }

    /** The end of the release loop's body: _libelf_release_elf on sv, one open member fewer above it. */
    method Release(sv: Elf) returns (e: Elf?)
      requires Counted() && sv in live && sv.nchildren == 0
      modifies this`live, this`released
      modifies (if sv.parent == null then {} else {sv.parent})`nchildren, (if sv.parent == null then {} else {sv.parent})`members
      ensures Counted()
      ensures live == old(live) - {sv} && released == old(released) + {sv}
      ensures e == sv.parent && (e != null ==> e in live && e != sv && e.nchildren == old(e.nchildren) - 1)
    {
      assert Fits(sv, live);
      e := sv.parent;
      if e != null {
        assert Fits(e, live);
        e.nchildren := e.nchildren - 1;
        e.members := e.members - {sv};
      }
      live, released := live - {sv}, released + {sv};
      forall d | d in live ensures Fits(d, live) {
        assert old(Fits(d, live));
        assert sv in old(d.members) ==> d == e;
      }
    }

    lemma NestOf(e: Elf) returns (c: seq<Elf>)
      requires Counted() && e in live
      ensures IsNest(c) && c[0] == e && forall i :: 0 <= i < |c| ==> c[i] in live
      decreases e.depth
    {
      assert Fits(e, live);
      c := [e];
      if e.parent != null {
        var d := NestOf(e.parent);
        c := c + d;
      }
    }

    /** The invariant of the release loop: the descriptor it stands at may be due for release. */
    ghost predicate ValidBut(e: Elf?)
      reads this`live, this`released, live`activations, live`nchildren, live`members, live`kind, live`parent
      reads released`activations, released`nchildren
    {
      && Counted()
      && (forall d :: d in live && d != e ==> InUse(d))
      && (forall d :: d in released ==> !InUse(d))
    }

    /** elf_end: releases the longest stretch of the nest that is due, and nothing else. */
    method End(e: Elf?, ghost c: seq<Elf>) returns (r: int, ghost k: nat)
      requires Valid()
      requires e != null ==> IsNest(c) && c[0] == e && forall i :: 0 <= i < |c| ==> c[i] in live
      modifies this`live, this`released, c`nchildren, c`members, (if e == null then {} else {e})`activations
      ensures Valid()
      ensures e == null || old(e.activations) == 0 ==> r == 0 && live == old(live)
      ensures e != null && old(e.activations) > 0 ==>
        && e.activations == old(e.activations) - 1 == r
        && k <= |c| && old(ClosesUpTo(c, k, 1)) && live == old(live) - First(c, k)
      ensures released == old(released) + (old(live) - live)
    {
      k := 0;
      if e == null || e.activations == 0 {
        return 0, k;
      }
      Counters(e);
      Deactivate(e);
      if e.activations > 0 {
        return e.activations, k;
      }
      r := 0;
      NestDistinct(c, 0);
      assert forall i :: 0 <= i < |c| ==> Closes(c, i, 0) == old(Closes(c, i, 1));
      k := Unwind(e, c);
    }

    /** The release loop of elf_end. */
    method Unwind(e0: Elf, ghost c: seq<Elf>) returns (ghost k: nat)
      requires ValidBut(e0) && e0.activations == 0
      requires IsNest(c) && c[0] == e0 && forall i :: 0 <= i < |c| ==> c[i] in live
      modifies this`live, this`released, c`nchildren, c`members
      ensures Valid()
      ensures k <= |c| && old(ClosesUpTo(c, k, 0))
      ensures First(c, k) <= old(live) && live == old(live) - First(c, k) && released == old(released) + First(c, k)
    {
      k := 0;
      var e: Elf? := e0;
      ghost var live0, released0 := live, released;
      while e != null && e.activations == 0
        invariant Unwound(c, k, e, live0, live, released0, released)
        invariant old(AllClose(c, k, 0)) && ValidBut(e)
        invariant e != null ==> e.nchildren == old(e.nchildren) - (if k == 0 then 0 else 1)
        invariant forall i :: k < i < |c| ==> c[i].nchildren == old(c[i].nchildren)
        decreases |c| - k
      {
        if e.kind == KAr && e.nchildren > 0 {
          return;
        }
        Counters(e);
        assert old(Closes(c, k, 0));
        assert old(AllClose(c, k + 1, 0));
        ghost var live1, released1 := live, released;
        e := ReleaseAt(e, c, k);
        UnwoundOneMore(c, k, live0, live1, live, released0, released1, released);
        k := k + 1;
      }
      if e != null {
        Counters(e);
      }
    }

    method ReleaseAt(sv: Elf, ghost c: seq<Elf>, ghost k: nat) returns (e: Elf?)
      requires ValidBut(sv) && !InUse(sv)
      requires IsNest(c) && k < |c| && c[k] == sv && forall i :: k <= i < |c| ==> c[i] in live
      modifies this`live, this`released
      modifies (if sv.parent == null then {} else {sv.parent})`nchildren, (if sv.parent == null then {} else {sv.parent})`members
      ensures e == sv.parent == if k + 1 < |c| then c[k + 1] else null
      ensures ValidBut(e) && (e != null ==> e.nchildren == old(e.nchildren) - 1)
      ensures live == old(live) - {sv} && released == old(released) + {sv}
      ensures forall i :: k < i < |c| ==> c[i] in live
      ensures forall i :: k + 1 < i < |c| ==> c[i].nchildren == old(c[i].nchildren)
    {
      Counters(sv);
      NestDistinct(c, k);
      if k + 1 < |c| {
        NestDistinct(c, k + 1);
      }
      e := Release(sv);
    }

    lemma Counters(e: Elf)
      requires Counted() && e in live
      ensures e.activations >= 0 && e.nchildren >= 0 && (e.kind != KAr ==> e.nchildren == 0)
    {
      assert Fits(e, live);
    }

    method Deactivate(e: Elf)
      requires Counted() && e in live && e.activations > 0
      modifies e`activations
      ensures Counted() && e.activations == old(e.activations) - 1
    {
      e.activations := e.activations - 1;
      forall d | d in live ensures Fits(d, live) {
        assert old(Fits(d, live));
      }
    }

    // ----- Opening

    /** A new descriptor, outside any archive, joins the unreleased ones. */
    method Allocate(kind: Kind, ghost depth: nat) returns (e: Elf)
      requires Valid()
      modifies this`live
      ensures Valid() && fresh(e) && live == old(live) + {e}
      ensures e.activations == 1 && e.nchildren == 0 && e.parent == null && e.kind == kind && e.depth == depth
    {
      e := new Elf(kind, depth);
      live := live + {e};
      forall d | d in live ensures Fits(d, live) {
        assert d != e ==> old(Fits(d, live));
      }
    }

    /**
      elf_memory.  A bad ELF image is allocated and freed again at once.  An archive whose
      special members cannot be read makes _libelf_ar_open
      return NULL, which overwrites the only pointer to the descriptor: it stays allocated.
     */
    method Memory(image: Image, ghost depth: nat) returns (e: Elf?, ghost lost: Elf?)
      requires Valid()
      modifies this`live
      ensures Valid()
      ensures e != null <==> version && image in {Plain, GoodElf, GoodArchive}
      ensures lost != null <==> version && image == BadArchive
      ensures e != null ==>
        && fresh(e) && live == old(live) + {e}
        && e.activations == 1 && e.nchildren == 0 && e.parent == null && e.depth == depth
        && e.kind == (if image == GoodElf then KElf else if image == GoodArchive then KAr else KNone)
      ensures e == null ==> old(live) <= live && forall d :: d in live - old(live) ==> fresh(d) && d.activations == 1
      ensures e == null ==> (live == old(live) <==> !(version && image == BadArchive))
      ensures e == null ==> live == old(live) + One(lost) && (lost != null ==> fresh(lost) && lost.parent == null)
    {
      e, lost := null, null;
      if version && image == GoodElf {
        e := Allocate(KElf, depth);
      } else if version && image == GoodArchive {
        e := Allocate(KAr, depth);
      } else if version && image == Plain {
        e := Allocate(KNone, depth);
      } else if version && image == BadArchive {
        lost := Allocate(KAr, depth);
      }
    }

    /** _libelf_ar_open_member on archive `a`: its next member becomes an open child. */
    method OpenMember(fd: int, c: Cmd, a: Elf, image: Image) returns (e: Elf?, ghost lost: Elf?)
      requires Valid() && a in live && a.kind == KAr && version
      modifies this`live, a`nchildren, a`members
      ensures Valid()
      ensures e == null <==> image !in {Plain, GoodElf, GoodArchive}
      ensures e != null ==>
        && fresh(e) && live == old(live) + {e} && a.nchildren == old(a.nchildren) + 1
        && e.activations == 1 && e.parent == a && e.fd == fd && e.cmd == c && e.nchildren == 0
        && e.kind == (if image == GoodElf then KElf else if image == GoodArchive then KAr else KNone)
      ensures forall d :: d in live - old(live) ==> fresh(d) && d.activations == 1
      ensures e == null ==> a.nchildren == old(a.nchildren) && old(live) <= live
      ensures e == null ==> (live != old(live) <==> image == BadArchive)
      ensures e == null ==> live == old(live) + One(lost) && (lost != null ==> fresh(lost) && lost.parent == null)
    {
      e, lost := Memory(image, a.depth + 1);
      if e != null {
        e.fd := fd;
        e.cmd := c;
        Adopt(e, a);
      }
    }

    method Adopt(e: Elf, a: Elf)
      requires Valid() && e in live && a in live
      requires a.kind == KAr && e.parent == null && a.depth < e.depth
      modifies e`parent, a`nchildren, a`members
      ensures Valid() && e.parent == a && a.nchildren == old(a.nchildren) + 1
    {
      assert Fits(a, live) && Fits(e, live) && e !in a.members;
      a.nchildren := a.nchildren + 1;
      a.members := a.members + {e};
      e.parent := a;
      forall d | d in live ensures Fits(d, live) {
        assert old(Fits(d, live));
        assert d != a ==> e !in d.members;
      }
    }

    /** _libelf_open_object: an archive may not be opened for reading and writing. */
    method OpenObject(fd: int, c: Cmd, image: Image) returns (e: Elf?, ghost lost: Elf?)
      requires Valid() && version
      modifies this`live, this`released
      ensures Valid()
      ensures e != null <==> image == Plain || image == GoodElf || (image == GoodArchive && c != CRdWr)
      ensures e != null ==>
        && fresh(e) && live == old(live) + {e} && released == old(released)
        && e.activations == 1 && e.parent == null && e.fd == fd && e.cmd == c && e.nchildren == 0
        && e.kind == (if image == GoodElf then KElf else if image == GoodArchive then KAr else KNone)
      ensures forall d :: d in live - old(live) ==> fresh(d) && d.activations == 1
      ensures e == null ==> old(live) <= live && forall d :: d in released - old(released) ==> fresh(d)
      ensures e == null ==> (live == old(live) <==> image != BadArchive)
      ensures e == null ==> live == old(live) + One(lost) && (lost != null ==> fresh(lost) && lost.parent == null)
    {
      e, lost := Memory(image, 0);
      if e == null {
        return;
      }
      e.fd := fd;
      e.cmd := c;
      if c == CRdWr && e.kind == KAr {
        var r, k := End(e, [e]);
        e := null;
      }
    }

    /**
      elf_begin, with `image` standing for what the file, or the next member of archive `a`,
      turns out to be (NoImage where the operating system refuses).
     */
    method Begin(fd: int, c: Cmd, a: Elf?, image: Image) returns (e: Elf?, ghost lost: Elf?)
      requires Valid() && (a != null ==> a in live)
      modifies this`live, this`released
      modifies (if a == null then {} else {a})`nchildren, (if a == null then {} else {a})`members
      modifies (if a == null then {} else {a})`activations
      ensures Valid()
      ensures Refused(version, fd, c, a) ==> e == null && live == old(live) && released == old(released)
      ensures !Refused(version, fd, c, a) ==> (e != null <==>
        if a != null && a.kind != KAr then true
        else if c == CWrite then image != NoImage
        else image == Plain || image == GoodElf || (image == GoodArchive && c != CRdWr))
      ensures !Refused(version, fd, c, a) && e == null ==> old(live) <= live && (live != old(live) <==> image == BadArchive)
      ensures old(live) <= live && forall d :: d in live - old(live) ==> fresh(d) && d.activations == 1
      ensures e == null ==> live == old(live) + One(lost) && (lost != null ==> fresh(lost) && lost.parent == null)
      ensures a != null && e != a ==> a.activations == old(a.activations)
      ensures e != null && e in old(live) ==>
        && e == a && a.kind != KAr && a.activations == old(a.activations) + 1
        && live == old(live) && released == old(released)
      ensures e != null && e !in old(live) ==>
        && live == old(live) + {e} && released == old(released)
        && e.activations == 1 && e.parent == a && e.fd == fd && e.cmd == c && e.nchildren == 0
        && e.kind == (if c == CWrite then KElf else if image == GoodElf then KElf else if image == GoodArchive then KAr else KNone)
        && (a != null ==> a.kind == KAr && a.nchildren == old(a.nchildren) + 1)
    {
      e, lost := null, null;
      if !version {
        return;
      }
      match c {
        case CNull | COther =>
          return;
        case CWrite =>
          if a != null || image == NoImage {
            return;
          }
          e := Allocate(KElf, 0);
          e.fd := fd;
          e.cmd := c;
          return;
        case CRdWr =>
          if a != null {
            return;
          }
        case CRead =>
          if a != null && (a.fd != fd || c != a.cmd) {
            return;
          }
      }
      if a == null {
        e, lost := OpenObject(fd, c, image);
      } else if a.kind == KAr {
        e, lost := OpenMember(fd, c, a, image);
      } else {
        Activate(a);
        e := a;
      }
    }

    method Activate(a: Elf)
      requires Valid() && a in live
      modifies a`activations
      ensures Valid() && a.activations == old(a.activations) + 1
    {
      Counters(a);
      a.activations := a.activations + 1;
      forall d | d in live ensures Fits(d, live) {
        assert old(Fits(d, live));
      }
    }

    // ----- Over whole runs

    /** When every activation has been given back, all that is left is what was lost outside any archive. */
    lemma OnlyLostLeft(lost: set<Elf>)
      requires Valid() && lost <= live && forall e :: e in lost ==> e.parent == null
      requires forall e :: e in live && e !in lost ==> e.activations == 0
      ensures live == lost
    {
      var rest := live - lost;
      if rest != {} {
        var e := Deepest(rest);
        var m := DeeperMember(e);
        assert false;
      }
      forall e | e in live ensures e in lost {
        assert e !in rest;
      }
    }

    lemma DeeperMember(e: Elf) returns (m: Elf)
      requires Counted() && e in live && e.nchildren > 0
      ensures m in live && m.parent == e && e.depth < m.depth
    {
      assert Fits(e, live);
      m :| m in e.members;
      assert Fits(m, live);
    }

    static lemma Deepest(s: set<Elf>) returns (e: Elf)
      requires s != {}
      ensures e in s && forall d :: d in s ==> d.depth <= e.depth
      decreases s
    {
      e :| e in s;
      if s != {e} {
        var d := Deepest(s - {e});
        if e.depth < d.depth {
          e := d;
        }
      }
    }

    /**
      A program holds `held`, once for each time elf_begin gave it a descriptor.  Every activation is
      one of these, except the one of a descriptor lost with a bad archive.
     */
    ghost predicate Holds(held: seq<Elf>, lost: set<Elf>)
      reads this`live, live`activations, live`parent
    {
      && lost <= live && (forall e :: e in lost ==> e.parent == null) && (forall e :: e in held ==> e in live && e !in lost)
      && forall e :: e in live ==> e.activations == if e in lost then 1 else multiset(held)[e]
    }

    /** elf_begin in a program: a descriptor it returns is held once more. */
    method Open(fd: int, c: Cmd, a: Elf?, image: Image, held: seq<Elf>, ghost lost: set<Elf>)
      returns (e: Elf?, now: seq<Elf>, ghost gone: set<Elf>, ghost stray: Elf?)
      requires Valid() && Holds(held, lost) && (a != null ==> a in held)
      modifies this`live, this`released, live`nchildren, live`members, live`activations
      ensures Valid() && Holds(now, gone) && lost <= gone
      ensures gone == lost + One(stray) && (stray != null ==> image == BadArchive)
      ensures old(live) <= live && fresh(live - old(live))
      ensures now == if e == null then held else held + [e]
      ensures old(Refused(version, fd, c, a)) ==> e == null
      ensures !old(Refused(version, fd, c, a)) ==> (e != null <==>
        if a != null && a.kind != KAr then true
        else if c == CWrite then image != NoImage
        else image == Plain || image == GoodElf || (image == GoodArchive && c != CRdWr))
      ensures e != null && e !in old(live) ==>
        e.parent == a && e.kind ==
          if c == CWrite then KElf else if image == GoodElf then KElf else if image == GoodArchive then KAr else KNone
      ensures e != null && e in old(live) ==> e == a
    {
      e, stray := Begin(fd, c, a, image);
      now := held;
      if e != null {
        now, stray := held + [e], null;
      }
      gone := lost + One(stray);
    }

    /** elf_end in a program: one of its holds is given back. */
    method Close(k: nat, held: seq<Elf>, ghost lost: set<Elf>) returns (now: seq<Elf>)
      requires Valid() && Holds(held, lost) && k < |held|
      modifies this`live, this`released, live`nchildren, live`members, live`activations
      ensures Valid() && Holds(now, lost) && multiset(now) == multiset(held) - multiset{held[k]}
      ensures live <= old(live)
    {
      var e := held[k];
      ghost var c := NestOf(e);
      now := held[..k] + held[k + 1..];
      assert held == held[..k] + [e] + held[k + 1..];
      assert e in held;
      var r, n := End(e, c);
    }

    method Step(op: Op, held: seq<Elf>, ghost lost: set<Elf>) returns (now: seq<Elf>, ghost gone: set<Elf>)
      requires Valid() && Holds(held, lost)
      modifies this`live, this`released, live`nchildren, live`members, live`activations
      ensures Valid() && Holds(now, gone) && |gone| <= |lost| + BadOpen(op)
      ensures fresh(live - old(live))
    {
      now, gone := held, lost;
      match op {
        case OpenOp(fd, c, from, image) =>
          ghost var stray;
          var e;
          e, now, gone, stray := Open(fd, c, if from < |held| then held[from] else null, image, held, lost);
          OneMore(lost, stray);
        case CloseOp(k) =>
          if k < |held| {
            now := Close(k, held, lost);
          }
      }
    }

    /**
      Every run of elf_begin and elf_end on descriptors the program holds: the counters are right
      throughout, each activation is held or that of a lost descriptor, at most one of which goes with
      each bad archive opened; giving everything back releases everything else.
     */
    method Run(ops: seq<Op>, held0: seq<Elf>) returns (held: seq<Elf>, ghost lost: set<Elf>)
      requires Valid() && Holds(held0, {})
      modifies this`live, this`released, live`nchildren, live`members, live`activations
      ensures Valid() && Holds(held, lost) && |lost| <= BadOpens(ops)
      ensures held == [] ==> live == lost
    {
      held, lost := held0, {};
      for i := 0 to |ops|
        invariant Valid() && Holds(held, lost) && fresh(live - old(live))
        invariant |lost| <= BadOpens(ops[..i])
      {
        assert ops[..i + 1][..i] == ops[..i];
        held, lost := Step(ops[i], held, lost);
      }
      assert ops[..|ops|] == ops;
      if held == [] {
        OnlyLostLeft(lost);
      }
    }
  }

  /** A good archive, then a member of it: the archive's one open child. */
  method OpensMember(lib: Library, fd: int, image: Image) returns (archive: Elf, member: Elf)
    requires lib.Valid() && lib.version && image in {Plain, GoodElf, GoodArchive}
    modifies lib`live, lib`released
    ensures lib.Valid() && fresh(archive) && fresh(member) && archive != member
    ensures archive.kind == KAr && archive.nchildren == 1 && archive.activations == 1 && archive.parent == null
    ensures member.parent == archive && member.activations == 1 && member.nchildren == 0
    ensures member.kind == if image == GoodElf then KElf else if image == GoodArchive then KAr else KNone
    ensures lib.live == old(lib.live) + {archive, member} && lib.released == old(lib.released)
  {
    var e, lost := lib.Begin(fd, CRead, null, GoodArchive);
    archive := e;
    e, lost := lib.Begin(fd, CRead, archive, image);
    member := e;
  }

  /** Ending the archive first keeps it for its member; ending the member releases both. */
  method EndsArchiveFirst(lib: Library, fd: int, image: Image) returns (ghost kept: set<Elf>)
    requires lib.Valid() && lib.version && image in {Plain, GoodElf, GoodArchive}
    modifies lib`live, lib`released
    ensures lib.Valid() && lib.live == old(lib.live) && |kept| == 2 && kept !! old(lib.live)
    ensures lib.released == old(lib.released) + kept
  {
    var archive, member := OpensMember(lib, fd, image);
    kept := {archive, member};
    EndArchive(lib, archive, member, old(lib.live));
    var r, k := lib.End(member, [member, archive]);
    assert k == 2;
    assert First([member, archive], 2) == First([member, archive], 1) + {archive} == kept;
  }

  method EndArchive(lib: Library, archive: Elf, member: Elf, ghost others: set<Elf>)
    requires lib.Valid() && lib.live == others + {archive, member} && archive !in others && member !in others
    requires archive != member && archive.activations == 1 && archive.nchildren == 1 && archive.parent == null
    requires member.parent == archive && forall e :: e in others ==> e.parent != archive
    modifies lib`live, lib`released, archive`activations, archive`nchildren, archive`members
    ensures lib.Valid() && lib.live == old(lib.live) && lib.released == old(lib.released)
    ensures archive.activations == 0 && archive.nchildren == 1 && IsNest([member, archive])
  {
    ghost var nest := [archive];
    assert !Closes(nest, 0, 1);
    var r, k := lib.End(archive, nest);
    assert k == 0;
    assert Fits(member, lib.live);
    lib.CountsChildren(archive);
    assert (set c | c in lib.live && c.parent == archive) == {member};
  }

  /** Opening an archive that cannot be read: the program holds nothing, yet a descriptor is left. */
  method LosesDescriptor(fd: int) returns (lib: Library, e: Elf?)
    ensures lib.Valid() && lib.Holds([], lib.live) && e == null && lib.live != {}
  {
    lib := new Library();
    lib.version := true;
    ghost var lost;
    e, lost := lib.Begin(fd, CRead, null, BadArchive);
  }
}
