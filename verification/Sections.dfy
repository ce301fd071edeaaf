/**
  The section list of an ELF object (gem5/ext/libelf/elf_scn.c, and the reading of the file header
  in libelf_ehdr.c): read from the file when first asked for, then only appended to.
 */
module Sections {
  import opened Numbers

  datatype Shdr = Shdr(isNull: bool, offset: Word64, size: Word64)

  /** What the file says: its size, its header, and the section headers at `shoff`. */
  datatype RawFile = RawFile(
    rawsize: Word64, ehdrSize: nat, shdrSize: nat,
    shnum: nat, shoff: Word64, shentsize: nat, manyPhdrs: bool, farStrings: bool,
    shdrs: nat -> Shdr)

  const SHN_LORESERVE := 0xff00

  /** The header refuses itself. */
  predicate BadHeader(f: RawFile) {
    f.shnum >= SHN_LORESERVE || (f.shoff == 0 && (f.shnum != 0 || f.manyPhdrs || f.farStrings))
  }

  /** The number of sections is in section 0, which is then read along with the header. */
  predicate Extended(f: RawFile) {
    !BadHeader(f) && f.shnum == 0 && f.shoff != 0
  }

  function PreRead(f: RawFile): (n: nat) {
    if Extended(f) && f.rawsize >= Wrapped(f.shoff + f.shdrSize) then 1 else 0
  }

  function Declared(f: RawFile): (n: nat) {
    if BadHeader(f) then 0
    else if !Extended(f) then f.shnum
    else if PreRead(f) == 1 && f.shdrs(0).isNull then f.shdrs(0).size
    else 0
  }

  /** The end of the section table, as the check on it computes it. */
  function TableEnd(f: RawFile): (n: nat) {
    Wrapped(f.shoff + Wrapped(f.shdrSize * Declared(f)))
  }

  predicate EntryInFile(f: RawFile, i: nat) {
    f.shoff + f.shdrSize * (i + 1) <= f.rawsize
  }

  /** Section 0 passes the check on it and lies in the file exactly when its end does not wrap around. */
  lemma {:induction false} EarlyInFileIff(f: RawFile)
    requires f.rawsize >= Wrapped(f.shoff + f.shdrSize)
    ensures EntryInFile(f, 0) <==> f.shoff + f.shdrSize <= WORD_MAX
  {
    assert f.shdrSize * (0 + 1) == f.shdrSize;
  }

  /** A table passes the check on it and lies in the file exactly when its end does not wrap around. */
  lemma {:induction false} TableInFileIff(f: RawFile)
    requires TableEnd(f) <= f.rawsize
    ensures (forall i: nat :: i < Declared(f) ==> EntryInFile(f, i)) <==>
      Declared(f) == 0 || f.shoff + f.shdrSize * Declared(f) <= WORD_MAX
  {
    var n := Declared(f);
    if n > 0 {
      LastInFileIff(f, n);
      if EntryInFile(f, n - 1) {
        forall i: nat | i < n ensures EntryInFile(f, i) {
          EntriesBefore(f, i, n - 1);
        }
      }
    }
  }

  lemma {:induction false} LastInFileIff(f: RawFile, n: nat)
    requires n > 0 && Wrapped(f.shoff + Wrapped(f.shdrSize * n)) <= f.rawsize
    ensures EntryInFile(f, n - 1) <==> f.shoff + f.shdrSize * n <= WORD_MAX
  {
  }

  lemma {:induction false} EntriesBefore(f: RawFile, i: nat, j: nat)
    requires i <= j && EntryInFile(f, j)
    ensures EntryInFile(f, i)
  {
    Products(f.shdrSize, f.shdrSize, i + 1, j + 1);
  }

  /** How many sections a load that succeeds has read from the file */
  function NumRead(f: RawFile): (n: nat) {
    if Declared(f) == 0 then PreRead(f) else Declared(f)
  }

  /** Neither of the two ends checked wraps around: that of section 0 read early, that of the table. */
  predicate EndsFit(f: RawFile) {
    && (PreRead(f) == 1 ==> f.shoff + f.shdrSize <= WORD_MAX)
    && (Declared(f) == 0 || f.shoff + f.shdrSize * Declared(f) <= WORD_MAX)
  }

  /** All that is read lies in the file exactly when no checked end wraps around. */
  lemma {:induction false} ReadInFileIff(f: RawFile)
    requires TableEnd(f) <= f.rawsize
    ensures (forall i: nat :: i < NumRead(f) ==> EntryInFile(f, i)) <==> EndsFit(f)
  {
    TableInFileIff(f);
    if PreRead(f) == 1 {
      EarlyInFileIff(f);
    }
  }

  /** A table of one section whose end wraps around to the start of the file */
  lemma {:induction false} WrappedTableExample()
    ensures var f := RawFile(128, 64, 64, 1, 0xffff_ffff_ffff_ffc0, 64, false, false, _ => Shdr(true, 0, 0));
      TableEnd(f) <= f.rawsize && Declared(f) == 1 && PreRead(f) == 0 && !EntryInFile(f, 0)
  {
  }

  /** Extended numbering: section 0 is read from outside the file though no section is declared. */
  lemma {:induction false} WrappedEarlyExample()
    ensures var f := RawFile(128, 64, 64, 0, 0xffff_ffff_ffff_ffc0, 64, false, false, _ => Shdr(true, 0, 0));
      PreRead(f) == 1 && Declared(f) == 0 && TableEnd(f) > f.rawsize && !EntryInFile(f, 0)
  {
  }

  /** Section 0 was read along with the header but not counted. */
  predicate Stuck(f: RawFile) {
    PreRead(f) == 1 && Declared(f) == 0
  }

  /** There is such a file: extended numbering with a count of zero. */
  lemma {:induction false} StuckExample()
    ensures Stuck(RawFile(128, 64, 64, 0, 64, 64, false, false, _ => Shdr(true, 0, 0)))
  {
  }

  /** The header is read: the file has room for it, its count of sections is no reserved number, nothing
      in it needs a section table that is not there, and a count kept in section 0 can be read from it. */
  predicate HeaderReads(f: RawFile) {
    && f.ehdrSize <= f.rawsize && f.shnum < 0xff00
    && (f.shoff == 0 ==> f.shnum == 0 && !f.manyPhdrs && !f.farStrings)
    && (f.shoff != 0 && f.shnum == 0 ==> Wrapped(f.shoff + f.shdrSize) <= f.rawsize && f.shdrs(0).isNull)
  }

  /** How many sections such a header declares */
  lemma {:induction false} DeclaredBy(f: RawFile)
    requires HeaderReads(f)
    ensures Declared(f) == if f.shnum > 0 then f.shnum else if f.shoff == 0 then 0 else f.shdrs(0).size
    ensures PreRead(f) == if f.shoff != 0 && f.shnum == 0 then 1 else 0
  {
  }

  /** The sections can be loaded: the header is read, now or before, the size of an entry is right, and the
      end of the table, computed in 64 bits, lies in the file. */
  predicate Loads(f: RawFile, seen: bool) {
    && (seen || HeaderReads(f)) && f.shentsize == f.shdrSize
    && Wrapped(f.shoff + Wrapped(f.shdrSize * Declared(f))) <= f.rawsize
  }

  class Section {
    const ndx: nat
    const shdr: Shdr
    const offset: nat
    const size: nat

    constructor (ndx: nat, shdr: Shdr, offset: nat, size: nat)
      ensures this.ndx == ndx && this.shdr == shdr && this.offset == offset && this.size == size
    {
      this.ndx, this.shdr, this.offset, this.size := ndx, shdr, offset, size;
    }
  }

  datatype Op = Get(index: nat) | New | Next(k: nat)

  datatype Result = Null | Abort | Found(section: Section)

  class Elf {
    const file: RawFile
    const write: bool
    // an ELF object of a known class and version
    const usable: bool
    var hasEhdr: bool
    var loaded: bool
    var nscn: nat
    var scns: seq<Section>
    ghost var loads: nat

    constructor (file: RawFile, write: bool, usable: bool)
      ensures Valid() && this.file == file && this.write == write && this.usable == usable
      ensures scns == [] && nscn == 0 && !hasEhdr && !loaded && loads == 0
    {
      this.file, this.write, this.usable := file, write, usable;
      hasEhdr, loaded, nscn, scns, loads := false, false, 0, [], 0;
    }

    /** Indices count up from zero, and nscn counts the list unless the file is stuck. */
    ghost predicate Valid()
      reads this
    {
      && (forall i :: 0 <= i < |scns| ==> scns[i].ndx == i)
      && (!hasEhdr ==> !loaded && scns == [] && nscn == 0)
      && (write ==> !loaded && |scns| == nscn)
      && (!write && hasEhdr && !loaded ==> |scns| == PreRead(file) && nscn == Declared(file))
      && (loaded ==> |scns| >= Declared(file) && nscn >= Declared(file))
      && (loaded ==> (|scns| == nscn <==> !Stuck(file)))
      && (loaded && Stuck(file) ==> nscn == 0 && |scns| == 1)
      && (forall i :: 0 <= i < |scns| && !write && i < NumRead(file) ==> FromFile(scns[i]))
      && loads == (if loaded then 1 else 0)
    }

    /** Read from the file; only a section 0 read early keeps a zero offset and size. */
    ghost predicate FromFile(s: Section) {
      && s.shdr == file.shdrs(s.ndx)
      && (s.offset, s.size) == if s.ndx < PreRead(file) then (0, 0) else (s.shdr.offset, s.shdr.size)
    }

    /** Each of these sections was read from inside the file. */
    ghost predicate AllInFile(read: seq<Section>) {
      forall i :: 0 <= i < |read| ==> EntryInFile(file, read[i].ndx)
    }

    lemma {:induction false} AllInFileIff(read: seq<Section>)
      requires TableEnd(file) <= file.rawsize && |read| == NumRead(file)
      requires forall i :: 0 <= i < |read| ==> read[i].ndx == i
      ensures AllInFile(read) <==> EndsFit(file)
    {
      ReadInFileIff(file);
      if AllInFile(read) {
        forall i: nat | i < NumRead(file) ensures EntryInFile(file, i) {
          assert EntryInFile(file, read[i].ndx);
        }
      }
    }

    /** _libelf_load_extended */
    method LoadExtended() returns (ok: bool)
      requires scns == [] && nscn == 0 && Extended(file)
      modifies this`scns, this`nscn
      ensures |scns| == PreRead(file) && nscn == Declared(file)
      ensures forall i :: 0 <= i < |scns| ==> scns[i].ndx == i && FromFile(scns[i])
      ensures ok <==> PreRead(file) == 1 && file.shdrs(0).isNull
      ensures AllInFile(scns) <==> |scns| == 0 || file.shoff + file.shdrSize <= WORD_MAX
    {
      if file.rawsize < Wrapped(file.shoff + file.shdrSize) {
        return false;
      }
      EarlyInFileIff(file);
      var s := new Section(0, file.shdrs(0), 0, 0);
      scns := scns + [s];
      assert scns[0].ndx == 0;
      if !s.shdr.isNull {
        return false;
      }
      nscn := s.shdr.size;
      ok := true;
    }

    /** _libelf_ehdr: the header counts as read even when it is then refused. */
    method Ehdr() returns (ok: bool)
      requires Valid()
      modifies this`hasEhdr, this`scns, this`nscn
      ensures Valid() && (ok ==> hasEhdr && usable) && (usable && write ==> ok)
      ensures old(hasEhdr) ==> (scns, nscn) == old((scns, nscn)) && (ok <==> usable)
      ensures write || loaded ==> (scns, nscn) == old((scns, nscn))
      ensures !write && !old(hasEhdr) ==> (ok <==> usable && HeaderReads(file))
    {
      if !usable {
        return false;
      }
      if hasEhdr {
        return true;
      }
      if !write && file.rawsize < file.ehdrSize {
        return false;
      }
      hasEhdr := true;
      if write {
        return true;
      }
      if BadHeader(file) {
        return false;
      }
      ok := true;
      if file.shnum != 0 || file.shoff == 0 {
        nscn := file.shnum;
      } else {
        ok := LoadExtended();
      }
    }

    /** _libelf_load_scn */
    method LoadScn() returns (ok: bool)
      requires Valid() && hasEhdr && !write && !loaded
      modifies this`loaded, this`scns, this`loads
      ensures Valid() && ok == loaded && (!ok ==> scns == old(scns))
      ensures ok <==> file.shdrSize == file.shentsize && TableEnd(file) <= file.rawsize
      ensures ok ==> |scns| == NumRead(file) && (AllInFile(scns) <==> EndsFit(file))
    {
      var shnum := nscn;
      if file.shdrSize != file.shentsize || Wrapped(file.shoff + Wrapped(file.shdrSize * shnum)) > file.rawsize {
        return false;
      }
      var i := 0;
      if scns != [] {
        assert |scns| == 1;
        i := 1;
      }
      while i < shnum
        invariant loads == 0
        invariant |scns| == i && PreRead(file) <= i && (i <= shnum || i == PreRead(file))
        invariant forall j :: 0 <= j < |scns| ==> scns[j].ndx == j
        invariant forall j :: 0 <= j < |scns| && j < NumRead(file) ==> FromFile(scns[j])
      {
        var h := file.shdrs(i);
        var s := new Section(i, h, h.offset, h.size);
        scns := scns + [s];
        i := i + 1;
      }
      AllInFileIff(scns);
      loaded, loads, ok := true, loads + 1, true;
    }

    /** What elf_getscn and elf_newscn do first: the header, then the list, each once. */
    method Bring() returns (ok: bool)
      requires Valid()
      modifies this
      ensures Valid() && (ok ==> hasEhdr) && (ok <==> usable && (write || loaded))
      ensures write || old(loaded) ==> (scns, nscn) == old((scns, nscn))
      ensures old(loaded) ==> loaded
      ensures !write && !old(loaded) ==> (ok <==> usable && Loads(file, old(hasEhdr)))
      ensures ok && loaded && !old(loaded) ==> |scns| == NumRead(file) && (AllInFile(scns) <==> EndsFit(file))
    {
      ok := Ehdr();
      if ok && !write && !loaded {
        ok := LoadScn();
      }
    }

    /** elf_getscn: the section of that index, if the list has it */
    method GetScn(index: nat) returns (r: Result)
      requires Valid()
      modifies this
      ensures Valid() && r != Abort
      ensures write || old(loaded) ==> (scns, nscn) == old((scns, nscn))
      ensures old(loaded) ==> loaded
      ensures r.Found? ==> index < |scns| && r.section == scns[index] && usable && (write || loaded)
      ensures r == Null && usable && (write || loaded) ==> index >= |scns|
      ensures !write && !old(loaded) ==>
        && (usable && Loads(file, old(hasEhdr)) ==> loaded && |scns| == NumRead(file))
        && (r.Found? <==> usable && Loads(file, old(hasEhdr)) && index < NumRead(file))
        && (r.Found? ==> r.section.ndx == index && FromFile(r.section))
    {
      var ok := Bring();
      if !ok {
        return Null;
      }
      var i := 0;
      while i < |scns|
        invariant 0 <= i <= |scns| && (index < |scns| ==> i <= index)
      {
        if scns[i].ndx == index {
          return Found(scns[i]);
        }
        i := i + 1;
      }
      return Null;
    }

    /** elf_newscn: a new last section; its assertions fail exactly on a stuck file. */
    method NewScn() returns (r: Result)
      requires Valid()
      modifies this
      ensures Valid() && (old(loaded) ==> loaded)
      ensures r == Abort <==> usable && loaded && Stuck(file)
      ensures r.Found? ==> |scns| >= 2 && |scns| == nscn && r.section == scns[|scns| - 1] && fresh(r.section)
      ensures r.Found? && (write || old(loaded)) ==>
        && old(scns) < scns && |scns| == (if old(scns) == [] then 2 else |old(scns)| + 1)
      ensures r.Found? && !write && !old(loaded) ==>
        |scns| == if Declared(file) == 0 then 2 else Declared(file) + 1
      ensures !r.Found? && (write || old(loaded)) ==> scns == old(scns)
      ensures r == Null <==> !(usable && (write || old(loaded) || Loads(file, old(hasEhdr))))
    {
      var ok := Bring();
      if !ok {
        return Null;
      }
      if scns == [] {
        if nscn != 0 {
          return Abort;
        }
        var s := new Section(0, Shdr(true, 0, 0), 0, 0);
        scns, nscn := scns + [s], nscn + 1;
      }
      if nscn == 0 {
        return Abort;
      }
      var s := new Section(nscn, Shdr(true, 0, 0), 0, 0);
      scns, nscn := scns + [s], nscn + 1;
      r := Found(s);
    }

    /** elf_nextscn: the second section of the list, or the one behind */
    method NextScn(s: Section?) returns (r: Result)
      requires Valid()
      modifies this
      ensures Valid() && r != Abort
      ensures write || old(loaded) ==> (scns, nscn) == old((scns, nscn))
      ensures old(loaded) ==> loaded
      ensures s != null ==>
        && scns == old(scns) && loaded == old(loaded)
        && r == if s in scns && s.ndx + 1 < |scns| then Found(scns[s.ndx + 1]) else Null
      ensures s == null && r.Found? ==> |scns| > 1 && r.section == scns[1] && usable && (write || loaded)
      ensures s == null && r == Null && usable && (write || loaded) ==> |scns| <= 1
      ensures s == null && !write && !old(loaded) ==>
        && (usable && Loads(file, old(hasEhdr)) ==> loaded && |scns| == NumRead(file))
        && (r.Found? <==> usable && Loads(file, old(hasEhdr)) && 1 < NumRead(file))
    {
      if s == null {
        r := GetScn(1);
      } else if s in scns && s.ndx + 1 < |scns| {
        r := Found(scns[s.ndx + 1]);
      } else {
        r := Null;
      }
    }

    /** Following elf_nextscn from NULL visits the sections behind number 0, each once, in order. */
    method Enumerate() returns (visited: seq<Section>)
      requires Valid()
      modifies this
      ensures Valid()
      ensures write || old(loaded) ==> (scns, nscn) == old((scns, nscn)) && loaded == old(loaded)
      ensures usable && (write || loaded) ==> visited == scns[if scns == [] then 0 else 1..]
      ensures !(usable && (write || loaded)) ==> visited == []
      ensures !write && !old(loaded) ==>
        |visited| == if usable && Loads(file, old(hasEhdr)) && NumRead(file) > 0 then NumRead(file) - 1 else 0
      ensures forall i :: 0 <= i < |visited| ==> visited[i].ndx == i + 1 && (!write && !old(loaded) ==> FromFile(visited[i]))
    {
      var r := NextScn(null);
      visited := Follow(r);
    }

    /** The rest of the list, from its second section or from NULL */
    method Follow(start: Result) returns (visited: seq<Section>)
      requires Valid() && start != Abort && (start.Found? ==> |scns| > 1 && start.section == scns[1])
      modifies this
      ensures Valid() && scns == old(scns) && nscn == old(nscn) && (loaded, hasEhdr) == old((loaded, hasEhdr))
      ensures visited == if start.Found? then scns[1..] else []
    {
      visited := [];
      var r := start;
      while r.Found?
        invariant Valid() && scns == old(scns) && nscn == old(nscn) && (loaded, hasEhdr) == old((loaded, hasEhdr))
        invariant r != Abort
        invariant r.Found? ==> |visited| + 1 < |scns| && r.section == scns[|visited| + 1] && start.Found?
        invariant r.Found? ==> visited == scns[1..|visited| + 1]
        invariant r == Null ==> visited == if start.Found? then scns[1..] else []
        decreases |scns| - |visited|, r.Found?
      {
        assert r.section in scns;
        visited := visited + [r.section];
        r := NextScn(r.section);
      }
    }

    /** Any run of operations: the sections are loaded at most once, and once there they stay. */
    method Run(ops: seq<Op>)
      requires Valid()
      modifies this
      ensures Valid() && loads <= 1 && (old(loaded) ==> loaded)
      ensures write || old(loaded) ==> old(scns) <= scns
    {
      for i := 0 to |ops|
        invariant Valid() && (old(loaded) ==> loaded)
        invariant write || old(loaded) ==> old(scns) <= scns
      {
        match ops[i] {
          case Get(index) =>
            var _ := GetScn(index);
          case New =>
            var _ := NewScn();
          case Next(k) =>
            var s := if k < |scns| then scns[k] else null;
            var _ := NextScn(s);
        }
      }
    }
  }

  /** A file of 256 bytes with three section headers behind its own: the second section is found, and the
      two behind number 0 are visited. */
  method ThreeSections(shdrs: nat -> Shdr) returns (r: Result, visited: seq<Section>)
    ensures r.Found? && r.section.ndx == 1 && r.section.shdr == shdrs(1)
    ensures |visited| == 2 && visited[0] == r.section && visited[1].ndx == 2 && visited[1].shdr == shdrs(2)
  {
    var elf := new Elf(RawFile(256, 64, 64, 3, 64, 64, false, false, shdrs), false, true);
    r := elf.GetScn(1);
    visited := elf.Enumerate();
  }
}
