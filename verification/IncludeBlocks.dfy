/**
  The rewriting of a whole file by gem5/util/sort_includes.py: runs of include lines are
  collected, sorted in blocks and written back.  Lines are recognised by a function that knows
  its own output again; SortIncludes.WrittenIsStable is that fact for the one in use.
 */
module IncludeBlocks {
  import opened Strings
  import opened SortIncludes

  ghost predicate Stable(recognise: string -> Match) {
    && recognise("") == Plain
    && forall line {:trigger recognise(line)} :: recognise(line).Include? ==>
         IsWritten(recognise, recognise(line).text) && recognise(recognise(line).text) == recognise(line)
  }

  predicate IsWritten(recognise: string -> Match, text: string) {
    recognise(text).Include? && recognise(text).text == text && !Blank(text)
  }

  // ----- Writing out the collected includes

  /** The include lines, as written, whose type is among the given ones. */
  function OfTypes(recognise: string -> Match, texts: seq<string>, types: seq<Kind>): (r: seq<string>) {
    if texts == [] then []
    else
      var rest := OfTypes(recognise, texts[1..], types);
      var m := recognise(texts[0]);
      if m.Include? && m.kind in types then [texts[0]] + rest else rest
  }

  lemma {:induction false} OfTypesHas(recognise: string -> Match, texts: seq<string>, types: seq<Kind>, x: string)
    ensures x in OfTypes(recognise, texts, types) <==>
      x in texts && recognise(x).Include? && recognise(x).kind in types
    decreases |texts|
  {
    if texts != [] {
      OfTypesHas(recognise, texts[1..], types, x);
      assert texts == [texts[0]] + texts[1..];
    }
  }

  /** The block a type goes to. */
  function BlockOf(kind: Kind): (b: nat)
    ensures b < |BLOCK_ORDER|
  {
    match kind
    case MainHeader => 0 case Python => 1 case C => 2 case Stl => 3 case Cc => 4 case M5Header => 5
    case _ => 6
  }

  lemma {:induction false} BlockOfType(kind: Kind, b: nat)
    requires b < |BLOCK_ORDER|
    ensures kind in BLOCK_ORDER[b] <==> b == BlockOf(kind)
  {
  }

  /** A block behind what is written already, with an empty line between. */
  function Appended(lines: seq<string>, block: seq<string>): (r: seq<string>) {
    if block == [] then lines
    else if lines == [] then block
    else lines + [""] + block
  }

  /** The first b blocks of dump_includes */
  function Dump(recognise: string -> Match, texts: seq<string>, b: nat): (r: seq<string>)
    requires b <= |BLOCK_ORDER|
  {
    if b == 0 then []
    else Appended(Dump(recognise, texts, b - 1), SortedSet(OfTypes(recognise, texts, BLOCK_ORDER[b - 1])))
  }

  function DumpAll(recognise: string -> Match, texts: seq<string>): (r: seq<string>) {
    Dump(recognise, texts, |BLOCK_ORDER|)
  }

  // ----- The whole file

  /** The lines yielded, with the includes collected so far. */
  function Rewrite(recognise: string -> Match, lines: seq<string>, texts: seq<string>): (r: seq<string>)
    decreases |lines|
  {
    if lines == [] then (if texts == [] then [] else DumpAll(recognise, texts))
    else
      var m := recognise(lines[0]);
      if m.Include? then Rewrite(recognise, lines[1..], texts + [m.text])
      else if texts != [] && Blank(lines[0]) then Rewrite(recognise, lines[1..], texts)
      else if texts != [] then
        DumpAll(recognise, texts) + ["", lines[0]] + Rewrite(recognise, lines[1..], [])
      else [lines[0]] + Rewrite(recognise, lines[1..], [])
  }

  // ----- What a dump holds

  lemma {:induction false} DumpHas(recognise: string -> Match, texts: seq<string>, b: nat, x: string)
    requires b <= |BLOCK_ORDER| && x != ""
    ensures x in Dump(recognise, texts, b) <==>
      x in texts && recognise(x).Include? && exists c :: 0 <= c < b && recognise(x).kind in BLOCK_ORDER[c]
    decreases b
  {
    if b > 0 {
      DumpHas(recognise, texts, b - 1, x);
      var types := BLOCK_ORDER[b - 1];
      SortedSetHas(OfTypes(recognise, texts, types), x);
      OfTypesHas(recognise, texts, types, x);
    }
  }

  ghost predicate AllWritten(recognise: string -> Match, texts: seq<string>) {
    forall x :: x in texts ==> IsWritten(recognise, x)
  }

  /** A dump holds the includes, each of them, and nothing but empty lines besides. */
  lemma {:induction false} DumpAllHas(recognise: string -> Match, texts: seq<string>, x: string)
    requires AllWritten(recognise, texts) && x != ""
    ensures x in DumpAll(recognise, texts) <==> x in texts
  {
    DumpHas(recognise, texts, |BLOCK_ORDER|, x);
    if x in texts {
      BlockOfType(recognise(x).kind, BlockOf(recognise(x).kind));
    }
  }

  /** A dump starts with an include. */
  lemma {:induction false} DumpStarts(recognise: string -> Match, texts: seq<string>, b: nat)
    requires b <= |BLOCK_ORDER|
    ensures var d := Dump(recognise, texts, b); d != [] ==> d[0] in texts
    decreases b
  {
    if b > 0 {
      DumpStarts(recognise, texts, b - 1);
      var block := SortedSet(OfTypes(recognise, texts, BLOCK_ORDER[b - 1]));
      if block != [] {
        SortedSetHas(OfTypes(recognise, texts, BLOCK_ORDER[b - 1]), block[0]);
        OfTypesHas(recognise, texts, BLOCK_ORDER[b - 1], block[0]);
      }
    }
  }

  lemma {:induction false} DumpOfSame(recognise: string -> Match, texts: seq<string>, others: seq<string>, b: nat)
    requires b <= |BLOCK_ORDER| && forall x :: x in texts <==> x in others
    ensures Dump(recognise, texts, b) == Dump(recognise, others, b)
    decreases b
  {
    if b > 0 {
      DumpOfSame(recognise, texts, others, b - 1);
      var types := BLOCK_ORDER[b - 1];
      forall x
        ensures x in OfTypes(recognise, texts, types) <==> x in OfTypes(recognise, others, types)
      {
        OfTypesHas(recognise, texts, types, x);
        OfTypesHas(recognise, others, types, x);
      }
      SortedSetOfSame(OfTypes(recognise, texts, types), OfTypes(recognise, others, types));
    }
  }

  // ----- Reading a dump again

  function NonEmpty(lines: seq<string>): (r: seq<string>) {
    if lines == [] then []
    else if lines[0] == "" then NonEmpty(lines[1..])
    else [lines[0]] + NonEmpty(lines[1..])
  }

  lemma {:induction false} NonEmptyHas(lines: seq<string>, x: string)
    ensures x in NonEmpty(lines) <==> x in lines && x != ""
    decreases |lines|
  {
    if lines != [] {
      NonEmptyHas(lines[1..], x);
      assert lines == [lines[0]] + lines[1..];
    }
  }

  lemma {:induction false} ReadWritten(recognise: string -> Match, line: string, rest: seq<string>, texts: seq<string>)
    requires IsWritten(recognise, line)
    ensures Rewrite(recognise, [line] + rest, texts) == Rewrite(recognise, rest, texts + [line])
  {
    assert ([line] + rest)[1..] == rest;
  }

  lemma {:induction false} ReadEmpty(recognise: string -> Match, rest: seq<string>, texts: seq<string>)
    requires recognise("") == Plain && texts != []
    ensures Rewrite(recognise, [""] + rest, texts) == Rewrite(recognise, rest, texts)
  {
    assert ([""] + rest)[1..] == rest;
  }

  /** Written lines and empty lines between them are collected again. */
  lemma {:induction false} Collected(recognise: string -> Match, dump: seq<string>, rest: seq<string>, texts: seq<string>)
    requires Stable(recognise)
    requires forall x :: x in dump ==> x == "" || IsWritten(recognise, x)
    requires texts != [] || (dump != [] && dump[0] != "")
    ensures Rewrite(recognise, dump + rest, texts) == Rewrite(recognise, rest, texts + NonEmpty(dump))
    decreases |dump|
  {
    if dump == [] {
      assert dump + rest == rest && texts + [] == texts;
    } else {
      var x, after := dump[0], dump[1..] + rest;
      assert dump + rest == [x] + after;
      if x == "" {
        ReadEmpty(recognise, after, texts);
        Collected(recognise, dump[1..], rest, texts);
      } else {
        ReadWritten(recognise, x, after, texts);
        Collected(recognise, dump[1..], rest, texts + [x]);
        Regroup(texts, x, NonEmpty(dump[1..]));
      }
    }
  }

  lemma {:induction false} Regroup(texts: seq<string>, x: string, more: seq<string>)
    ensures texts + [x] + more == texts + ([x] + more)
  {
  }

  /** Reading a dump from the start of a run collects what a dump writes the same way. */
  lemma {:induction false} ReadBack(recognise: string -> Match, texts: seq<string>, rest: seq<string>) returns (again: seq<string>)
    requires Stable(recognise) && AllWritten(recognise, texts) && texts != []
    ensures Rewrite(recognise, DumpAll(recognise, texts) + rest, []) == Rewrite(recognise, rest, again)
    ensures again != [] && DumpAll(recognise, again) == DumpAll(recognise, texts)
    ensures forall x :: x in again <==> x in texts
  {
    var dump := DumpAll(recognise, texts);
    again := NonEmpty(dump);
    forall x
      ensures x in again <==> x in texts
    {
      NonEmptyHas(dump, x);
      if x != "" {
        DumpAllHas(recognise, texts, x);
      }
    }
    assert forall x :: x in dump ==> x == "" || IsWritten(recognise, x) by {
      forall x | x in dump && x != ""
        ensures IsWritten(recognise, x)
      {
        DumpAllHas(recognise, texts, x);
      }
    }
    assert texts[0] in again;
    assert dump != [] by { NonEmptyHas(dump, texts[0]); }
    DumpStarts(recognise, texts, |BLOCK_ORDER|);
    Collected(recognise, dump, rest, []);
    assert [] + again == again;
    DumpOfSame(recognise, again, texts, |BLOCK_ORDER|);
  }

  /** Sorting a sorted file changes nothing. */
  lemma {:induction false} Idempotent(recognise: string -> Match, lines: seq<string>, texts: seq<string>)
    requires Stable(recognise) && AllWritten(recognise, texts)
    ensures var r := Rewrite(recognise, lines, texts); Rewrite(recognise, r, []) == r
    decreases |lines|
  {
    if lines == [] {
      if texts != [] {
        var again := ReadBack(recognise, texts, []);
        assert DumpAll(recognise, texts) + [] == DumpAll(recognise, texts);
      }
    } else {
      var m := recognise(lines[0]);
      if m.Include? {
        Idempotent(recognise, lines[1..], texts + [m.text]);
      } else if texts != [] && Blank(lines[0]) {
        Idempotent(recognise, lines[1..], texts);
      } else if texts != [] {
        Idempotent(recognise, lines[1..], []);
        IdempotentBehind(recognise, lines[0], Rewrite(recognise, lines[1..], []), texts);
      } else {
        Idempotent(recognise, lines[1..], []);
        assert ([lines[0]] + Rewrite(recognise, lines[1..], []))[1..] == Rewrite(recognise, lines[1..], []);
      }
    }
  }

  /** Writing out a run in front of a line that is neither an include nor blank. */
  lemma {:induction false} IdempotentBehind(recognise: string -> Match, line: string, after: seq<string>, texts: seq<string>)
    requires Stable(recognise) && AllWritten(recognise, texts) && texts != []
    requires recognise(line).Plain? && !Blank(line)
    ensures Rewrite(recognise, DumpAll(recognise, texts) + ["", line] + after, [])
      == DumpAll(recognise, texts) + ["", line] + Rewrite(recognise, after, [])
  {
    var rest := ["", line] + after;
    var again := ReadBack(recognise, texts, rest);
    assert DumpAll(recognise, texts) + ["", line] + after == DumpAll(recognise, texts) + rest;
    assert rest[1..] == [line] + after && ([line] + after)[1..] == after;
  }

  // ----- What is kept

  /** A line that is neither an include nor blank, with the includes since the one before it. */
  datatype Part = Part(includes: set<string>, line: string)

  /** A file as its parts; what follows the last such line is a part with an empty line. */
  ghost function Parts(recognise: string -> Match, lines: seq<string>, includes: set<string>): (r: seq<Part>)
    decreases |lines|
  {
    if lines == [] then [Part(includes, "")]
    else
      var m := recognise(lines[0]);
      if m.Include? then Parts(recognise, lines[1..], includes + {m.text})
      else if Blank(lines[0]) then Parts(recognise, lines[1..], includes)
      else [Part(includes, lines[0])] + Parts(recognise, lines[1..], {})
  }

  lemma {:induction false} PartsOfCons(recognise: string -> Match, line: string, rest: seq<string>, includes: set<string>)
    ensures var m := recognise(line);
      Parts(recognise, [line] + rest, includes) ==
        if m.Include? then Parts(recognise, rest, includes + {m.text})
        else if Blank(line) then Parts(recognise, rest, includes)
        else [Part(includes, line)] + Parts(recognise, rest, {})
  {
    assert ([line] + rest)[1..] == rest;
  }

  ghost function Texts(lines: seq<string>): (r: set<string>) {
    set x | x in lines && x != ""
  }

  lemma {:induction false} PartsOfDump(recognise: string -> Match, dump: seq<string>, rest: seq<string>, includes: set<string>)
    requires recognise("") == Plain && forall x :: x in dump ==> x == "" || IsWritten(recognise, x)
    ensures Parts(recognise, dump + rest, includes) == Parts(recognise, rest, includes + Texts(dump))
    decreases |dump|
  {
    if dump == [] {
      assert dump + rest == rest && includes + Texts(dump) == includes;
    } else {
      var x := dump[0];
      assert dump + rest == [x] + (dump[1..] + rest) && dump == [x] + dump[1..];
      PartsOfCons(recognise, x, dump[1..] + rest, includes);
      if x == "" {
        PartsOfDump(recognise, dump[1..], rest, includes);
        assert Texts(dump[1..]) == Texts(dump);
      } else {
        PartsOfDump(recognise, dump[1..], rest, includes + {x});
        assert includes + {x} + Texts(dump[1..]) == includes + Texts(dump);
      }
    }
  }

  lemma {:induction false} PartsOfDumpAll(recognise: string -> Match, texts: seq<string>, rest: seq<string>)
    requires recognise("") == Plain && AllWritten(recognise, texts)
    ensures Parts(recognise, DumpAll(recognise, texts) + rest, {}) == Parts(recognise, rest, set x | x in texts)
  {
    var dump := DumpAll(recognise, texts);
    forall x | x != ""
      ensures x in dump <==> x in texts
    {
      DumpAllHas(recognise, texts, x);
    }
    PartsOfDump(recognise, dump, rest, {});
    assert {} + Texts(dump) == set x | x in texts;
  }

  /** Every other line stays, in order, and between two of them the set of includes stays. */
  lemma {:induction false} PartsKept(recognise: string -> Match, lines: seq<string>, texts: seq<string>)
    requires Stable(recognise) && AllWritten(recognise, texts)
    ensures Parts(recognise, Rewrite(recognise, lines, texts), {}) == Parts(recognise, lines, set x | x in texts)
    decreases |lines|
  {
    var includes := set x | x in texts;
    if lines == [] {
      if texts == [] {
        assert includes == {};
      } else {
        PartsOfDumpAll(recognise, texts, []);
        assert DumpAll(recognise, texts) + [] == DumpAll(recognise, texts);
      }
    } else {
      var line, m := lines[0], recognise(lines[0]);
      var after := Rewrite(recognise, lines[1..], []);
      var none: seq<string> := [];
      assert (set x | x in none) == {};
      if m.Include? {
        PartsKept(recognise, lines[1..], texts + [m.text]);
        assert includes + {m.text} == set x | x in texts + [m.text];
      } else if texts != [] && Blank(line) {
        PartsKept(recognise, lines[1..], texts);
      } else if texts != [] {
        PartsKept(recognise, lines[1..], []);
        assert DumpAll(recognise, texts) + ["", line] + after == DumpAll(recognise, texts) + ([""] + ([line] + after));
        PartsOfDumpAll(recognise, texts, [""] + ([line] + after));
        PartsOfCons(recognise, "", [line] + after, includes);
        PartsOfCons(recognise, line, after, includes);
      } else {
        PartsKept(recognise, lines[1..], []);
        PartsOfCons(recognise, line, after, {});
      }
    }
  }

  // ----- What order it is in

  /** By block, then by text. */
  predicate Before(recognise: string -> Match, x: string, y: string) {
    var (m, n) := (recognise(x), recognise(y));
    && m.Include? && n.Include?
    && (BlockOf(m.kind) < BlockOf(n.kind) || (BlockOf(m.kind) == BlockOf(n.kind) && StrBelow(x, y)))
  }

  ghost predicate InOrder(recognise: string -> Match, lines: seq<string>) {
    forall i, j :: 0 <= i < j < |lines| && lines[i] != "" && lines[j] != "" ==> Before(recognise, lines[i], lines[j])
  }

  lemma {:induction false} BlockInOrder(recognise: string -> Match, texts: seq<string>, b: nat)
    requires b < |BLOCK_ORDER|
    ensures var block := SortedSet(OfTypes(recognise, texts, BLOCK_ORDER[b]));
      && InOrder(recognise, block)
      && forall x :: x in block ==> recognise(x).Include? && BlockOf(recognise(x).kind) == b
  {
    var chosen := OfTypes(recognise, texts, BLOCK_ORDER[b]);
    SortedSetIncreasing(chosen);
    forall x | x in SortedSet(chosen)
      ensures recognise(x).Include? && BlockOf(recognise(x).kind) == b
    {
      SortedSetHas(chosen, x);
      OfTypesHas(recognise, texts, BLOCK_ORDER[b], x);
      BlockOfType(recognise(x).kind, b);
    }
  }

  lemma {:induction false} AppendedInOrder(recognise: string -> Match, lines: seq<string>, block: seq<string>, b: nat)
    requires InOrder(recognise, lines) && InOrder(recognise, block)
    requires forall x :: x in lines && x != "" ==> recognise(x).Include? && BlockOf(recognise(x).kind) < b
    requires forall x :: x in block ==> recognise(x).Include? && BlockOf(recognise(x).kind) == b
    ensures InOrder(recognise, Appended(lines, block))
    ensures forall x :: x in Appended(lines, block) && x != "" ==> recognise(x).Include? && BlockOf(recognise(x).kind) <= b
  {
  }

  /** The includes of a dump stand in the order of the blocks, each block in increasing order. */
  lemma {:induction false} DumpInOrder(recognise: string -> Match, texts: seq<string>, b: nat)
    requires b <= |BLOCK_ORDER|
    ensures InOrder(recognise, Dump(recognise, texts, b))
    ensures forall x :: x in Dump(recognise, texts, b) && x != "" ==> recognise(x).Include? && BlockOf(recognise(x).kind) < b
    decreases b
  {
    if b > 0 {
      DumpInOrder(recognise, texts, b - 1);
      BlockInOrder(recognise, texts, b - 1);
      AppendedInOrder(recognise, Dump(recognise, texts, b - 1),
                    SortedSet(OfTypes(recognise, texts, BLOCK_ORDER[b - 1])), b - 1);
    }
  }

  // ----- The program

  class Sorter {
    const recognise: string -> Match
    var includes: map<Kind, seq<string>>

    constructor (recognise: string -> Match)
      ensures this.recognise == recognise && includes == map[]
    {
      this.recognise, includes := recognise, map[];
    }

    /** The dictionary holds the given lines, each under its type. */
    ghost predicate Holds(texts: seq<string>)
      reads this
    {
      forall kind, x :: (kind in includes && x in includes[kind]) <==>
        (x in texts && recognise(x).Include? && recognise(x).kind == kind)
    }

    /** dump_blocks */
    method DumpBlocks(types: seq<Kind>, ghost texts: seq<string>) returns (r: seq<string>)
      requires Holds(texts)
      ensures r == SortedSet(OfTypes(recognise, texts, types))
    {
      var found: seq<string> := [];
      for i := 0 to |types|
        invariant forall x :: x in found <==> x in texts && recognise(x).Include? && recognise(x).kind in types[..i]
      {
        if types[i] in includes {
          found := found + includes[types[i]];
        }
        assert types[..i + 1] == types[..i] + [types[i]];
      }
      assert types[..|types|] == types;
      forall x
        ensures x in found <==> x in OfTypes(recognise, texts, types)
      {
        OfTypesHas(recognise, texts, types, x);
      }
      SortedSetOfSame(found, OfTypes(recognise, texts, types));
      r := SortedSet(found);
    }

    /** dump_includes, with the lines of the string it returns */
    method DumpIncludes(ghost texts: seq<string>) returns (r: seq<string>)
      requires Holds(texts)
      modifies this
      ensures r == DumpAll(recognise, texts) && includes == map[]
    {
      r := [];
      for b := 0 to |BLOCK_ORDER|
        invariant includes == old(includes) && r == Dump(recognise, texts, b)
      {
        var block := DumpBlocks(BLOCK_ORDER[b], texts);
        r := Appended(r, block);
      }
      includes := map[];
    }

    /** self.includes[include_type].append(line) */
    method Collect(m: Match, ghost texts: seq<string>)
      requires m.Include? && recognise(m.text) == m && Holds(texts)
      modifies this
      ensures Holds(texts + [m.text])
    {
      if m.kind in includes {
        includes := includes[m.kind := includes[m.kind] + [m.text]];
      } else {
        includes := includes[m.kind := [m.text]];
      }
    }

    /** __call__ */
    method Sort(lines: seq<string>) returns (out: seq<string>)
      requires Stable(recognise)
      modifies this
      ensures out == Rewrite(recognise, lines, [])
    {
      includes := map[];
      out := [];
      var processing := false;
      ghost var texts: seq<string> := [];
      for i := 0 to |lines|
        invariant Holds(texts) && processing == (texts != [])
        invariant out + Rewrite(recognise, lines[i..], texts) == Rewrite(recognise, lines, [])
      {
        var m := recognise(lines[i]);
        assert lines[i..][1..] == lines[i + 1..];
        if m.Include? {
          Collect(m, texts);
          texts := texts + [m.text];
          processing := true;
        } else if processing && Blank(lines[i]) {
        } else if processing {
          processing := false;
          var dump := DumpIncludes(texts);
          out := out + dump + [""] + [lines[i]];
          texts := [];
        } else {
          out := out + [lines[i]];
        }
      }
      if processing {
        var dump := DumpIncludes(texts);
        out := out + dump;
      }
    }
  }

  // ----- With the recogniser in use

  lemma {:induction false} MatchLineIsStable(ctx: Context)
    ensures Stable(line => MatchLine(ctx, line))
  {
    forall line | MatchLine(ctx, line).Include?
      ensures MatchLine(ctx, MatchLine(ctx, line).text) == MatchLine(ctx, line) && !Blank(MatchLine(ctx, line).text)
    {
      WrittenIsStable(ctx, line);
    }
  }

  /** The rewriting of a file, sorted again, is itself; and its parts are those of the file. */
  lemma {:induction false} SortIsIdempotent(ctx: Context, lines: seq<string>)
    ensures var recognise := line => MatchLine(ctx, line); var r := Rewrite(recognise, lines, []);
      Rewrite(recognise, r, []) == r && Parts(recognise, r, {}) == Parts(recognise, lines, {})
  {
    MatchLineIsStable(ctx);
    var recognise := line => MatchLine(ctx, line);
    Idempotent(recognise, lines, []);
    PartsKept(recognise, lines, []);
    var none: seq<string> := [];
    assert (set x | x in none) == {};
  }

  /** The sorter with the recogniser in use */
  method SortFile(ctx: Context, lines: seq<string>) returns (out: seq<string>)
    ensures var recognise := line => MatchLine(ctx, line);
      && out == Rewrite(recognise, lines, []) == Rewrite(recognise, out, [])
      && Parts(recognise, out, {}) == Parts(recognise, lines, {})
  {
    MatchLineIsStable(ctx);
    SortIsIdempotent(ctx, lines);
    var sorter := new Sorter(line => MatchLine(ctx, line));
    out := sorter.Sort(lines);
  }
}
