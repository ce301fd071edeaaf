/** The include sorter of gem5/util/sort_includes.py: recognising include lines, and sorting them. */
module SortIncludes {
  import opened Common
  import opened Strings

  // ----- One line

  /** The include types, in the order they are tried. */
  datatype Kind = MainHeader | Python | C | Stl | Cc | M5Header | Swig0 | Swig1 | Swig2 | Swig3

  const TYPES: seq<Kind> := [MainHeader, Python, C, Stl, Cc, M5Header, Swig0, Swig1, Swig2, Swig3]

  const BLOCK_ORDER: seq<seq<Kind>> :=
    [[MainHeader], [Python], [C], [Stl], [Cc], [M5Header], [Swig0, Swig1, Swig2, Swig3]]

  const CPP_C_HEADERS: map<string, string> := map[
    "assert.h" := "cassert", "ctype.h" := "cctype", "errno.h" := "cerrno", "float.h" := "cfloat",
    "limits.h" := "climits", "locale.h" := "clocale", "math.h" := "cmath", "setjmp.h" := "csetjmp",
    "signal.h" := "csignal", "stdarg.h" := "cstdarg", "stddef.h" := "cstddef", "stdio.h" := "cstdio",
    "stdlib.h" := "cstdlib", "string.h" := "cstring", "time.h" := "ctime", "wchar.h" := "cwchar",
    "wctype.h" := "cwctype"]

  /** The file: the name of its own header, if it has one, and whether its language is C++. */
  datatype Context = Context(ownHeader: Option<string>, cpp: bool)

  datatype Match = Plain | Include(kind: Kind, text: string)

  function Keyword(kind: Kind): (k: string) {
    if kind.Swig0? || kind.Swig2? then "%import"
    else if kind.Swig1? || kind.Swig3? then "%include"
    else "#include"
  }

  predicate Quoted(kind: Kind) {
    kind.MainHeader? || kind.M5Header? || kind.Swig2? || kind.Swig3?
  }

  function Opening(quoted: bool): (c: char) { if quoted then '\"' else '<' }
  function Closing(quoted: bool): (c: char) { if quoted then '\"' else '>' }

  predicate IsWord(c: char) {
    'a' <= c <= 'z' || 'A' <= c <= 'Z' || '0' <= c <= '9' || c == '_'
  }

  predicate Blank(line: string) {
    forall i :: 0 <= i < |line| ==> IsSpace(line[i])
  }

  predicate EndsIn(s: string, suffix: string) {
    |suffix| <= |s| && s[|s| - |suffix|..] == suffix
  }

  /** What the matcher of a type asks of the name between the delimiters. */
  predicate Accepts(ctx: Context, kind: Kind, name: string) {
    match kind
    case MainHeader => ctx.ownHeader == Some(name)
    case Python => name == "Python.h"
    case C => EndsIn(name, ".h")
    case Stl => name != "" && forall i :: 0 <= i < |name| ==> IsWord(name[i])
    case Cc => EndsIn(name, ".hh") || EndsIn(name, ".hxx") || EndsIn(name, ".hpp") || EndsIn(name, ".H")
    case M5Header => EndsIn(name, ".h") || EndsIn(name, ".hh")
    case _ => true
  }

  /** The last occurrence of a character, or -1. */
  function LastIndex(s: string, c: char): (k: int)
    ensures -1 <= k < |s|
    ensures k >= 0 ==> s[k] == c
    ensures forall i :: k < i < |s| ==> s[i] != c
  {
    if s == "" then -1
    else if s[|s| - 1] == c then |s| - 1
    else LastIndex(s[..|s| - 1], c)
  }

  /** The regular expression: keyword, space, the name up to the last closing delimiter, the rest. */
  function Parse(line: string, keyword: string, quoted: bool): (r: Option<(string, string)>) {
    if keyword <= line then
      var rest := SkipSpace(line[|keyword|..]);
      if rest != "" && rest[0] == Opening(quoted) then
        var body := rest[1..];
        var k := LastIndex(body, Closing(quoted));
        if k >= 0 then Some((body[..k], body[k + 1..])) else None
      else None
    else None
  }

  function Written(keyword: string, quoted: bool, name: string, extra: string): (line: string) {
    keyword + " " + [Opening(quoted)] + name + [Closing(quoted)] + extra
  }

  function FirstMatch(ctx: Context, line: string, types: seq<Kind>): (m: Match)
    decreases |types|
  {
    if types == [] then Plain
    else
      var kind := types[0];
      var p := Parse(line, Keyword(kind), Quoted(kind));
      if p.Some? && Accepts(ctx, kind, p.value.0) then
        var (name, extra) := p.value;
        if kind.C? && ctx.cpp && name in CPP_C_HEADERS then
          Include(Stl, Written(Keyword(kind), Quoted(kind), CPP_C_HEADERS[name], extra))
        else
          Include(kind, Written(Keyword(kind), Quoted(kind), name, extra))
      else FirstMatch(ctx, line, types[1..])
  }

  /** match_line */
  function MatchLine(ctx: Context, line: string): (m: Match) {
    if line == "" then Plain else FirstMatch(ctx, line, TYPES)
  }

  // ----- A line written by the sorter is recognised as it is

  lemma {:induction false} LastIndexAt(s: string, c: char, k: nat)
    requires k < |s| && s[k] == c && forall i :: k < i < |s| ==> s[i] != c
    ensures LastIndex(s, c) == k
  {
  }

  /** Keywords differ within seven characters, so at most one fits a line. */
  lemma {:induction false} KeywordsApart(a: Kind, b: Kind, line: string)
    requires Keyword(a) <= line && Keyword(b) <= line
    ensures Keyword(a) == Keyword(b)
  {
    assert line[0] == Keyword(a)[0] == Keyword(b)[0];
    assert line[2] == Keyword(a)[2] == Keyword(b)[2];
  }

  lemma {:induction false} SkipOneSpace(key: string, rest: string)
    requires rest != "" && !IsSpace(rest[0])
    ensures SkipSpace((key + " " + rest)[|key|..]) == rest
  {
    assert (key + " " + rest)[|key|..] == " " + rest;
    assert (" " + rest)[1..] == rest;
  }

  lemma {:induction false} LastDelimiter(name: string, c: char, extra: string)
    requires c !in extra
    ensures var body := name + [c] + extra;
      LastIndex(body, c) == |name| && body[..|name|] == name && body[|name| + 1..] == extra
  {
    LastIndexAt(name + [c] + extra, c, |name|);
  }

  lemma {:induction false} ParseDelimited(key: string, q: bool, body: string, other: bool)
    ensures var k := LastIndex(body, Closing(q));
      Parse(key + " " + ([Opening(q)] + body), key, other) ==
        if other == q && k >= 0 then Some((body[..k], body[k + 1..])) else None
  {
    var rest := [Opening(q)] + body;
    assert rest[1..] == body;
    SkipOneSpace(key, rest);
    assert key <= key + " " + rest;
  }

  lemma {:induction false} ParseWritten(kind: Kind, name: string, extra: string, other: Kind)
    requires Closing(Quoted(kind)) !in extra
    ensures var line := Written(Keyword(kind), Quoted(kind), name, extra);
      Parse(line, Keyword(other), Quoted(other)) ==
        if Keyword(other) == Keyword(kind) && Quoted(other) == Quoted(kind) then Some((name, extra)) else None
  {
    var key, q := Keyword(kind), Quoted(kind);
    var line := Written(key, q, name, extra);
    var body := name + [Closing(q)] + extra;
    assert line == key + " " + ([Opening(q)] + body);
    if Keyword(other) <= line {
      KeywordsApart(other, kind, line);
      ParseDelimited(key, q, body, Quoted(other));
      LastDelimiter(name, Closing(q), extra);
    }
  }

  lemma {:induction false} ParseExtra(line: string, keyword: string, quoted: bool)
    requires Parse(line, keyword, quoted).Some?
    ensures Closing(quoted) !in Parse(line, keyword, quoted).value.1
  {
  }

  predicate Renamed(ctx: Context, kind: Kind, name: string) {
    kind.C? && ctx.cpp && name in CPP_C_HEADERS
  }

  /** The type that matched, and that every type tried before it also passes over the written line. */
  lemma {:induction false} MatchedBy(ctx: Context, line: string, types: seq<Kind>)
    returns (kind: Kind, name: string, extra: string)
    requires FirstMatch(ctx, line, types).Include?
    ensures Closing(Quoted(kind)) !in extra && Accepts(ctx, kind, name)
    ensures Parse(line, Keyword(kind), Quoted(kind)) == Some((name, extra))
    ensures Renamed(ctx, kind, name) ==>
      FirstMatch(ctx, line, types) == Include(Stl, Written(Keyword(Stl), Quoted(Stl), CPP_C_HEADERS[name], extra))
    ensures !Renamed(ctx, kind, name) ==>
      var text := Written(Keyword(kind), Quoted(kind), name, extra);
      FirstMatch(ctx, line, types) == FirstMatch(ctx, text, types) == Include(kind, text)
    decreases |types|
  {
    var first := types[0];
    var p := Parse(line, Keyword(first), Quoted(first));
    if p.Some? && Accepts(ctx, first, p.value.0) {
      kind, name, extra := first, p.value.0, p.value.1;
      ParseExtra(line, Keyword(first), Quoted(first));
      ParseWritten(kind, name, extra, kind);
    } else {
      kind, name, extra := MatchedBy(ctx, line, types[1..]);
      ParseWritten(kind, name, extra, first);
    }
  }

  lemma {:induction false} HeadersAreWords(name: string)
    requires name in CPP_C_HEADERS
    ensures var h := CPP_C_HEADERS[name]; h != "" && forall i :: 0 <= i < |h| ==> IsWord(h[i])
  {
  }

  predicate KeepsStem(name: string, h: string) {
    |name| > 2 && EndsIn(name, ".h") && h == "c" + name[..|name| - 2]
  }

  lemma {:induction false} HeaderEnds(name: string)
    requires name in CPP_C_HEADERS
    ensures |name| > 2 && name[|name| - 2] == '.' && name[|name| - 1] == 'h'
  {
  }

  lemma {:induction false} HeaderStem(name: string)
    requires name in CPP_C_HEADERS
    ensures var h := CPP_C_HEADERS[name]; |h| == |name| - 1 && h[0] == 'c' && forall i :: 0 < i < |h| ==> h[i] == name[i - 1]
  {
  }

  /** A C header <stem>.h is renamed to c<stem>. */
  lemma {:induction false} HeadersKeepStem(name: string)
    requires name in CPP_C_HEADERS
    ensures KeepsStem(name, CPP_C_HEADERS[name])
  {
    HeaderEnds(name);
    HeaderStem(name);
    StemKept(name, CPP_C_HEADERS[name]);
  }

  lemma {:induction false} StemKept(name: string, h: string)
    requires |name| > 2 && name[|name| - 2] == '.' && name[|name| - 1] == 'h'
    requires |h| == |name| - 1 && h[0] == 'c' && forall i :: 0 < i < |h| ==> h[i] == name[i - 1]
    ensures KeepsStem(name, h)
  {
    assert name[|name| - 2..] == ".h";
  }

  lemma {:induction false} NotNamed(ctx: Context, name: string, kind: Kind)
    requires forall i :: 0 <= i < |name| ==> IsWord(name[i])
    requires kind.Python? || kind.C?
    ensures !Accepts(ctx, kind, name)
  {
    assert "Python.h"[6] == '.' && ".h"[0] == '.';
    if Accepts(ctx, kind, name) {
      if kind.C? {
        SuffixStart(name, ".h");
      }
      assert false;
    }
  }

  lemma {:induction false} SuffixStart(s: string, suffix: string)
    requires EndsIn(s, suffix) && suffix != ""
    ensures s[|s| - |suffix|] == suffix[0]
  {
  }

  lemma {:induction false} PassedOver(ctx: Context, name: string, extra: string, types: seq<Kind>)
    requires Accepts(ctx, Stl, name) && '>' !in extra
    requires types != [] && (types[0].MainHeader? || types[0].Python? || types[0].C?)
    ensures var text := Written(Keyword(Stl), Quoted(Stl), name, extra);
      FirstMatch(ctx, text, types) == FirstMatch(ctx, text, types[1..])
  {
    ParseWritten(Stl, name, extra, types[0]);
    if !types[0].MainHeader? {
      NotNamed(ctx, name, types[0]);
    }
  }

  /** A name of word characters reaches the type stl when only the three types before it are tried first. */
  lemma {:induction false} WordIsStl(ctx: Context, name: string, extra: string, types: seq<Kind>, k: nat)
    requires Accepts(ctx, Stl, name) && '>' !in extra
    requires k < |types| && types[k] == Stl
    requires forall i :: 0 <= i < k ==> types[i].MainHeader? || types[i].Python? || types[i].C?
    ensures var text := Written(Keyword(Stl), Quoted(Stl), name, extra);
      FirstMatch(ctx, text, types) == Include(Stl, text)
    decreases k
  {
    if k == 0 {
      ParseWritten(Stl, name, extra, Stl);
    } else {
      PassedOver(ctx, name, extra, types);
      WordIsStl(ctx, name, extra, types[1..], k - 1);
    }
  }

  lemma {:induction false} RenamedIsStable(ctx: Context, name: string, extra: string)
    requires name in CPP_C_HEADERS && '>' !in extra
    ensures var text := Written(Keyword(Stl), Quoted(Stl), CPP_C_HEADERS[name], extra);
      FirstMatch(ctx, text, TYPES) == Include(Stl, text)
  {
    HeadersAreWords(name);
    WordIsStl(ctx, CPP_C_HEADERS[name], extra, TYPES, 3);
  }

  lemma {:induction false} WrittenNotBlank(kind: Kind, name: string, extra: string)
    ensures var text := Written(Keyword(kind), Quoted(kind), name, extra); text != "" && !Blank(text)
  {
    var text := Written(Keyword(kind), Quoted(kind), name, extra);
    assert text[0] == Keyword(kind)[0];
  }

  /** A line the sorter writes is recognised again, as the same line of the same type. */
  lemma {:induction false} WrittenIsStable(ctx: Context, line: string)
    requires MatchLine(ctx, line).Include?
    ensures var m := MatchLine(ctx, line);
      MatchLine(ctx, m.text) == m && !Blank(m.text)
  {
    var kind, name, extra := MatchedBy(ctx, line, TYPES);
    if Renamed(ctx, kind, name) {
      RenamedIsStable(ctx, name, extra);
      WrittenNotBlank(Stl, CPP_C_HEADERS[name], extra);
    } else {
      WrittenNotBlank(kind, name, extra);
    }
  }

  // ----- Which lines are of which type

  /** Line is how the file of that name is included, in the delimiters of the type. */
  ghost predicate Includes(line: string, kind: Kind, name: string, extra: string) {
    Closing(Quoted(kind)) !in extra && line == Written(Keyword(kind), Quoted(kind), name, extra)
  }

  /** The matcher of the type does not take the line apart, or the type does not accept the name. */
  predicate Refuses(ctx: Context, kind: Kind, name: string, other: Kind) {
    Keyword(other) != Keyword(kind) || Quoted(other) != Quoted(kind) || !Accepts(ctx, other, name)
  }

  lemma {:induction false} PassType(ctx: Context, line: string, kind: Kind, name: string, extra: string,
                                    other: Kind, rest: seq<Kind>)
    requires Includes(line, kind, name, extra) && Refuses(ctx, kind, name, other)
    ensures FirstMatch(ctx, line, [other] + rest) == FirstMatch(ctx, line, rest)
  {
    assert ([other] + rest)[1..] == rest;
    ParseWritten(kind, name, extra, other);
  }

  lemma {:induction false} TakeType(ctx: Context, line: string, kind: Kind, name: string, extra: string, rest: seq<Kind>)
    requires Includes(line, kind, name, extra) && Accepts(ctx, kind, name)
    ensures !Renamed(ctx, kind, name) ==> FirstMatch(ctx, line, [kind] + rest) == Include(kind, line)
    ensures Renamed(ctx, kind, name) ==>
      FirstMatch(ctx, line, [kind] + rest) == Include(Stl, Written("#include", false, CPP_C_HEADERS[name], extra))
  {
    ParseWritten(kind, name, extra, kind);
  }

  const SWIG: seq<Kind> := [Swig0] + ([Swig1] + ([Swig2] + ([Swig3] + [])))

  /** The swig types do not take an #include line apart. */
  lemma {:induction false} NoSwig(ctx: Context, line: string, kind: Kind, name: string, extra: string)
    requires Includes(line, kind, name, extra) && Keyword(kind) == "#include"
    ensures FirstMatch(ctx, line, SWIG) == Plain
  {
    assert "#include"[0] == '#' && "%import"[0] == '%' && "%include"[0] == '%';
    PassType(ctx, line, kind, name, extra, Swig3, []);
    PassType(ctx, line, kind, name, extra, Swig2, [Swig3] + []);
    PassType(ctx, line, kind, name, extra, Swig1, [Swig2] + ([Swig3] + []));
    PassType(ctx, line, kind, name, extra, Swig0, [Swig1] + ([Swig2] + ([Swig3] + [])));
  }

  /** The types that are tried in turn */
  const FROM_STL: seq<Kind> := [Stl] + ([Cc] + ([M5Header] + SWIG))

  const IN_TURN: seq<Kind> := [MainHeader] + ([Python] + ([C] + FROM_STL))

  lemma {:induction false} TypesInTurn()
    ensures TYPES == IN_TURN
  {
  }

  lemma {:induction false} MatchInTurn(ctx: Context, line: string, kind: Kind, name: string, extra: string)
    requires Includes(line, kind, name, extra)
    ensures MatchLine(ctx, line) == FirstMatch(ctx, line, IN_TURN)
  {
    TypesInTurn();
  }

  lemma {:induction false} AngleRest(ctx: Context, line: string, name: string, extra: string)
    requires Includes(line, C, name, extra)
    ensures Accepts(ctx, Stl, name) ==> FirstMatch(ctx, line, FROM_STL) == Include(Stl, line)
    ensures !Accepts(ctx, Stl, name) && Accepts(ctx, Cc, name) ==> FirstMatch(ctx, line, FROM_STL) == Include(Cc, line)
    ensures !Accepts(ctx, Stl, name) && !Accepts(ctx, Cc, name) ==> FirstMatch(ctx, line, FROM_STL) == Plain
  {
    if Accepts(ctx, Stl, name) {
      TakeType(ctx, line, Stl, name, extra, [Cc] + ([M5Header] + SWIG));
    } else {
      PassType(ctx, line, C, name, extra, Stl, [Cc] + ([M5Header] + SWIG));
      if Accepts(ctx, Cc, name) {
        TakeType(ctx, line, Cc, name, extra, [M5Header] + SWIG);
      } else {
        PassType(ctx, line, C, name, extra, Cc, [M5Header] + SWIG);
        PassType(ctx, line, C, name, extra, M5Header, SWIG);
        NoSwig(ctx, line, C, name, extra);
      }
    }
  }

  /** A file in angle brackets: Python's header, then by its ending; a plain word is a library's. */
  lemma {:induction false} AngleLine(ctx: Context, line: string, name: string, extra: string)
    requires '>' !in extra && line == "#include" + " " + "<" + name + ">" + extra
    ensures name == "Python.h" ==> MatchLine(ctx, line) == Include(Python, line)
    ensures name != "Python.h" && EndsIn(name, ".h") && !(ctx.cpp && name in CPP_C_HEADERS) ==>
      MatchLine(ctx, line) == Include(C, line)
    ensures name != "Python.h" && EndsIn(name, ".h") && ctx.cpp && name in CPP_C_HEADERS ==>
      MatchLine(ctx, line) == Include(Stl, "#include" + " " + "<" + CPP_C_HEADERS[name] + ">" + extra)
    ensures name != "Python.h" && !EndsIn(name, ".h") ==>
      MatchLine(ctx, line) ==
        if name != "" && forall i :: 0 <= i < |name| ==> IsWord(name[i]) then Include(Stl, line)
        else if EndsIn(name, ".hh") || EndsIn(name, ".hxx") || EndsIn(name, ".hpp") || EndsIn(name, ".H") then Include(Cc, line)
        else Plain
  {
    assert Includes(line, C, name, extra);
    MatchInTurn(ctx, line, C, name, extra);
    AngleFirst(ctx, line, name, extra);
    if name != "Python.h" && !EndsIn(name, ".h") {
      AngleRest(ctx, line, name, extra);
    }
  }

  lemma {:induction false} AngleFirst(ctx: Context, line: string, name: string, extra: string)
    requires Includes(line, C, name, extra)
    ensures name == "Python.h" ==> FirstMatch(ctx, line, IN_TURN) == Include(Python, line)
    ensures name != "Python.h" && EndsIn(name, ".h") && !Renamed(ctx, C, name) ==>
      FirstMatch(ctx, line, IN_TURN) == Include(C, line)
    ensures name != "Python.h" && EndsIn(name, ".h") && Renamed(ctx, C, name) ==>
      FirstMatch(ctx, line, IN_TURN) == Include(Stl, Written("#include", false, CPP_C_HEADERS[name], extra))
    ensures name != "Python.h" && !EndsIn(name, ".h") ==>
      FirstMatch(ctx, line, IN_TURN) == FirstMatch(ctx, line, FROM_STL)
  {
    PassType(ctx, line, C, name, extra, MainHeader, [Python] + ([C] + FROM_STL));
    if name == "Python.h" {
      TakeType(ctx, line, Python, name, extra, [C] + FROM_STL);
    } else {
      PassType(ctx, line, C, name, extra, Python, [C] + FROM_STL);
      if EndsIn(name, ".h") {
        TakeType(ctx, line, C, name, extra, FROM_STL);
      } else {
        PassType(ctx, line, C, name, extra, C, FROM_STL);
      }
    }
  }

  lemma {:induction false} QuotedRest(ctx: Context, line: string, name: string, extra: string)
    requires Includes(line, M5Header, name, extra)
    ensures FirstMatch(ctx, line, FROM_STL) == if Accepts(ctx, M5Header, name) then Include(M5Header, line) else Plain
  {
    PassType(ctx, line, M5Header, name, extra, Stl, [Cc] + ([M5Header] + SWIG));
    PassType(ctx, line, M5Header, name, extra, Cc, [M5Header] + SWIG);
    if Accepts(ctx, M5Header, name) {
      TakeType(ctx, line, M5Header, name, extra, SWIG);
    } else {
      PassType(ctx, line, M5Header, name, extra, M5Header, SWIG);
      NoSwig(ctx, line, M5Header, name, extra);
    }
  }

  /** A file in quotes: the own header first, else a header of the simulator by its ending. */
  lemma {:induction false} QuotedLine(ctx: Context, line: string, name: string, extra: string)
    requires '\"' !in extra && line == "#include" + " " + "\"" + name + "\"" + extra
    ensures ctx.ownHeader == Some(name) ==> MatchLine(ctx, line) == Include(MainHeader, line)
    ensures ctx.ownHeader != Some(name) && (EndsIn(name, ".h") || EndsIn(name, ".hh")) ==>
      MatchLine(ctx, line) == Include(M5Header, line)
    ensures ctx.ownHeader != Some(name) && !EndsIn(name, ".h") && !EndsIn(name, ".hh") ==> MatchLine(ctx, line) == Plain
  {
    assert Includes(line, M5Header, name, extra);
    MatchInTurn(ctx, line, M5Header, name, extra);
    QuotedFirst(ctx, line, name, extra);
    QuotedRest(ctx, line, name, extra);
  }

  lemma {:induction false} QuotedFirst(ctx: Context, line: string, name: string, extra: string)
    requires Includes(line, M5Header, name, extra)
    ensures ctx.ownHeader == Some(name) ==> FirstMatch(ctx, line, IN_TURN) == Include(MainHeader, line)
    ensures ctx.ownHeader != Some(name) ==> FirstMatch(ctx, line, IN_TURN) == FirstMatch(ctx, line, FROM_STL)
  {
    if ctx.ownHeader == Some(name) {
      TakeType(ctx, line, MainHeader, name, extra, [Python] + ([C] + FROM_STL));
    } else {
      PassType(ctx, line, M5Header, name, extra, MainHeader, [Python] + ([C] + FROM_STL));
      PassType(ctx, line, M5Header, name, extra, Python, [C] + FROM_STL);
      PassType(ctx, line, M5Header, name, extra, C, FROM_STL);
    }
  }
}
