/**
  * The highlight language server (highlight-lsp/src/main.rs), run sequentially: the
  * pattern store, the document table and `find_matches`, which turns the patterns' regex
  * matches into semantic tokens.
  *
  * The regex crate is outside the model: `RegexEngine` carries `regex::escape`,
  * `Regex::new` and `find_iter` as functions, and all that is known of them is that
  * `find_iter` reports spans inside the line it searched.
  */
module HighlightLsp {
  import opened Wrappers
  import opened Strings
  import opened TokenOrder

  /** A highlight rule as the `highlight.add` command delivers it. */
  datatype HighlightPattern = HighlightPattern(
    pattern: string,
    caseSensitive: bool,
    wholeWord: bool,
    isRegex: bool,
    colorIndex: nat)

  /** A match reported by `find_iter`: byte offsets `start..end` within the searched line. */
  datatype Span = Span(start: nat, end: nat)

  /** The regex crate: `regex::escape`, `Regex::new` (failing with `None`) and `Regex::find_iter`. */
  datatype RegexEngine<!M(!new)> = RegexEngine(
    escape: string -> string,
    compile: string -> Option<M>,
    findIter: (M, string) -> seq<Span>)
  {
    /** Every span `find_iter` reports lies inside the line it searched. */
    ghost predicate WellBehaved()
    {
      forall regex: M, line: string :: SpansWithin(findIter(regex, line), |line|)
    }
  }

  ghost predicate SpansWithin(spans: seq<Span>, width: nat)
  {
    forall i :: 0 <= i < |spans| ==> spans[i].start <= spans[i].end <= width
  }

  /** The number of token types in the server's legend; pattern `i` gets type `i % 8`. */
  const TokenTypeCount: nat := 8

  /** The regex source `find_matches` builds for a pattern. */
  function RegexSource(p: HighlightPattern, escape: string -> string): string
  {
    var core :=
      if p.isRegex then p.pattern
      else if p.wholeWord then "\\b" + escape(p.pattern) + "\\b"
      else escape(p.pattern);
    if p.caseSensitive then core else "(?i)" + core
  }

  /** Clearing `case_sensitive` adds exactly the `(?i)` prefix. */
  lemma RegexSourceCaseInsensitive(p: HighlightPattern, escape: string -> string)
    ensures RegexSource(p.(caseSensitive := false), escape)
         == "(?i)" + RegexSource(p.(caseSensitive := true), escape)
  {
  }

  /** A regex pattern is used verbatim and its `whole_word` flag is ignored. */
  lemma RegexSourceVerbatim(p: HighlightPattern, escape: string -> string, wholeWord: bool)
    requires p.isRegex
    ensures RegexSource(p.(caseSensitive := true), escape) == p.pattern
    ensures RegexSource(p.(wholeWord := wholeWord), escape) == RegexSource(p, escape)
  {
  }

  /** A literal pattern is escaped, and `whole_word` wraps the escaped text in `\b` anchors. */
  lemma RegexSourceLiteral(p: HighlightPattern, escape: string -> string)
    requires !p.isRegex
    ensures RegexSource(p.(caseSensitive := true, wholeWord := false), escape) == escape(p.pattern)
    ensures RegexSource(p.(caseSensitive := true, wholeWord := true), escape)
         == "\\b" + escape(p.pattern) + "\\b"
  {
  }

  /** One pushed match: line index, start offset, length and the index of its pattern. */
  datatype RawMatch = RawMatch(line: nat, start: nat, length: nat, patternIdx: nat)

  /** The matches of one `find_iter` call, in its order. */
  function SpanMatches(spans: seq<Span>, line: nat, patternIdx: nat): seq<RawMatch>
    requires forall i :: 0 <= i < |spans| ==> spans[i].start <= spans[i].end
  {
    seq(|spans|, i requires 0 <= i < |spans| =>
      RawMatch(line, spans[i].start, spans[i].end - spans[i].start, patternIdx))
  }

  /** The matches of one compiled pattern on `lines`, line by line. */
  function LineMatches<M(!new)>(engine: RegexEngine<M>, regex: M, lines: seq<string>, patternIdx: nat): seq<RawMatch>
    requires engine.WellBehaved()
  {
    if |lines| == 0 then []
    else
      var last := |lines| - 1;
      var spans := engine.findIter(regex, lines[last]);
      assert SpansWithin(spans, |lines[last]|);
      LineMatches(engine, regex, lines[..last], patternIdx) + SpanMatches(spans, last, patternIdx)
  }

  /** The matches of pattern number `patternIdx`: none when its regex does not compile. */
  function PatternMatches<M(!new)>(engine: RegexEngine<M>, p: HighlightPattern, patternIdx: nat, lines: seq<string>): seq<RawMatch>
    requires engine.WellBehaved()
  {
    match engine.compile(RegexSource(p, engine.escape))
    case None => []
    case Some(regex) => LineMatches(engine, regex, lines, patternIdx)
  }

  /** The matches of all patterns, pattern by pattern, in the order `find_matches` pushes them. */
  function AllMatches<M(!new)>(engine: RegexEngine<M>, patterns: seq<HighlightPattern>, lines: seq<string>): seq<RawMatch>
    requires engine.WellBehaved()
  {
    if |patterns| == 0 then []
    else
      var last := |patterns| - 1;
      AllMatches(engine, patterns[..last], lines) + PatternMatches(engine, patterns[last], last, lines)
  }

  /**
    * The token pushed for a match. Only the very first token pushed gets the match's
    * line index as `delta_line`; every later one gets 0.
    */
  function TokenOf(m: RawMatch, first: bool): SemanticToken
  {
    SemanticToken(if first then m.line else 0, m.start, m.length, m.patternIdx % TokenTypeCount, 0)
  }

  function PushedTokens(ms: seq<RawMatch>): (tokens: seq<SemanticToken>)
    ensures |tokens| == |ms|
    ensures forall i :: 0 <= i < |ms| ==> tokens[i].deltaStart == ms[i].start && tokens[i].length == ms[i].length
  {
    seq(|ms|, i requires 0 <= i < |ms| => TokenOf(ms[i], i == 0))
  }

  /** What `find_matches` returns for `text`. */
  function FindMatchesResult<M(!new)>(engine: RegexEngine<M>, patterns: seq<HighlightPattern>, text: string): seq<SemanticToken>
    requires engine.WellBehaved()
  {
    SortByPosition(PushedTokens(AllMatches(engine, patterns, Lines(text))))
  }

  lemma PushedTokensSnoc(ms: seq<RawMatch>, m: RawMatch)
    ensures PushedTokens(ms + [m]) == PushedTokens(ms) + [TokenOf(m, |ms| == 0)]
  {
  }

  /**
    * The "convert to delta encoding" loop of `find_matches`. It recomputes each token's
    * absolute position from the running `prev_line`/`prev_start` and subtracts the same
    * values again, so it changes nothing (in unbounded arithmetic; with `u32` a release build
    * wraps and gets the same values back, a debug build panics on overflow).
    */
  method ConvertToDeltaEncoding(tokens: seq<SemanticToken>) returns (result: seq<SemanticToken>)
    ensures result == tokens
  {
    result := tokens;
    var prevLine: nat, prevStart: nat := 0, 0;
    for i := 0 to |result|
      invariant result == tokens
    {
      var token := result[i];
      var line := prevLine + token.deltaLine;
      var start := if token.deltaLine == 0 then prevStart + token.deltaStart else token.deltaStart;
      token := token.(deltaLine := line - prevLine);
      token := token.(deltaStart := start - if token.deltaLine == 0 then prevStart else 0);
      result := result[i := token];
      prevLine, prevStart := line, start;
    }
  }

  /**
    * The innermost loop of `find_matches`: one token pushed per match of `spans`, the
    * matches of pattern `patternIdx` on line `lineIdx`.
    */
  method PushSpanTokens(tokens: seq<SemanticToken>, ghost pushed: seq<RawMatch>, spans: seq<Span>, lineIdx: nat, patternIdx: nat)
    returns (result: seq<SemanticToken>)
    requires forall i :: 0 <= i < |spans| ==> spans[i].start <= spans[i].end
    requires tokens == PushedTokens(pushed)
    ensures result == PushedTokens(pushed + SpanMatches(spans, lineIdx, patternIdx))
  {
    result := tokens;
    ghost var done := pushed;
    for k := 0 to |spans|
      invariant done == pushed + SpanMatches(spans[..k], lineIdx, patternIdx)
      invariant result == PushedTokens(done)
    {
      var mat := spans[k];
      ghost var m := RawMatch(lineIdx, mat.start, mat.end - mat.start, patternIdx);
      PushedTokensSnoc(done, m);
      result := result + [SemanticToken(
        if |result| == 0 then lineIdx else 0,
        mat.start,
        mat.end - mat.start,
        patternIdx % TokenTypeCount,
        0)];
      assert SpanMatches(spans[..k + 1], lineIdx, patternIdx) == SpanMatches(spans[..k], lineIdx, patternIdx) + [m];
      done := done + [m];
    }
    assert spans[..|spans|] == spans;
  }

  /** The loop over the lines of `find_matches`, for one compiled pattern. */
  method PushPatternTokens<M(!new)>(tokens: seq<SemanticToken>, ghost pushed: seq<RawMatch>, engine: RegexEngine<M>,
                                   regex: M, lines: seq<string>, patternIdx: nat)
    returns (result: seq<SemanticToken>)
    requires engine.WellBehaved()
    requires tokens == PushedTokens(pushed)
    ensures result == PushedTokens(pushed + LineMatches(engine, regex, lines, patternIdx))
  {
    result := tokens;
    for lineIdx := 0 to |lines|
      invariant result == PushedTokens(pushed + LineMatches(engine, regex, lines[..lineIdx], patternIdx))
    {
      assert lines[..lineIdx + 1][..lineIdx] == lines[..lineIdx];
      var spans := engine.findIter(regex, lines[lineIdx]);
      assert SpansWithin(spans, |lines[lineIdx]|);
      result := PushSpanTokens(result, pushed + LineMatches(engine, regex, lines[..lineIdx], patternIdx), spans, lineIdx, patternIdx);
      assert LineMatches(engine, regex, lines[..lineIdx + 1], patternIdx)
          == LineMatches(engine, regex, lines[..lineIdx], patternIdx) + SpanMatches(spans, lineIdx, patternIdx);
    }
    assert lines[..|lines|] == lines;
  }

  /**
    * `Backend::find_matches`: for each pattern whose regex compiles, for each line, one
    * token per match; then the stable sort by `(delta_line, delta_start)` and the delta loop.
    */
  method FindMatches<M(!new)>(patterns: seq<HighlightPattern>, text: string, engine: RegexEngine<M>)
    returns (tokens: seq<SemanticToken>)
    requires engine.WellBehaved()
    ensures tokens == FindMatchesResult(engine, patterns, text)
  {
    tokens := [];
    for patternIdx := 0 to |patterns|
      invariant tokens == PushedTokens(AllMatches(engine, patterns[..patternIdx], Lines(text)))
    {
      assert patterns[..patternIdx + 1][..patternIdx] == patterns[..patternIdx];
      var pattern := patterns[patternIdx];
      var compiled := engine.compile(RegexSource(pattern, engine.escape));
      if compiled.Some? {
        var regex := compiled.value;
        var lines := Lines(text);
        tokens := PushPatternTokens(tokens, AllMatches(engine, patterns[..patternIdx], lines), engine, regex, lines, patternIdx);
      }
    }
    assert patterns[..|patterns|] == patterns;
    tokens := SortByPosition(tokens);
    tokens := ConvertToDeltaEncoding(tokens);
  }

  /** Where and from which pattern a match comes: inside an existing line, for an existing pattern. */
  ghost predicate MatchesWithin(ms: seq<RawMatch>, patternCount: nat, lines: seq<string>)
  {
    forall i :: 0 <= i < |ms| ==>
      ms[i].patternIdx < patternCount && ms[i].line < |lines| && ms[i].start + ms[i].length <= |lines[ms[i].line]|
  }

  /** Push order: by pattern index, and within one pattern by line. */
  ghost predicate InPushOrder(ms: seq<RawMatch>)
  {
    forall i, j :: 0 <= i < j < |ms| ==>
      ms[i].patternIdx < ms[j].patternIdx || (ms[i].patternIdx == ms[j].patternIdx && ms[i].line <= ms[j].line)
  }

  lemma {:induction false} LineMatchesFacts<M(!new)>(engine: RegexEngine<M>, regex: M, lines: seq<string>, patternIdx: nat)
    requires engine.WellBehaved()
    ensures MatchesWithin(LineMatches(engine, regex, lines, patternIdx), patternIdx + 1, lines)
    ensures forall i :: 0 <= i < |LineMatches(engine, regex, lines, patternIdx)| ==>
              LineMatches(engine, regex, lines, patternIdx)[i].patternIdx == patternIdx
    ensures InPushOrder(LineMatches(engine, regex, lines, patternIdx))
  {
    if |lines| > 0 {
      var last := |lines| - 1;
      var spans := engine.findIter(regex, lines[last]);
      assert SpansWithin(spans, |lines[last]|);
      LineMatchesFacts(engine, regex, lines[..last], patternIdx);
      var before := LineMatches(engine, regex, lines[..last], patternIdx);
      var here := SpanMatches(spans, last, patternIdx);
      assert LineMatches(engine, regex, lines, patternIdx) == before + here;
      forall i | 0 <= i < |before| ensures before[i].line < last && lines[before[i].line] == lines[..last][before[i].line] {
      }
    }
  }

  /**
    * Every match is a span inside an existing line, for an existing pattern, and the
    * matches come pattern by pattern and, within a pattern, line by line.
    */
  lemma {:induction false} AllMatchesFacts<M(!new)>(engine: RegexEngine<M>, patterns: seq<HighlightPattern>, lines: seq<string>)
    requires engine.WellBehaved()
    ensures MatchesWithin(AllMatches(engine, patterns, lines), |patterns|, lines)
    ensures InPushOrder(AllMatches(engine, patterns, lines))
  {
    if |patterns| > 0 {
      var last := |patterns| - 1;
      AllMatchesFacts(engine, patterns[..last], lines);
      var before := AllMatches(engine, patterns[..last], lines);
      var here := PatternMatches(engine, patterns[last], last, lines);
      match engine.compile(RegexSource(patterns[last], engine.escape))
      case None =>
      case Some(regex) =>
        LineMatchesFacts(engine, regex, lines, last);
      assert AllMatches(engine, patterns, lines) == before + here;
    }
  }

  /** The matches of pattern `k` on line `l`, in push order. */
  function Group(ms: seq<RawMatch>, k: nat, l: nat): seq<RawMatch>
  {
    if |ms| == 0 then []
    else (if ms[0].patternIdx == k && ms[0].line == l then [ms[0]] else []) + Group(ms[1..], k, l)
  }

  lemma {:induction false} GroupConcat(a: seq<RawMatch>, b: seq<RawMatch>, k: nat, l: nat)
    ensures Group(a + b, k, l) == Group(a, k, l) + Group(b, k, l)
  {
    if |a| > 0 {
      GroupConcat(a[1..], b, k, l);
      assert (a + b)[1..] == a[1..] + b;
    } else {
      assert a + b == b;
    }
  }

  lemma {:induction false} GroupOfSpanMatches(spans: seq<Span>, line: nat, patternIdx: nat, k: nat, l: nat)
    requires forall i :: 0 <= i < |spans| ==> spans[i].start <= spans[i].end
    ensures Group(SpanMatches(spans, line, patternIdx), k, l)
         == if k == patternIdx && l == line then SpanMatches(spans, line, patternIdx) else []
  {
    if |spans| > 0 {
      GroupOfSpanMatches(spans[1..], line, patternIdx, k, l);
      assert SpanMatches(spans, line, patternIdx)[1..] == SpanMatches(spans[1..], line, patternIdx);
    }
  }

  lemma {:induction false} GroupOfLineMatches<M(!new)>(engine: RegexEngine<M>, regex: M, lines: seq<string>, patternIdx: nat, k: nat, l: nat)
    requires engine.WellBehaved()
    ensures Group(LineMatches(engine, regex, lines, patternIdx), k, l)
         == if k == patternIdx && l < |lines| then
              assert SpansWithin(engine.findIter(regex, lines[l]), |lines[l]|);
              SpanMatches(engine.findIter(regex, lines[l]), l, patternIdx)
            else []
  {
    if |lines| > 0 {
      var last := |lines| - 1;
      var spans := engine.findIter(regex, lines[last]);
      assert SpansWithin(spans, |lines[last]|);
      GroupOfLineMatches(engine, regex, lines[..last], patternIdx, k, l);
      GroupConcat(LineMatches(engine, regex, lines[..last], patternIdx), SpanMatches(spans, last, patternIdx), k, l);
      GroupOfSpanMatches(spans, last, patternIdx, k, l);
    }
  }

  /**
    * The matches `find_matches` pushes for pattern `k` on line `l`: those of `find_iter`
    * on that line, in its order, when the pattern's regex compiles, and none otherwise.
    */
  ghost function ExpectedGroup<M(!new)>(engine: RegexEngine<M>, patterns: seq<HighlightPattern>, lines: seq<string>, k: nat, l: nat): seq<RawMatch>
    requires engine.WellBehaved()
  {
    if k < |patterns| && l < |lines| then
      match engine.compile(RegexSource(patterns[k], engine.escape))
      case None => []
      case Some(regex) =>
        assert SpansWithin(engine.findIter(regex, lines[l]), |lines[l]|);
        SpanMatches(engine.findIter(regex, lines[l]), l, k)
    else []
  }

  /**
    * Each pattern contributes exactly the matches of its own regex, line by line, whatever
    * the other patterns are: a pattern that fails to compile contributes nothing and does
    * not stop the later ones. With `AllMatchesFacts` this fixes the whole push order.
    */
  lemma {:induction false} AllMatchesGroups<M(!new)>(engine: RegexEngine<M>, patterns: seq<HighlightPattern>, lines: seq<string>, k: nat, l: nat)
    requires engine.WellBehaved()
    ensures Group(AllMatches(engine, patterns, lines), k, l) == ExpectedGroup(engine, patterns, lines, k, l)
  {
    if |patterns| > 0 {
      var last := |patterns| - 1;
      AllMatchesGroups(engine, patterns[..last], lines, k, l);
      GroupConcat(AllMatches(engine, patterns[..last], lines), PatternMatches(engine, patterns[last], last, lines), k, l);
      match engine.compile(RegexSource(patterns[last], engine.escape))
      case None =>
      case Some(regex) =>
        GroupOfLineMatches(engine, regex, lines, last, k, l);
    }
  }

  /** A pattern whose regex does not compile contributes no match at all. */
  lemma {:induction false} FailedPatternContributesNothing<M(!new)>(engine: RegexEngine<M>, patterns: seq<HighlightPattern>, lines: seq<string>, k: nat)
    requires engine.WellBehaved()
    requires k < |patterns| && engine.compile(RegexSource(patterns[k], engine.escape)).None?
    ensures forall i :: 0 <= i < |AllMatches(engine, patterns, lines)| ==>
              AllMatches(engine, patterns, lines)[i].patternIdx != k
    ensures forall j: nat, l: nat :: j != k ==>
              Group(AllMatches(engine, patterns, lines), j, l) == ExpectedGroup(engine, patterns, lines, j, l)
  {
    forall j: nat, l: nat | j != k
      ensures Group(AllMatches(engine, patterns, lines), j, l) == ExpectedGroup(engine, patterns, lines, j, l)
    {
      AllMatchesGroups(engine, patterns, lines, j, l);
    }
    var last := |patterns| - 1;
    var before := AllMatches(engine, patterns[..last], lines);
    var here := PatternMatches(engine, patterns[last], last, lines);
    assert AllMatches(engine, patterns, lines) == before + here;
    if k == last {
      AllMatchesFacts(engine, patterns[..last], lines);
    } else {
      FailedPatternContributesNothing(engine, patterns[..last], lines, k);
      match engine.compile(RegexSource(patterns[last], engine.escape))
      case None =>
      case Some(regex) =>
        LineMatchesFacts(engine, regex, lines, last);
    }
  }

  /** The tokens as pushed: only the first carries its line. */
  lemma PushedTokensFacts(ms: seq<RawMatch>)
    ensures var tokens := PushedTokens(ms);
            && (forall t :: t in tokens ==> t.tokenType < TokenTypeCount && t.tokenModifiersBitset == 0)
            && (|ms| > 0 ==> (forall t :: t in tokens[1..] ==> t.deltaLine == 0) && tokens[0].deltaLine == ms[0].line)
  {
  }

  /** When the first match lies on line 0 every pushed token has `delta_line` 0, and so has the sorted result. */
  lemma SortedShapeOnLineZero(ms: seq<RawMatch>)
    requires |ms| > 0 && ms[0].line == 0
    ensures var out := SortByPosition(PushedTokens(ms));
            forall i :: 0 <= i < |out| ==> out[i].deltaLine == 0
  {
    var tokens := PushedTokens(ms);
    PushedTokensFacts(ms);
    assert forall t :: t in tokens ==> t == tokens[0] || t in tokens[1..];
    SortByPositionMembers(tokens);
  }

  /** When the first match lies below line 0 its token sorts last, behind tokens that all have `delta_line` 0. */
  lemma SortedShapeBelowLineZero(ms: seq<RawMatch>)
    requires |ms| > 0 && ms[0].line > 0
    ensures var tokens := PushedTokens(ms);
            var out := SortByPosition(tokens);
            && out == SortByPosition(tokens[1..]) + [tokens[0]]
            && forall i :: 0 <= i < |out| - 1 ==> out[i].deltaLine == 0
  {
    var tokens := PushedTokens(ms);
    var rest := tokens[1..];
    PushedTokensFacts(ms);
    assert tokens == [tokens[0]] + rest;
    assert forall i :: 0 <= i < |rest| ==> rest[i] in rest;
    SortPutsLaterLineLast(tokens[0], rest);
    SortByPositionMembers(rest);
    var sorted := SortByPosition(rest);
    assert forall i :: 0 <= i < |sorted| ==> sorted[i] in sorted;
  }

  /** The sorted pushed tokens of any match sequence; see `FindMatchesShape`. */
  lemma SortedPushedTokensShape(ms: seq<RawMatch>)
    ensures var out := SortByPosition(PushedTokens(ms));
            && |out| == |ms|
            && (forall t :: t in out ==> t.tokenType < TokenTypeCount && t.tokenModifiersBitset == 0)
            && (forall i :: 0 <= i < |out| - 1 ==> out[i].deltaLine == 0)
            && (|ms| > 0 ==> out[|out| - 1].deltaLine == ms[0].line)
            && (|ms| > 0 && ms[0].line > 0 ==>
                  out == SortByPosition(PushedTokens(ms)[1..]) + [PushedTokens(ms)[0]])
  {
    PushedTokensFacts(ms);
    SortByPositionMembers(PushedTokens(ms));
    if |ms| > 0 {
      if ms[0].line == 0 {
        SortedShapeOnLineZero(ms);
      } else {
        SortedShapeBelowLineZero(ms);
      }
    }
  }

  /**
    * What the tokens `find_matches` returns look like: every token type is below 8 and no
    * modifier is set; `delta_line` is 0 on every token except possibly the last, which
    * carries the line of the first match pushed; and when that line is not 0 the first
    * pushed token is moved to the end, the others being sorted by `delta_start` alone.
    */
  lemma FindMatchesShape<M(!new)>(engine: RegexEngine<M>, patterns: seq<HighlightPattern>, text: string)
    requires engine.WellBehaved()
    ensures var ms := AllMatches(engine, patterns, Lines(text));
            var out := FindMatchesResult(engine, patterns, text);
            && |out| == |ms|
            && (forall t :: t in out ==> t.tokenType < TokenTypeCount && t.tokenModifiersBitset == 0)
            && (forall i :: 0 <= i < |out| - 1 ==> out[i].deltaLine == 0)
            && (|ms| > 0 ==> out[|out| - 1].deltaLine == ms[0].line)
            && (|ms| > 0 && ms[0].line > 0 ==>
                  out == SortByPosition(PushedTokens(ms)[1..]) + [PushedTokens(ms)[0]])
  {
    SortedPushedTokensShape(AllMatches(engine, patterns, Lines(text)));
  }

  /** The lines of "foo\nbar foo". */
  lemma FooBarFooLines()
    ensures Lines("foo\nbar foo") == ["foo", "bar foo"]
  {
    var text := "foo" + ['\n'] + "bar foo";
    assert "foo\nbar foo" == text;
    assert '\n' !in "foo" && '\n' !in "bar foo";
    SplitAtSeparator("foo", "bar foo", '\n');
    SplitWithoutSeparator("bar foo", '\n');
    var pieces := Split(text, '\n');
    assert pieces == ["foo", "bar foo"];
    assert pieces[|pieces| - 1] != "";
  }

  /** The matches `find_iter` reports for the pattern "foo" on "foo\nbar foo". */
  lemma FooMatches<M(!new)>(engine: RegexEngine<M>, regex: M)
    requires engine.WellBehaved()
    requires engine.compile(RegexSource(HighlightPattern("foo", true, false, false, 0), engine.escape)) == Some(regex)
    requires engine.findIter(regex, "foo") == [Span(0, 3)]
    requires engine.findIter(regex, "bar foo") == [Span(4, 7)]
    ensures AllMatches(engine, [HighlightPattern("foo", true, false, false, 0)], ["foo", "bar foo"])
         == [RawMatch(0, 0, 3, 0), RawMatch(1, 4, 3, 0)]
  {
    var p := HighlightPattern("foo", true, false, false, 0);
    var lines := ["foo", "bar foo"];
    assert [p][..0] == [];
    assert lines[..1] == ["foo"];
    assert lines[..1][..0] == [];
    assert LineMatches(engine, regex, lines[..1], 0) == [RawMatch(0, 0, 3, 0)];
    assert LineMatches(engine, regex, lines, 0) == [RawMatch(0, 0, 3, 0), RawMatch(1, 4, 3, 0)];
  }

  lemma FooTokensSorted()
    ensures SortByPosition(PushedTokens([RawMatch(0, 0, 3, 0), RawMatch(1, 4, 3, 0)]))
         == [SemanticToken(0, 0, 3, 0, 0), SemanticToken(0, 4, 3, 0, 0)]
  {
    var tokens := PushedTokens([RawMatch(0, 0, 3, 0), RawMatch(1, 4, 3, 0)]);
    assert tokens == [SemanticToken(0, 0, 3, 0, 0), SemanticToken(0, 4, 3, 0, 0)];
    assert tokens[1..] == [SemanticToken(0, 4, 3, 0, 0)];
    assert tokens[1..][1..] == [];
  }

  /**
    * With the one literal, case-sensitive pattern "foo" and the text "foo\nbar foo", whose
    * regex finds "foo" at 0 on line 0 and at 4 on line 1, both tokens come out on the same
    * line: the second is pushed with `delta_line` 0, so the output does not say that it
    * lies on line 1.
    */
  lemma LaterLineMatchReportedOnFirstLine<M(!new)>(engine: RegexEngine<M>, regex: M)
    requires engine.WellBehaved()
    requires engine.compile(RegexSource(HighlightPattern("foo", true, false, false, 0), engine.escape)) == Some(regex)
    requires engine.findIter(regex, "foo") == [Span(0, 3)]
    requires engine.findIter(regex, "bar foo") == [Span(4, 7)]
    ensures FindMatchesResult(engine, [HighlightPattern("foo", true, false, false, 0)], "foo\nbar foo")
         == [SemanticToken(0, 0, 3, 0, 0), SemanticToken(0, 4, 3, 0, 0)]
  {
    FooBarFooLines();
    FooMatches(engine, regex);
    FooTokensSorted();
  }

  /** With no patterns, every document gets no tokens. */
  lemma NoPatternsNoTokens<M(!new)>(engine: RegexEngine<M>, text: string)
    requires engine.WellBehaved()
    ensures FindMatchesResult(engine, [], text) == []
  {
  }

  /** `Vec::retain(|p| p.pattern != text)`: the entries whose pattern text differs, in order. */
  function Retain(patterns: seq<HighlightPattern>, text: string): (kept: seq<HighlightPattern>)
    ensures |kept| <= |patterns|
    ensures forall i :: 0 <= i < |kept| ==> kept[i].pattern != text
  {
    if |patterns| == 0 then []
    else (if patterns[0].pattern != text then [patterns[0]] else []) + Retain(patterns[1..], text)
  }

  /** `remove` drops every entry with that pattern text, whatever its flags, and keeps all others. */
  lemma {:induction false} RetainMembers(patterns: seq<HighlightPattern>, text: string)
    ensures forall p :: p in Retain(patterns, text) <==> p in patterns && p.pattern != text
  {
    if |patterns| > 0 {
      RetainMembers(patterns[1..], text);
      assert patterns == [patterns[0]] + patterns[1..];
    }
  }

  /** `remove` works entry by entry, so it keeps the order of what it keeps. */
  lemma {:induction false} RetainConcat(a: seq<HighlightPattern>, b: seq<HighlightPattern>, text: string)
    ensures Retain(a + b, text) == Retain(a, text) + Retain(b, text)
  {
    if |a| > 0 {
      RetainConcat(a[1..], b, text);
      assert (a + b)[1..] == a[1..] + b;
    } else {
      assert a + b == b;
    }
  }

  /** Removing a pattern text right after adding it leaves what removing it alone would. */
  lemma AddThenRemove(patterns: seq<HighlightPattern>, p: HighlightPattern)
    ensures Retain(patterns + [p], p.pattern) == Retain(patterns, p.pattern)
  {
    RetainConcat(patterns, [p], p.pattern);
    assert [p][1..] == [];
  }

  /** Removing twice is removing once. */
  lemma {:induction false} RetainIdempotent(patterns: seq<HighlightPattern>, text: string)
    ensures Retain(Retain(patterns, text), text) == Retain(patterns, text)
  {
    if |patterns| > 0 {
      RetainIdempotent(patterns[1..], text);
      var head := if patterns[0].pattern != text then [patterns[0]] else [];
      RetainConcat(head, Retain(patterns[1..], text), text);
    }
  }

  /**
    * The first argument of an `execute_command` request, decoded by serde either as a
    * `HighlightPattern` or as a `String` (`None` where the decode fails).
    */
  datatype CommandArgument = CommandArgument(asPattern: Option<HighlightPattern>, asText: Option<string>)

  /** Text of one content change; the server opens documents in full-sync mode. */
  datatype ContentChange = ContentChange(text: string)

  /** The server's state: the pattern store and the table of open documents by URI. */
  class Backend {
    var patterns: seq<HighlightPattern>
    var documents: map<string, string>

    constructor ()
      ensures patterns == [] && documents == map[]
    {
      patterns := [];
      documents := map[];
    }

    /** `did_open`: stores the document's text, replacing any text kept for that URI. */
    method DidOpen(uri: string, text: string)
      modifies this
      ensures documents == old(documents)[uri := text]
      ensures patterns == old(patterns)
    {
      documents := documents[uri := text];
    }

    /** `did_change`: stores the text of the first change; with no change nothing happens. */
    method DidChange(uri: string, changes: seq<ContentChange>)
      modifies this
      ensures documents == if |changes| == 0 then old(documents) else old(documents)[uri := changes[0].text]
      ensures patterns == old(patterns)
    {
      if |changes| > 0 {
        documents := documents[uri := changes[0].text];
      }
    }

    /** `semantic_tokens_full`: the tokens of a known document, `None` for an unknown URI. */
    method SemanticTokensFull<M(!new)>(uri: string, engine: RegexEngine<M>) returns (result: Option<seq<SemanticToken>>)
      requires engine.WellBehaved()
      ensures uri !in documents ==> result == None
      ensures uri in documents ==> result == Some(FindMatchesResult(engine, patterns, documents[uri]))
    {
      if uri in documents {
        var tokens := FindMatches(patterns, documents[uri], engine);
        result := Some(tokens);
      } else {
        result := None;
      }
    }

    /**
      * The pattern-store arms of `execute_command`: `highlight.add` appends the decoded
      * pattern (no deduplication), `highlight.remove` drops every entry with the decoded
      * pattern text, `highlight.clear` empties the store; an unknown command, a missing
      * argument or one that does not decode changes nothing.
      */
    method ExecuteCommand(command: string, firstArgument: Option<CommandArgument>)
      modifies this
      ensures documents == old(documents)
      ensures patterns ==
        if command == "highlight.add" && firstArgument.Some? && firstArgument.value.asPattern.Some? then
          old(patterns) + [firstArgument.value.asPattern.value]
        else if command == "highlight.remove" && firstArgument.Some? && firstArgument.value.asText.Some? then
          Retain(old(patterns), firstArgument.value.asText.value)
        else if command == "highlight.clear" then
          []
        else
          old(patterns)
    {
      if command == "highlight.add" {
        if firstArgument.Some? && firstArgument.value.asPattern.Some? {
          patterns := patterns + [firstArgument.value.asPattern.value];
        }
      } else if command == "highlight.remove" {
        if firstArgument.Some? && firstArgument.value.asText.Some? {
          patterns := Retain(patterns, firstArgument.value.asText.value);
        }
      } else if command == "highlight.clear" {
        patterns := [];
      }
    }
  }
}
