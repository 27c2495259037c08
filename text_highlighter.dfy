/**
  * The highlighter extension (src/lib.rs): a store of highlight entries kept under the
  * key "default", a round-robin cursor over an 8-colour palette, and the slash commands
  * that toggle, list and clear the entries. The `RwLock` around the state is left out:
  * the state is one object whose methods run one at a time.
  */
module TextHighlighter {
  import opened Wrappers
  import opened Strings

  /** The palette the extension starts with. */
  const Palette: seq<string> := ["#FFD700", "#FF6347", "#32CD32", "#FF1493", "#00CED1", "#9370DB", "#FFA500", "#20B2AA"]

  /** The only key the extension ever stores entries under. */
  const DefaultKey: string := "default"

  const CaseSensitiveFlag: string := "--case-sensitive"
  const WholeWordFlag: string := "--whole-word"
  const RegexFlag: string := "--regex"

  const NoHighlightsFound: string := "No highlights found. Use /highlight to add some."

  datatype HighlightOptions = HighlightOptions(caseSensitive: bool, wholeWord: bool, isRegex: bool)

  /** One highlight entry. */
  datatype HighlightPattern = HighlightPattern(
    pattern: string,
    color: string,
    caseSensitive: bool,
    wholeWord: bool,
    isRegex: bool)

  function OptionsOf(h: HighlightPattern): HighlightOptions
  {
    HighlightOptions(h.caseSensitive, h.wholeWord, h.isRegex)
  }

  /** The test `toggle_highlight` searches with: same pattern text and the same three flags; the colour is ignored. */
  predicate SameEntry(h: HighlightPattern, pattern: string, options: HighlightOptions)
  {
    h.pattern == pattern
    && h.caseSensitive == options.caseSensitive
    && h.wholeWord == options.wholeWord
    && h.isRegex == options.isRegex
  }

  predicate HasEntry(entries: seq<HighlightPattern>, pattern: string, options: HighlightOptions)
  {
    exists i :: 0 <= i < |entries| && SameEntry(entries[i], pattern, options)
  }

  /** No two entries share the same pattern text and flags. */
  predicate UniqueEntries(entries: seq<HighlightPattern>)
  {
    forall i, j :: 0 <= i < j < |entries| ==> !SameEntry(entries[j], entries[i].pattern, OptionsOf(entries[i]))
  }

  /** `iter().position(...)`: the index of the first entry that `SameEntry` accepts. */
  function FirstMatch(entries: seq<HighlightPattern>, pattern: string, options: HighlightOptions): (pos: Option<nat>)
    ensures pos.Some? ==> pos.value < |entries| && SameEntry(entries[pos.value], pattern, options)
    ensures pos.Some? ==> forall i :: 0 <= i < pos.value ==> !SameEntry(entries[i], pattern, options)
    ensures pos.None? <==> !HasEntry(entries, pattern, options)
  {
    if |entries| == 0 then None
    else if SameEntry(entries[0], pattern, options) then Some(0)
    else
      match FirstMatch(entries[1..], pattern, options)
      case None => None
      case Some(k) => Some(k + 1)
  }

  /**
    * What `toggle_highlight` does to the entry list, given the colour it fetched: remove
    * the first entry with the same pattern and flags and report `false`, or append a new
    * entry with that colour and report `true`.
    */
  function Toggle(entries: seq<HighlightPattern>, pattern: string, options: HighlightOptions, color: string)
    : (r: (seq<HighlightPattern>, bool))
    ensures r.1 <==> !HasEntry(entries, pattern, options)
    ensures |r.0| == if r.1 then |entries| + 1 else |entries| - 1
  {
    match FirstMatch(entries, pattern, options)
    case Some(pos) => (entries[..pos] + entries[pos + 1..], false)
    case None => (entries + [HighlightPattern(pattern, color, options.caseSensitive, options.wholeWord, options.isRegex)], true)
  }

  /** Toggling keeps the entries unique. */
  lemma TogglePreservesUnique(entries: seq<HighlightPattern>, pattern: string, options: HighlightOptions, color: string)
    requires UniqueEntries(entries)
    ensures UniqueEntries(Toggle(entries, pattern, options, color).0)
  {
    match FirstMatch(entries, pattern, options)
    case Some(pos) =>
      var result := entries[..pos] + entries[pos + 1..];
      forall i, j | 0 <= i < j < |result|
        ensures !SameEntry(result[j], result[i].pattern, OptionsOf(result[i]))
      {
        var i', j' := if i < pos then i else i + 1, if j < pos then j else j + 1;
        assert result[i] == entries[i'] && result[j] == entries[j'];
      }
    case None =>
  }

  /**
    * On unique entries a toggle flips whether the (pattern, flags) entry is present, and
    * reports `true` exactly when it was absent.
    */
  lemma ToggleFlipsPresence(entries: seq<HighlightPattern>, pattern: string, options: HighlightOptions, color: string)
    requires UniqueEntries(entries)
    ensures var (result, added) := Toggle(entries, pattern, options, color);
            && (added <==> !HasEntry(entries, pattern, options))
            && (HasEntry(result, pattern, options) <==> !HasEntry(entries, pattern, options))
  {
    var result := Toggle(entries, pattern, options, color).0;
    match FirstMatch(entries, pattern, options)
    case Some(pos) =>
      forall i | 0 <= i < |result|
        ensures !SameEntry(result[i], pattern, options)
      {
        if i >= pos {
          assert result[i] == entries[i + 1];
        }
      }
    case None =>
      assert SameEntry(result[|entries|], pattern, options);
  }

  /** Toggling the same arguments twice, when the first call added, gives the list back. */
  lemma ToggleTwice(entries: seq<HighlightPattern>, pattern: string, options: HighlightOptions, color1: string, color2: string)
    requires Toggle(entries, pattern, options, color1).1
    ensures Toggle(Toggle(entries, pattern, options, color1).0, pattern, options, color2) == (entries, false)
  {
    assert FirstMatch(entries, pattern, options).None?;
    var h := HighlightPattern(pattern, color1, options.caseSensitive, options.wholeWord, options.isRegex);
    var added := entries + [h];
    assert Toggle(entries, pattern, options, color1).0 == added;
    assert SameEntry(added[|entries|], pattern, options);
    var pos := FirstMatch(added, pattern, options);
    assert pos.Some?;
    assert pos.value == |entries|;
    assert added[..|entries|] == entries;
    assert added[|entries| + 1..] == [];
    assert added[..|entries|] + added[|entries| + 1..] == entries;
    assert Toggle(added, pattern, options, color2) == (entries, false);
  }

  /** The flag names a status line lists, in the order case-sensitive, whole-word, regex. */
  function FlagNames(options: HighlightOptions): seq<string>
  {
    (if options.caseSensitive then ["case-sensitive"] else [])
    + (if options.wholeWord then ["whole-word"] else [])
    + (if options.isRegex then ["regex"] else [])
  }

  /** `" (<flags>)"`, or nothing when no flag is set. */
  function FlagSuffix(options: HighlightOptions): string
  {
    var names := FlagNames(options);
    if |names| == 0 then "" else " (" + Join(names, ", ") + ")"
  }

  /** The suffix is empty exactly when no flag is set, and it names exactly the flags that are set. */
  lemma FlagSuffixFaithful(options: HighlightOptions)
    ensures FlagSuffix(options) == "" <==> !options.caseSensitive && !options.wholeWord && !options.isRegex
    ensures "case-sensitive" in FlagNames(options) <==> options.caseSensitive
    ensures "whole-word" in FlagNames(options) <==> options.wholeWord
    ensures "regex" in FlagNames(options) <==> options.isRegex
  {
  }

  /** The summary entry of one highlight: `'<pattern>'<flags> [<color>]`. */
  function EntryText(h: HighlightPattern): string
  {
    "'" + h.pattern + "'" + FlagSuffix(OptionsOf(h)) + " [" + h.color + "]"
  }

  function EntryTexts(entries: seq<HighlightPattern>): (texts: seq<string>)
    ensures |texts| == |entries|
  {
    seq(|entries|, i requires 0 <= i < |entries| => EntryText(entries[i]))
  }

  /** The text of `get_pattern_summary`. */
  function SummaryText(entries: seq<HighlightPattern>): string
  {
    if |entries| == 0 then "No active highlights"
    else NatToString(|entries|) + " active highlights: " + Join(EntryTexts(entries), ", ")
  }

  /**
    * The summary says "No active highlights" exactly when the store is empty, and
    * otherwise it opens with the number of entries.
    */
  lemma SummaryReportsCount(entries: seq<HighlightPattern>)
    ensures SummaryText(entries) == "No active highlights" <==> |entries| == 0
    ensures |entries| > 0 ==> ParseDecimal(LeadingDigits(SummaryText(entries))) == |entries|
  {
    if |entries| > 0 {
      var count := NatToString(|entries|);
      var rest := " active highlights: " + Join(EntryTexts(entries), ", ");
      var text := count + rest;
      assert SummaryText(entries) == text;
      assert text[0] == count[0] && IsDigit(text[0]);
      assert "No active highlights"[0] == 'N';
      assert rest[0] == ' ';
      LeadingDigitsOfNumber(count, rest);
      ParseNatToString(|entries|);
    }
  }

  /** The status text of the `highlight` command. */
  function HighlightStatus(added: bool, pattern: string, options: HighlightOptions): string
  {
    (if added then "Added" else "Removed") + " highlight for pattern: '" + pattern + "'" + FlagSuffix(options)
  }

  predicate IsFlag(arg: string)
  {
    arg == CaseSensitiveFlag || arg == WholeWordFlag || arg == RegexFlag
  }

  /** The options `from_args` reads: each flag is set when its exact string is among the args. */
  function ParsedOptions(args: seq<string>): HighlightOptions
  {
    HighlightOptions(CaseSensitiveFlag in args, WholeWordFlag in args, RegexFlag in args)
  }

  /** The arguments that are not flags, in their order. */
  function NonFlagArgs(args: seq<string>): (remaining: seq<string>)
    ensures |remaining| <= |args|
    ensures forall i :: 0 <= i < |remaining| ==> !IsFlag(remaining[i])
  {
    if |args| == 0 then []
    else
      var last := args[|args| - 1];
      NonFlagArgs(args[..|args| - 1]) + (if IsFlag(last) then [] else [last])
  }

  lemma {:induction false} NonFlagArgsConcat(a: seq<string>, b: seq<string>)
    ensures NonFlagArgs(a + b) == NonFlagArgs(a) + NonFlagArgs(b)
  {
    if |b| == 0 {
      assert a + b == a;
    } else {
      NonFlagArgsConcat(a, b[..|b| - 1]);
      assert (a + b)[..|a + b| - 1] == a + b[..|b| - 1];
    }
  }

  /** The non-flag args are exactly the args that are not flags; there are none exactly when every arg is a flag. */
  lemma {:induction false} NonFlagArgsMembers(args: seq<string>)
    ensures forall a :: a in NonFlagArgs(args) <==> a in args && !IsFlag(a)
    ensures NonFlagArgs(args) == [] <==> forall i :: 0 <= i < |args| ==> IsFlag(args[i])
  {
    if |args| > 0 {
      var init := args[..|args| - 1];
      NonFlagArgsMembers(init);
      assert args == init + [args[|args| - 1]];
    }
  }

  lemma {:induction false} InsertedMember(args: seq<string>, i: nat, x: string, a: string)
    requires i <= |args|
    ensures a in args[..i] + [x] + args[i..] <==> a in args || a == x
  {
    assert args == args[..i] + args[i..];
  }

  /** Repeating a flag anywhere does not change the options. */
  lemma RepeatedFlagKeepsOptions(args: seq<string>, i: nat, flag: string)
    requires i <= |args|
    requires IsFlag(flag) && flag in args
    ensures ParsedOptions(args[..i] + [flag] + args[i..]) == ParsedOptions(args)
  {
    InsertedMember(args, i, flag, CaseSensitiveFlag);
    InsertedMember(args, i, flag, WholeWordFlag);
    InsertedMember(args, i, flag, RegexFlag);
  }

  /** Repeating a flag anywhere changes neither the options nor the remaining args. */
  lemma RepeatedFlagIsHarmless(args: seq<string>, i: nat, flag: string)
    requires i <= |args|
    requires IsFlag(flag) && flag in args
    ensures ParsedOptions(args[..i] + [flag] + args[i..]) == ParsedOptions(args)
    ensures NonFlagArgs(args[..i] + [flag] + args[i..]) == NonFlagArgs(args)
  {
    RepeatedFlagKeepsOptions(args, i, flag);
    FlagKeepsRemaining(args, i, flag);
  }

  /** A flag inserted anywhere does not change the remaining args. */
  lemma FlagKeepsRemaining(args: seq<string>, i: nat, flag: string)
    requires i <= |args|
    requires IsFlag(flag)
    ensures NonFlagArgs(args[..i] + [flag] + args[i..]) == NonFlagArgs(args)
  {
    var before, after := args[..i], args[i..];
    assert before + after == args;
    NonFlagArgsDropsFlag(before, after, flag);
  }

  lemma NonFlagArgsDropsFlag(a: seq<string>, b: seq<string>, flag: string)
    requires IsFlag(flag)
    ensures NonFlagArgs(a + [flag] + b) == NonFlagArgs(a + b)
  {
    NonFlagArgsConcat(a + [flag], b);
    NonFlagArgsConcat(a, [flag]);
    NonFlagArgsConcat(a, b);
    assert NonFlagArgs([flag]) == [] by {
      assert [flag][..0] == [];
    }
  }

  /** `HighlightOptions::from_args`: the flags found among the args, and the other args in order. */
  method FromArgs(args: seq<string>) returns (options: HighlightOptions, remaining: seq<string>)
    ensures options.caseSensitive <==> CaseSensitiveFlag in args
    ensures options.wholeWord <==> WholeWordFlag in args
    ensures options.isRegex <==> RegexFlag in args
    ensures remaining == NonFlagArgs(args)
  {
    options := HighlightOptions(false, false, false);
    remaining := [];
    var i := 0;
    while i < |args|
      invariant 0 <= i <= |args|
      invariant options == ParsedOptions(args[..i])
      invariant remaining == NonFlagArgs(args[..i])
    {
      assert args[..i + 1] == args[..i] + [args[i]];
      assert args[..i + 1][..i] == args[..i];
      if args[i] == CaseSensitiveFlag {
        options := options.(caseSensitive := true);
      } else if args[i] == WholeWordFlag {
        options := options.(wholeWord := true);
      } else if args[i] == RegexFlag {
        options := options.(isRegex := true);
      } else {
        remaining := remaining + [args[i]];
      }
      i := i + 1;
    }
    assert args[..i] == args;
  }

  /** One section of a slash command's output: a range of the text and its label. */
  datatype OutputSection = OutputSection(rangeStart: nat, rangeEnd: nat, sectionLabel: string)

  datatype SlashCommandOutput = SlashCommandOutput(sections: seq<OutputSection>, text: string)

  /** The `highlight` command's output: one section labelled "Text Highlighter" over the whole text. */
  function HighlightOutput(text: string): SlashCommandOutput
  {
    SlashCommandOutput([OutputSection(0, |text|, "Text Highlighter")], text)
  }

  /** The extension's state. */
  class HighLighterState {
    var highlights: map<string, seq<HighlightPattern>>
    var colors: seq<string>
    var currentColorIndex: nat

    /**
      * The invariant the extension's operations keep: a non-empty palette with the cursor
      * inside it, entries only ever under "default", and no two entries with the same
      * pattern and flags.
      */
    ghost predicate Valid()
      reads this
    {
      && 0 < |colors|
      && currentColorIndex < |colors|
      && highlights.Keys <= {DefaultKey}
      && UniqueEntries(GetAllPatterns())
    }

    constructor ()
      ensures Valid()
      ensures highlights == map[] && colors == Palette && currentColorIndex == 0
    {
      highlights := map[];
      colors := Palette;
      currentColorIndex := 0;
    }

    /**
      * `get_all_patterns`: the entries of every key; with "default" the only key, the
      * order is that of the "default" list.
      */
    function GetAllPatterns(): (all: seq<HighlightPattern>)
      reads this
      requires highlights.Keys <= {DefaultKey}
      ensures forall h :: h in all <==> exists key :: key in highlights && h in highlights[key]
    {
      if DefaultKey in highlights then highlights[DefaultKey] else []
    }

    /** `get_next_color`: the colour under the cursor; the cursor moves on, wrapping round. */
    method GetNextColor() returns (color: string)
      requires Valid()
      modifies this
      ensures Valid()
      ensures color == old(colors[currentColorIndex])
      ensures currentColorIndex == (old(currentColorIndex) + 1) % |colors|
      ensures colors == old(colors) && highlights == old(highlights)
    {
      color := colors[currentColorIndex];
      currentColorIndex := (currentColorIndex + 1) % |colors|;
    }

    /**
      * `toggle_highlight`: fetches a colour first, so the cursor advances on every call,
      * removals included; then removes the first entry with the same pattern and flags
      * (reporting `false`) or appends a new entry under "default" (reporting `true`).
      */
    method ToggleHighlight(pattern: string, options: HighlightOptions) returns (added: bool)
      requires Valid()
      modifies this
      ensures Valid()
      ensures colors == old(colors)
      ensures currentColorIndex == (old(currentColorIndex) + 1) % |colors|
      ensures (GetAllPatterns(), added)
           == Toggle(old(GetAllPatterns()), pattern, options, old(colors[currentColorIndex]))
    {
      ghost var before := GetAllPatterns();
      var color := GetNextColor();
      TogglePreservesUnique(before, pattern, options, color);
      if DefaultKey in highlights {
        var entries := highlights[DefaultKey];
        var pos := FirstMatch(entries, pattern, options);
        if pos.Some? {
          highlights := highlights[DefaultKey := entries[..pos.value] + entries[pos.value + 1..]];
          return false;
        }
      }
      var highlight := HighlightPattern(pattern, color, options.caseSensitive, options.wholeWord, options.isRegex);
      var entries := if DefaultKey in highlights then highlights[DefaultKey] else [];
      highlights := highlights[DefaultKey := entries + [highlight]];
      return true;
    }

    /** `clear_all_highlights`: drops every entry; the colour cursor is not reset. */
    method ClearAllHighlights()
      requires Valid()
      modifies this
      ensures Valid()
      ensures GetAllPatterns() == []
      ensures colors == old(colors) && currentColorIndex == old(currentColorIndex)
    {
      highlights := map[];
    }

    /** `get_pattern_summary`: builds one entry text per highlight, then joins them. */
    method GetPatternSummary() returns (summary: string)
      requires Valid()
      ensures summary == SummaryText(GetAllPatterns())
    {
      var patterns := GetAllPatterns();
      if |patterns| == 0 {
        return "No active highlights";
      }
      var count := |patterns|;
      var entries: seq<string> := [];
      for i := 0 to |patterns|
        invariant entries == EntryTexts(patterns[..i])
      {
        var p := patterns[i];
        var entry := FormatEntry(p);
        entries := entries + [entry];
        assert EntryTexts(patterns[..i + 1]) == EntryTexts(patterns[..i]) + [EntryText(p)];
      }
      assert patterns[..|patterns|] == patterns;
      summary := NatToString(count) + " active highlights: " + Join(entries, ", ");
    }

    /** One entry of the summary: the pattern quoted, its flags, its colour in brackets. */
    static method FormatEntry(p: HighlightPattern) returns (entry: string)
      ensures entry == EntryText(p)
    {
      var flags: seq<string> := [];
      if p.caseSensitive {
        flags := flags + ["case-sensitive"];
      }
      if p.wholeWord {
        flags := flags + ["whole-word"];
      }
      if p.isRegex {
        flags := flags + ["regex"];
      }
      assert flags == FlagNames(OptionsOf(p));
      var flagStr := if |flags| == 0 then "" else " (" + Join(flags, ", ") + ")";
      entry := "'" + p.pattern + "'" + flagStr + " [" + p.color + "]";
    }

    /**
      * The `highlight` command: at least one argument, and at least one that is not a
      * flag; the pattern is the non-flag arguments joined by single spaces.
      */
    method RunHighlight(args: seq<string>) returns (result: Result<SlashCommandOutput, string>)
      requires Valid()
      modifies this
      ensures Valid()
      ensures colors == old(colors)
      ensures |args| == 0 ==> result == Failure("Please provide text to highlight") && unchanged(this)
      ensures |args| > 0 && NonFlagArgs(args) == [] ==>
                result == Failure("Please provide text to highlight after options") && unchanged(this)
      ensures NonFlagArgs(args) != [] ==>
                var pattern := Join(NonFlagArgs(args), " ");
                var (entries, added) := Toggle(old(GetAllPatterns()), pattern, ParsedOptions(args), old(colors[currentColorIndex]));
                && GetAllPatterns() == entries
                && currentColorIndex == (old(currentColorIndex) + 1) % |colors|
                && result == Success(HighlightOutput(HighlightStatus(added, pattern, ParsedOptions(args))))
    {
      if |args| == 0 {
        return Failure("Please provide text to highlight");
      }
      var options, patternArgs := FromArgs(args);
      if |patternArgs| == 0 {
        return Failure("Please provide text to highlight after options");
      }
      var pattern := Join(patternArgs, " ");
      var wasAdded := ToggleHighlight(pattern, options);
      var resultText := HighlightStatus(wasAdded, pattern, options);
      result := Success(HighlightOutput(resultText));
    }

    /**
      * The text of `run_slash_command`. `highlight` needs at least one argument that is
      * not a flag; its pattern is those arguments joined by single spaces.
      */
    method RunSlashCommand(command: string, args: seq<string>) returns (result: Result<SlashCommandOutput, string>)
      requires Valid()
      modifies this
      ensures Valid()
      ensures colors == old(colors)
      ensures command == "highlight" && |args| == 0 ==>
                result == Failure("Please provide text to highlight") && unchanged(this)
      ensures command == "highlight" && |args| > 0 && NonFlagArgs(args) == [] ==>
                result == Failure("Please provide text to highlight after options") && unchanged(this)
      ensures command == "highlight" && NonFlagArgs(args) != [] ==>
                var pattern := Join(NonFlagArgs(args), " ");
                var (entries, added) := Toggle(old(GetAllPatterns()), pattern, ParsedOptions(args), old(colors[currentColorIndex]));
                && GetAllPatterns() == entries
                && currentColorIndex == (old(currentColorIndex) + 1) % |colors|
                && result == Success(HighlightOutput(HighlightStatus(added, pattern, ParsedOptions(args))))
      ensures command == "next_highlight" ==>
                unchanged(this) &&
                result == Success(SlashCommandOutput([],
                  if GetAllPatterns() == [] then NoHighlightsFound
                  else "Navigating to next highlight... " + SummaryText(GetAllPatterns())))
      ensures command == "prev_highlight" ==>
                unchanged(this) &&
                result == Success(SlashCommandOutput([],
                  if GetAllPatterns() == [] then NoHighlightsFound
                  else "Navigating to previous highlight... " + SummaryText(GetAllPatterns())))
      ensures command == "clear_highlights" ==>
                && GetAllPatterns() == []
                && currentColorIndex == old(currentColorIndex)
                && result == Success(SlashCommandOutput([],
                     "Cleared " + NatToString(|old(GetAllPatterns())|) + " highlight patterns"))
      ensures command !in {"highlight", "next_highlight", "prev_highlight", "clear_highlights"} ==>
                unchanged(this) && result == Failure("unknown slash command: \"" + command + "\"")
    {
      if command == "highlight" {
        result := RunHighlight(args);
      } else if command == "next_highlight" {
        if |GetAllPatterns()| == 0 {
          return Success(SlashCommandOutput([], NoHighlightsFound));
        }
        var summary := GetPatternSummary();
        result := Success(SlashCommandOutput([], "Navigating to next highlight... " + summary));
      } else if command == "prev_highlight" {
        if |GetAllPatterns()| == 0 {
          return Success(SlashCommandOutput([], NoHighlightsFound));
        }
        var summary := GetPatternSummary();
        result := Success(SlashCommandOutput([], "Navigating to previous highlight... " + summary));
      } else if command == "clear_highlights" {
        var count := |GetAllPatterns()|;
        ClearAllHighlights();
        result := Success(SlashCommandOutput([], "Cleared " + NatToString(count) + " highlight patterns"));
      } else {
        result := Failure("unknown slash command: \"" + command + "\"");
      }
    }
  }
}
