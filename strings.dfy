/** String helpers used by both components: joining, splitting into lines, decimal numbers. */
module Strings {

  /** Joins `parts` with `sep` between consecutive parts, as `[String]::join` does. */
  function Join(parts: seq<string>, sep: string): string
  {
    if |parts| == 0 then ""
    else if |parts| == 1 then parts[0]
    else parts[0] + sep + Join(parts[1..], sep)
  }

  /** Splits `s` at every `c`. There is always at least one piece and no piece contains `c`. */
  function Split(s: string, c: char): (pieces: seq<string>)
    ensures |pieces| >= 1
    ensures forall i :: 0 <= i < |pieces| ==> c !in pieces[i]
  {
    if |s| == 0 then [""]
    else
      var rest := Split(s[1..], c);
      if s[0] == c then [""] + rest
      else [[s[0]] + rest[0]] + rest[1..]
  }

  /**
    * The lines of `text`, split on '\n' only: a final line terminator does not start an
    * empty line, and an empty text has no lines (the behaviour of `str::lines` on text
    * without carriage returns).
    */
  function Lines(text: string): (lines: seq<string>)
    ensures forall i :: 0 <= i < |lines| ==> '\n' !in lines[i]
  {
    var pieces := Split(text, '\n');
    if pieces[|pieces| - 1] == "" then pieces[..|pieces| - 1] else pieces
  }

  lemma JoinCons(x: string, xs: seq<string>, sep: string)
    ensures Join([x] + xs, sep) == if |xs| == 0 then x else x + sep + Join(xs, sep)
  {
    assert ([x] + xs)[1..] == xs;
  }

  lemma {:induction false} JoinSnoc(xs: seq<string>, x: string, sep: string)
    ensures Join(xs + [x], sep) == if |xs| == 0 then x else Join(xs, sep) + sep + x
  {
    if |xs| > 1 {
      JoinSnoc(xs[1..], x, sep);
      assert (xs + [x])[1..] == xs[1..] + [x];
    } else if |xs| == 1 {
      assert xs + [x] == [xs[0], x];
    }
  }

  /** Joining the pieces of `s` with the separator gives `s` back. */
  lemma {:induction false} JoinSplit(s: string, c: char)
    ensures Join(Split(s, c), [c]) == s
  {
    if |s| > 0 {
      var rest := Split(s[1..], c);
      JoinSplit(s[1..], c);
      if s[0] == c {
        JoinCons("", rest, [c]);
      } else {
        JoinCons([s[0]] + rest[0], rest[1..], [c]);
        JoinCons(rest[0], rest[1..], [c]);
        assert rest == [rest[0]] + rest[1..];
      }
    }
  }

  lemma {:induction false} SplitWithoutSeparator(x: string, c: char)
    requires c !in x
    ensures Split(x, c) == [x]
  {
    if |x| > 0 {
      SplitWithoutSeparator(x[1..], c);
      assert x[0] != c;
      assert [x[0]] + x[1..] == x;
    }
  }

  lemma {:induction false} SplitAtSeparator(x: string, y: string, c: char)
    requires c !in x
    ensures Split(x + [c] + y, c) == [x] + Split(y, c)
  {
    var s := x + [c] + y;
    if |x| == 0 {
      assert s[1..] == y;
    } else {
      assert s[1..] == x[1..] + [c] + y;
      assert s[0] == x[0] != c;
      SplitAtSeparator(x[1..], y, c);
      var rest := Split(s[1..], c);
      assert rest == [x[1..]] + Split(y, c);
      assert [s[0]] + rest[0] == x;
      assert rest[1..] == Split(y, c);
    }
  }

  /** Splitting a join recovers the parts, provided no part contains the separator. */
  lemma {:induction false} SplitJoin(parts: seq<string>, c: char)
    requires |parts| >= 1
    requires forall i :: 0 <= i < |parts| ==> c !in parts[i]
    ensures Split(Join(parts, [c]), c) == parts
  {
    if |parts| == 1 {
      SplitWithoutSeparator(parts[0], c);
    } else {
      var rest := Join(parts[1..], [c]);
      assert Join(parts, [c]) == parts[0] + [c] + rest;
      SplitJoin(parts[1..], c);
      SplitAtSeparator(parts[0], rest, c);
      assert parts == [parts[0]] + parts[1..];
    }
  }

  /** Joining the lines with '\n', plus the final terminator if there was one, gives the text back. */
  lemma LinesRoundTrip(text: string)
    ensures Join(Lines(text), "\n") + (if |text| > 0 && text[|text| - 1] == '\n' then "\n" else "") == text
  {
    var pieces := Split(text, '\n');
    JoinSplit(text, '\n');
    var init := pieces[..|pieces| - 1];
    var last := pieces[|pieces| - 1];
    assert pieces == init + [last];
    JoinSnoc(init, last, "\n");
    if |init| > 0 && last != "" {
      assert text[|text| - 1] == last[|last| - 1];
    }
  }

  /** Splitting into lines undoes joining lines that hold no '\n', when the last is not empty. */
  lemma LinesOfJoin(ls: seq<string>)
    requires forall i :: 0 <= i < |ls| ==> '\n' !in ls[i]
    requires |ls| == 0 || ls[|ls| - 1] != ""
    ensures Lines(Join(ls, "\n")) == ls
  {
    if |ls| > 0 {
      assert "\n" == ['\n'];
      SplitJoin(ls, '\n');
      var pieces := Split(Join(ls, "\n"), '\n');
      assert pieces == ls;
      assert pieces[|pieces| - 1] != "";
    }
  }

  /** A final '\n' does not start an empty line. */
  lemma LinesOfTerminatedJoin(ls: seq<string>)
    requires |ls| > 0
    requires forall i :: 0 <= i < |ls| ==> '\n' !in ls[i]
    ensures Lines(Join(ls, "\n") + "\n") == ls
  {
    var parts := ls + [""];
    JoinSnoc(ls, "", "\n");
    assert Join(parts, "\n") == Join(ls, "\n") + "\n";
    assert forall i :: 0 <= i < |parts| ==> '\n' !in parts[i] by {
      forall i | 0 <= i < |parts| ensures '\n' !in parts[i] {
        if i < |ls| {
          assert parts[i] == ls[i];
        }
      }
    }
    SplitJoin(parts, '\n');
    assert parts[..|parts| - 1] == ls;
  }

  predicate IsDigit(ch: char)
  {
    '0' <= ch <= '9'
  }

  predicate AllDigits(s: string)
  {
    forall i :: 0 <= i < |s| ==> IsDigit(s[i])
  }

  function DigitChar(d: nat): (ch: char)
    requires d < 10
    ensures IsDigit(ch) && ch as int - '0' as int == d
  {
    ('0' as int + d) as char
  }

  /** The decimal form of `n`, without leading zeros, as Rust's `Display` for unsigned integers. */
  function NatToString(n: nat): (s: string)
    ensures |s| >= 1 && AllDigits(s)
    ensures |s| > 1 ==> s[0] != '0'
  {
    if n < 10 then [DigitChar(n)] else NatToString(n / 10) + [DigitChar(n % 10)]
  }

  /** The value of a string of decimal digits. */
  function ParseDecimal(s: string): nat
    requires AllDigits(s)
  {
    if |s| == 0 then 0 else 10 * ParseDecimal(s[..|s| - 1]) + (s[|s| - 1] as int - '0' as int)
  }

  lemma {:induction false} ParseNatToString(n: nat)
    ensures ParseDecimal(NatToString(n)) == n
  {
    if n >= 10 {
      ParseNatToString(n / 10);
      var s := NatToString(n);
      assert s[..|s| - 1] == NatToString(n / 10);
    }
  }

  /** The longest prefix of `s` made of decimal digits. */
  function LeadingDigits(s: string): (d: string)
    ensures AllDigits(d) && d <= s
  {
    if |s| == 0 || !IsDigit(s[0]) then "" else [s[0]] + LeadingDigits(s[1..])
  }

  lemma {:induction false} LeadingDigitsOfNumber(d: string, rest: string)
    requires AllDigits(d)
    requires |rest| == 0 || !IsDigit(rest[0])
    ensures LeadingDigits(d + rest) == d
  {
    if |d| > 0 {
      assert (d + rest)[1..] == d[1..] + rest;
      LeadingDigitsOfNumber(d[1..], rest);
    } else {
      assert d + rest == rest;
    }
  }
}
