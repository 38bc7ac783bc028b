/** What the reader takes for a value: the words of one that is not quoted, the text of
    one that is. */
module EnvValues {
  import opened Spans
  import opened Text
  import opened EnvSyntax

  // ---------------------------------------------------------------- words

  predicate IsWord(word: string) {
    |word| > 0 && forall c <- word :: !IsSpace(c)
  }

  predicate Blank(s: string) {
    forall c <- s :: IsSpace(c)
  }

  /** Words, each with the white space after it, which only the last can be without. */
  predicate Spacing(words: seq<string>, gaps: seq<string>) {
    && |gaps| == |words|
    && (forall word <- words :: IsWord(word))
    && (forall gap <- gaps :: Blank(gap))
    && (forall i :: 0 <= i < |gaps| - 1 ==> |gaps[i]| > 0)
  }

  function Spaced(words: seq<string>, gaps: seq<string>): string
    requires |words| == |gaps|
  {
    if |words| == 0 then "" else words[0] + (gaps[0] + Spaced(words[1..], gaps[1..]))
  }

  lemma {:induction false} SkipBlank(blank: string, s: string)
    requires Blank(blank)
    ensures SplitFrom("", blank + s) == SplitFrom("", s)
  {
    if |blank| == 0 {
      assert blank + s == s;
    } else {
      assert (blank + s)[1..] == blank[1..] + s;
      assert blank[0] in blank;
      SkipBlank(blank[1..], s);
    }
  }

  lemma {:induction false} TakeWord(begun: string, word: string, s: string)
    requires forall c <- word :: !IsSpace(c)
    ensures SplitFrom(begun, word + s) == SplitFrom(begun + word, s)
    decreases |word|
  {
    if |word| == 0 {
      assert word + s == s && begun + word == begun;
    } else {
      assert (word + s)[1..] == word[1..] + s;
      assert word[0] in word;
      TakeWord(begun + [word[0]], word[1..], s);
      assert begun + [word[0]] + word[1..] == begun + word;
    }
  }

  /** A word ends at white space or at the end of the text. */
  lemma EndWord(word: string, s: string)
    requires IsWord(word) && (|s| > 0 ==> IsSpace(s[0]))
    ensures SplitFrom("", word + s) == [word] + SplitFrom("", s)
  {
    TakeWord("", word, s);
    assert "" + word == word;
  }

  lemma {:induction false} SplitsAtBlanks(words: seq<string>, gaps: seq<string>)
    requires Spacing(words, gaps)
    ensures SplitFrom("", Spaced(words, gaps)) == words
  {
    hide SplitFrom, IsSpace;
    if |words| == 0 {
      NoWords();
    } else {
      assert words[0] in words && gaps[0] in gaps;
      RestSpacing(words, gaps);
      SplitsAtBlanks(words[1..], gaps[1..]);
      var rest := Spaced(words[1..], gaps[1..]);
      assert |gaps[0]| > 0 ==> gaps[0][0] in gaps[0] && (gaps[0] + rest)[0] == gaps[0][0];
      EndWord(words[0], gaps[0] + rest);
      SkipBlank(gaps[0], rest);
    }
  }

  lemma RestSpacing(words: seq<string>, gaps: seq<string>)
    requires Spacing(words, gaps) && |words| > 0
    ensures Spacing(words[1..], gaps[1..])
    ensures gaps[0] == "" ==> words[1..] == [] && Spaced(words[1..], gaps[1..]) == ""
  {
  }

  lemma NoWords()
    ensures SplitFrom("", "") == []
  {
  }

  // ---------------------------------------------------------------- quotes inside a value

  /** The parts with `between` between any two of them. */
  function Linked(parts: seq<string>, between: string): string {
    if |parts| == 0 then ""
    else if |parts| == 1 then parts[0]
    else parts[0] + between + Linked(parts[1..], between)
  }

  predicate NoQuotes(parts: seq<string>) {
    forall part <- parts :: '"' !in part
  }

  lemma {:induction false} KeepPart(part: string, s: string)
    requires '"' !in part
    ensures WithoutQuotes(part + s) == part + WithoutQuotes(s)
  {
    if |part| == 0 {
      assert part + s == s;
    } else {
      assert (part + s)[1..] == part[1..] + s;
      KeepPart(part[1..], s);
    }
  }

  lemma {:induction false} QuotesDropped(parts: seq<string>)
    requires NoQuotes(parts)
    ensures WithoutQuotes(Linked(parts, "\"")) == Linked(parts, "")
  {
    if |parts| > 0 {
      assert parts[0] in parts;
      if |parts| == 1 {
        KeepPart(parts[0], "");
        assert parts[0] + "" == parts[0];
      } else {
        QuotesDropped(parts[1..]);
        var rest := "\"" + Linked(parts[1..], "\"");
        assert rest[1..] == Linked(parts[1..], "\"");
        KeepPart(parts[0], rest);
        assert Linked(parts, "\"") == parts[0] + rest;
      }
    }
  }

  // ---------------------------------------------------------------- escapes inside a quoted value

  predicate IsEscape(unit: string) {
    |unit| == 2 && unit[0] == '\\' && (unit[1] == '\\' || unit[1] == '"')
  }

  /** A text as it is read from left to right: escapes of a backslash or a quote, and
      other characters; a lone backslash does not stand before either. */
  predicate ReadUnits(units: seq<string>) {
    && (forall unit <- units :: |unit| == 1 || IsEscape(unit))
    && (forall i :: 0 <= i < |units| - 1 ==> ReadApart(units, i))
  }

  predicate ReadApart(units: seq<string>, i: nat)
    requires i + 1 < |units|
  {
    units[i] == "\\" && |units[i + 1]| > 0 ==> units[i + 1][0] != '\\' && units[i + 1][0] != '"'
  }

  /** What the units stand for: each for its last character. */
  function StandFor(units: seq<string>): (text: string)
    requires forall unit <- units :: |unit| > 0
    ensures |text| == |units| && forall i :: 0 <= i < |units| ==> text[i] == units[i][|units[i]| - 1]
  {
    seq(|units|, i requires 0 <= i < |units| => units[i][|units[i]| - 1])
  }

  lemma FirstUnit(unit: string, rest: string)
    requires |unit| == 1 || IsEscape(unit)
    requires unit == "\\" && |rest| > 0 ==> rest[0] != '\\' && rest[0] != '"'
    ensures Unescape(unit + rest) == [unit[|unit| - 1]] + Unescape(rest)
  {
    assert (unit + rest)[|unit|..] == rest;
    assert unit == [unit[0]] || unit == [unit[0], unit[1]];
  }

  lemma RestReads(units: seq<string>)
    requires ReadUnits(units) && |units| > 0
    ensures ReadUnits(units[1..])
  {
    forall i | 0 <= i < |units[1..]| - 1
      ensures ReadApart(units[1..], i)
    {
      assert ReadApart(units, i + 1);
    }
  }

  lemma {:induction false} UnitsStandFor(units: seq<string>)
    requires ReadUnits(units)
    ensures Unescape(Linked(units, "")) == StandFor(units)
  {
    hide Unescape;
    if |units| == 0 {
      NothingEscaped();
    } else {
      var unit, rest := units[0], Linked(units[1..], "");
      assert unit in units;
      RestReads(units);
      UnitsStandFor(units[1..]);
      assert Linked(units, "") == unit + rest;
      if |units| > 1 {
        assert units[1] in units;
        assert rest[0] == units[1][0];
        assert ReadApart(units, 0);
      }
      FirstUnit(unit, rest);
      assert StandFor(units) == [unit[|unit| - 1]] + StandFor(units[1..]);
    }
  }

  lemma NothingEscaped()
    ensures Unescape("") == ""
  {
  }

  // ---------------------------------------------------------------- the value of a key

  lemma TrimEndPadded(s: string, behind: string)
    requires |s| > 0 && !IsSpace(s[|s| - 1]) && Blank(behind)
    ensures TrimEnd(s + behind) == s
  {
    var n := |s| - 1;
    assert s == s[..n] + [s[n]];
    TrimEndStops(s[..n], s[n], behind);
    BlankTrims(behind);
  }

  lemma TrimStartPadded(before: string, s: string)
    requires |s| > 0 && !IsSpace(s[0]) && Blank(before)
    ensures TrimStart(before + s) == s
  {
    assert before + s == before + [s[0]] + s[1..];
    TrimStartStops(before, s[0], s[1..]);
    BlankTrims(before);
  }

  lemma TrimPadded(before: string, raw: string, behind: string)
    requires Tight(raw) && |raw| > 0 && Blank(before) && Blank(behind)
    ensures TrimEnd(before + raw + behind) == before + raw && TrimStart(before + raw) == raw
    ensures Trim(before + raw + behind) == raw
  {
    hide TrimStart, TrimEnd, Blank, IsSpace;
    TrimEndPadded(before + raw, behind);
    TrimStartPadded(before, raw);
    assert before + raw + behind == before + (raw + behind);
    TrimStartPadded(before, raw + behind);
    TrimEndPadded(raw, behind);
  }

  lemma TrimPadding(before: string, raw: string, behind: string)
    requires Tight(raw) && Blank(before) && Blank(behind)
    ensures Trim(TrimEnd(before + raw + behind)) == raw
  {
    if |raw| > 0 {
      TrimPadded(before, raw, behind);
      TrimTight(raw);
    } else {
      assert before + raw + behind == before + behind;
      BlankTrims(before + behind);
    }
  }

  lemma {:induction false} BlankTrims(s: string)
    requires Blank(s)
    ensures TrimStart(s) == "" && TrimEnd(s) == ""
  {
    if |s| > 0 {
      assert s[0] in s && s[|s| - 1] in s;
      BlankTrims(s[1..]);
      BlankTrims(s[..|s| - 1]);
    }
  }

  predicate Enclosed(raw: string) {
    |raw| >= 2 && raw[0] == '"' && raw[|raw| - 1] == '"'
  }

  /** A value that is not enclosed in quotes: its quotes are dropped, and what is left is read
      as its words when there are two or more, and as it stands otherwise. */
  lemma UnquotedValue(key: string, before: string, raw: string, behind: string, parts: seq<string>,
                      lead: string, words: seq<string>, gaps: seq<string>)
    requires ValidKey(key) && Blank(before) && Blank(behind) && Tight(raw) && !Enclosed(raw)
    requires NoQuotes(parts) && raw == Linked(parts, "\"")
    requires Blank(lead) && Spacing(words, gaps) && Linked(parts, "") == lead + Spaced(words, gaps)
    ensures ParseLine(key + "=" + before + raw + behind)
         == Some((key, if |words| >= 2 then Words(words) else Value.Text(Linked(parts, ""))))
  {
    hide ValidKey, Spaced, Linked, Trim, ParseLine, DefinedName, Tight, NoQuotes, SplitFrom, WithoutQuotes;
    var after := before + raw + behind;
    assert key + "=" + before + raw + behind == key + ['='] + after;
    DefinitionParses(key, after);
    TrimPadding(before, raw, behind);
    QuotesDropped(parts);
    SkipBlank(lead, Spaced(words, gaps));
    SplitsAtBlanks(words, gaps);
  }

  /** Words without quotes, and white space only between them: one alone is a text,
      several are an array. */
  lemma PlainValue(key: string, words: seq<string>, gaps: seq<string>)
    requires ValidKey(key) && |words| > 0 && Spacing(words, gaps) && NoQuotes(words) && gaps[|gaps| - 1] == ""
    ensures ParseLine(key + "=" + Spaced(words, gaps))
         == Some((key, if |words| == 1 then Value.Text(words[0]) else Words(words)))
  {
    hide ValidKey, ParseLine;
    var raw := Spaced(words, gaps);
    SpacedEnds(words, gaps);
    assert Linked([raw], "\"") == raw == Linked([raw], "");
    assert "" + raw == raw;
    assert key + "=" + "" + raw + "" == key + "=" + raw;
    UnquotedValue(key, "", raw, "", [raw], "", words, gaps);
    assert |words| == 1 ==> raw == words[0];
  }

  lemma {:induction false} SpacedEnds(words: seq<string>, gaps: seq<string>)
    requires |words| > 0 && Spacing(words, gaps) && NoQuotes(words) && gaps[|gaps| - 1] == ""
    ensures var raw := Spaced(words, gaps);
            |raw| > 0 && !IsSpace(raw[0]) && !IsSpace(raw[|raw| - 1]) && '"' !in raw
  {
    var first := words[0];
    assert first in words && first[0] in first && first[|first| - 1] in first;
    RestSpacing(words, gaps);
    if |words| > 1 {
      assert gaps[0] in gaps;
      SpacedEnds(words[1..], gaps[1..]);
      var rest := Spaced(words[1..], gaps[1..]);
      assert forall c <- gaps[0] :: c != '"';
      assert forall c <- first + (gaps[0] + rest) :: c in first || c in gaps[0] || c in rest;
    }
  }

  /** A value enclosed in quotes: one text, in which a backslash escapes a backslash or a
      quote and nothing else. */
  lemma QuotedValue(key: string, before: string, units: seq<string>, behind: string)
    requires ValidKey(key) && Blank(before) && Blank(behind) && ReadUnits(units)
    ensures ParseLine(key + "=" + before + "\"" + Linked(units, "") + "\"" + behind)
         == Some((key, Value.Text(StandFor(units))))
  {
    hide ValidKey, Linked, Trim, ParseLine, DefinedName, Unescape, ReadUnits;
    var inner := Linked(units, "");
    var raw := "\"" + inner + "\"";
    var after := before + raw + behind;
    assert key + "=" + before + "\"" + inner + "\"" + behind == key + ['='] + after;
    DefinitionParses(key, after);
    TrimPadding(before, raw, behind);
    assert raw[1..|raw| - 1] == inner;
    UnitsStandFor(units);
  }

  // ---------------------------------------------------------------- every value is one of these

  predicate Reads(s: string, lead: string, words: seq<string>, gaps: seq<string>) {
    Blank(lead) && Spacing(words, gaps) && s == lead + Spaced(words, gaps)
  }

  /** One character more in front. */
  lemma ReadOneMore(c: char, s: string, lead: string, words: seq<string>, gaps: seq<string>)
    returns (lead': string, words': seq<string>, gaps': seq<string>)
    requires Reads(s, lead, words, gaps)
    ensures Reads([c] + s, lead', words', gaps')
  {
    hide IsSpace;
    if IsSpace(c) {
      lead', words', gaps' := [c] + lead, words, gaps;
      assert [c] + s == [c] + lead + Spaced(words, gaps);
    } else if |lead| == 0 && |words| > 0 {
      lead', words', gaps' := "", [[c] + words[0]] + words[1..], gaps;
      LongerWord(c, words, gaps);
      assert lead + Spaced(words, gaps) == Spaced(words, gaps);
    } else {
      lead', words', gaps' := "", [[c]] + words, [lead] + gaps;
      OneWordMore(c, lead, words, gaps);
    }
  }

  lemma LongerWord(c: char, words: seq<string>, gaps: seq<string>)
    requires Spacing(words, gaps) && |words| > 0 && !IsSpace(c)
    ensures var longer := [[c] + words[0]] + words[1..];
            Spacing(longer, gaps) && "" + Spaced(longer, gaps) == [c] + Spaced(words, gaps)
  {
    assert words[0] in words;
    var longer := [[c] + words[0]] + words[1..];
    assert longer[1..] == words[1..];
    assert ([c] + words[0]) + (gaps[0] + Spaced(words[1..], gaps[1..])) == [c] + Spaced(words, gaps);
  }

  lemma OneWordMore(c: char, gap: string, words: seq<string>, gaps: seq<string>)
    requires Spacing(words, gaps) && !IsSpace(c) && Blank(gap) && (|gap| > 0 || |words| == 0)
    ensures Spacing([[c]] + words, [gap] + gaps)
    ensures "" + Spaced([[c]] + words, [gap] + gaps) == [c] + (gap + Spaced(words, gaps))
  {
    assert ([[c]] + words)[1..] == words && ([gap] + gaps)[1..] == gaps;
  }

  lemma {:induction false} EveryTextHasWords(s: string)
    returns (lead: string, words: seq<string>, gaps: seq<string>)
    ensures Reads(s, lead, words, gaps)
  {
    if |s| == 0 {
      lead, words, gaps := "", [], [];
    } else {
      lead, words, gaps := EveryTextHasWords(s[1..]);
      assert s == [s[0]] + s[1..];
      hide Reads;
      lead, words, gaps := ReadOneMore(s[0], s[1..], lead, words, gaps);
    }
  }

  lemma {:induction false} EveryTextHasParts(s: string) returns (parts: seq<string>)
    ensures NoQuotes(parts) && |parts| > 0 && s == Linked(parts, "\"")
  {
    if |s| == 0 {
      parts := [""];
    } else {
      var rest := EveryTextHasParts(s[1..]);
      assert rest[0] in rest;
      if s[0] == '"' {
        parts := [""] + rest;
        assert parts[1..] == rest;
      } else {
        parts := [[s[0]] + rest[0]] + rest[1..];
        assert parts[1..] == rest[1..];
      }
    }
  }

  lemma {:induction false} EveryTextHasUnits(s: string) returns (units: seq<string>)
    ensures ReadUnits(units) && s == Linked(units, "")
  {
    if |s| == 0 {
      units := [];
    } else {
      var n := if |s| >= 2 && IsEscape(s[..2]) then 2 else 1;
      var rest := EveryTextHasUnits(s[n..]);
      units := [s[..n]] + rest;
      assert units[1..] == rest;
      if |rest| > 0 {
        assert rest[0] in rest;
        assert s[n] == rest[0][0];
        assert ReadApart(units, 0);
      }
      forall i | 0 <= i < |units| - 1
        ensures ReadApart(units, i)
      {
        assert i > 0 ==> ReadApart(rest, i - 1);
      }
    }
  }
}
