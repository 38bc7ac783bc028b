/** Exactly when an edit changes a file, and exactly when making it again changes nothing. */
module EnvIdempotent {
  import opened Spans
  import opened Text
  import opened EnvSyntax
  import opened EnvPlan
  import opened EnvStable
  import R = EnvReport

  // ---------------------------------------------------------------- line endings

  predicate EndsInReturn(text: string) {
    |text| > 0 && text[|text| - 1] == '\r'
  }

  predicate NoneEndsInReturn(lines: seq<string>) {
    forall line <- lines :: !EndsInReturn(line)
  }

  /** Every line feed follows a carriage return. */
  predicate FeedsPaired(text: string) {
    forall i :: 0 <= i < |text| && text[i] == '\n' ==> i > 0 && text[i - 1] == '\r'
  }

  /** A line feed is where the first line ends or in the rest. */
  lemma FeedAt(line: string, terminator: string, rest: string, i: nat)
    requires '\n' !in line && IsTerminator(terminator)
    requires var text := line + terminator + rest;
             i < |text| && text[i] == '\n'
    ensures var start := |line| + |terminator|;
            i == start - 1 || (i >= start && rest[i - start] == '\n')
  {
    assert forall k :: 0 <= k < |line| ==> line[k] in line;
  }

  lemma {:induction false} CrLfPairs(lines: seq<string>, last: string)
    requires NoLineFeeds(lines) && '\n' !in last
    ensures FeedsPaired(Join(lines, "\r\n") + last)
  {
    if |lines| == 0 {
      assert Join(lines, "\r\n") + last == last;
      assert forall i :: 0 <= i < |last| ==> last[i] in last;
    } else {
      var rest := Join(lines[1..], "\r\n") + last;
      var text := lines[0] + "\r\n" + rest;
      assert Join(lines, "\r\n") + last == text;
      CrLfPairs(lines[1..], last);
      forall i | 0 <= i < |text| && text[i] == '\n'
        ensures i > 0 && text[i - 1] == '\r'
      {
        FeedAt(lines[0], "\r\n", rest, i);
      }
    }
  }

  lemma {:induction false} NoPairs(lines: seq<string>, last: string)
    requires NoLineFeeds(lines) && NoneEndsInReturn(lines) && '\n' !in last
    ensures !HasCrLf(Join(lines, "\n") + last)
  {
    if |lines| == 0 {
      assert Join(lines, "\n") + last == last;
      assert forall i :: 0 <= i < |last| ==> last[i] in last;
    } else {
      var rest := Join(lines[1..], "\n") + last;
      var text := lines[0] + "\n" + rest;
      assert Join(lines, "\n") + last == text;
      assert lines[0] in lines;
      NoPairs(lines[1..], last);
      forall i | 0 < i < |text| && text[i] == '\n'
        ensures text[i - 1] != '\r'
      {
        FeedAt(lines[0], "\n", rest, i);
      }
    }
  }

  lemma {:induction false} JoinEnds(lines: seq<string>, terminator: string)
    requires IsTerminator(terminator)
    ensures |lines| > 0 ==>
              var text := Join(lines, terminator);
              |text| >= |terminator| && text[|text| - |terminator|..] == terminator
  {
    if |lines| > 0 {
      JoinEnds(lines[1..], terminator);
      assert lines[0] + terminator + "" == lines[0] + terminator;
    }
  }

  lemma {:induction false} JoinConcat(a: seq<string>, b: seq<string>, terminator: string)
    ensures Join(a + b, terminator) == Join(a, terminator) + Join(b, terminator)
  {
    if |a| == 0 {
      assert a + b == b;
      assert Join(a, terminator) + Join(b, terminator) == Join(b, terminator);
    } else {
      assert (a + b)[1..] == a[1..] + b;
      JoinConcat(a[1..], b, terminator);
    }
  }

  /** Where the line feed after line `k` is, and what is before it. */
  lemma FeedAfter(lines: seq<string>, last: string, k: nat) returns (i: nat)
    requires k < |lines|
    ensures var text := Join(lines, "\n") + last;
            && i < |text| && text[i] == '\n'
            && (i > 0 && text[i - 1] == '\r' <==> EndsInReturn(lines[k]))
  {
    var front, line, rest := Join(lines[..k], "\n"), lines[k], Join(lines[k + 1..], "\n");
    assert lines == lines[..k] + ([line] + lines[k + 1..]);
    assert ([line] + lines[k + 1..])[1..] == lines[k + 1..];
    JoinConcat(lines[..k], [line] + lines[k + 1..], "\n");
    JoinEnds(lines[..k], "\n");
    var text := front + (line + "\n" + rest) + last;
    assert Join(lines, "\n") + last == text;
    i := |front| + |line|;
    assert text[i] == '\n';
    if |line| > 0 {
      assert text[i - 1] == line[|line| - 1];
    } else if k > 0 {
      assert front[|front| - 1..] == "\n";
      assert text[i - 1] == front[|front| - 1] == front[|front| - 1..][0];
    } else {
      assert lines[..k] == [];
    }
  }

  // ---------------------------------------------------------------- reading back

  /** Reading back exactly: terminated lines lose a return only before a lone line feed. */
  lemma ReadsBack(lines: seq<string>, terminator: string, ended: bool)
    requires NoLineFeeds(lines) && IsTerminator(terminator)
    requires !ended ==> |lines| > 0 && |lines[|lines| - 1]| > 0
    ensures Lines(Written(lines, terminator, ended)) ==
            if ended then ReadAllBack(lines, terminator)
            else ReadAllBack(lines[..|lines| - 1], terminator) + [lines[|lines| - 1]]
  {
    hide Lines, ReadBack, Written, Join;
    WrittenForm(lines, terminator, ended);
    if ended {
      LinesOfJoin(lines, terminator, "");
      OneLine("");
      assert Join(lines, terminator) + "" == Join(lines, terminator);
      assert ReadAllBack(lines, terminator) + [] == ReadAllBack(lines, terminator);
    } else {
      var n := |lines| - 1;
      LinesOfJoin(lines[..n], terminator, lines[n]);
      OneLine(lines[n]);
    }
  }

  lemma NothingLost(lines: seq<string>, terminator: string)
    requires terminator != "\n" || NoneEndsInReturn(lines)
    ensures ReadAllBack(lines, terminator) == lines
  {
    forall i | 0 <= i < |lines|
      ensures ReadBack(lines[i], terminator) == lines[i]
    {
      assert lines[i] in lines;
    }
  }

  /** The content written ends as the original did. */
  lemma EndingKept(lines: seq<string>, terminator: string, ended: bool)
    requires IsTerminator(terminator) && NoLineFeeds(lines)
    requires !ended ==> |lines| > 0 && |lines[|lines| - 1]| > 0
    ensures EndedWithNewline(Written(lines, terminator, ended)) == ended
  {
    WrittenForm(lines, terminator, ended);
    if ended {
      JoinEnds(lines, terminator);
    } else {
      var n := |lines| - 1;
      var last := lines[n];
      assert last[|last| - 1] in last;
    }
  }

  lemma BeforeFirst(text: string, i: nat)
    requires IndexOf(text, '\n') == Some(i)
    ensures forall k :: 0 <= k < i ==> text[k] != '\n'
  {
    forall k | 0 <= k < i
      ensures text[k] != '\n'
    {
      assert text[..i][k] == text[k];
    }
  }

  lemma CrLfLines(text: string)
    requires HasCrLf(text)
    ensures |Lines(text)| > if EndedWithNewline(text) then 0 else 1
  {
    var i :| 0 < i < |text| && text[i - 1] == '\r' && text[i] == '\n';
    assert text[i] in text;
    var first := IndexOf(text, '\n').value;
    BeforeFirst(text, first);
    assert first <= i;
    if !EndedWithNewline(text) {
      assert first + 1 < |text|;
    }
  }

  lemma EmitAtLeast(lines: seq<string>, entries: seq<Entry>)
    ensures |Emit(lines, entries)| >= |lines|
  {
    PositionsAtLeast(lines, entries, |lines|);
  }

  // ---------------------------------------------------------------- what the lines of a file end in

  /** No line ends in a return, but for a last one without a line feed, which ends as the text does. */
  predicate EndAsText(lines: seq<string>, text: string) {
    if EndedWithNewline(text) then NoneEndsInReturn(lines)
    else
      && |lines| > 0 && |lines[|lines| - 1]| > 0
      && NoneEndsInReturn(lines[..|lines| - 1])
      && (EndsInReturn(lines[|lines| - 1]) <==> EndsInReturn(text))
  }

  lemma FirstLineFeed(text: string, i: nat)
    requires !HasCrLf(text) && IndexOf(text, '\n') == Some(i)
    ensures !HasCrLf(text[i + 1..]) && !EndsInReturn(text[..i])
    ensures EndedWithNewline(text) == EndedWithNewline(text[i + 1..])
    ensures !EndedWithNewline(text) ==> (EndsInReturn(text) <==> EndsInReturn(text[i + 1..]))
  {
    var rest := text[i + 1..];
    assert i > 0 ==> text[i - 1] == text[..i][i - 1];
    forall k | 0 < k < |rest|
      ensures !(rest[k - 1] == '\r' && rest[k] == '\n')
    {
      assert text[i + k] == rest[k - 1] && text[i + 1 + k] == rest[k];
    }
  }

  lemma EndAsTextCons(first: string, lines: seq<string>, text: string, rest: string)
    requires EndAsText(lines, rest) && !EndsInReturn(first)
    requires EndedWithNewline(text) == EndedWithNewline(rest)
    requires !EndedWithNewline(text) ==> (EndsInReturn(text) <==> EndsInReturn(rest))
    ensures EndAsText([first] + lines, text)
  {
    var all := [first] + lines;
    if !EndedWithNewline(text) {
      assert all[..|all| - 1] == [first] + lines[..|lines| - 1];
    }
  }

  /** What the lines of a file without CRLF end in. */
  lemma {:induction false} LinesEndIn(text: string)
    requires !HasCrLf(text)
    ensures EndAsText(Lines(text), text)
    decreases |text|
  {
    hide HasCrLf, EndAsText;
    match IndexOf(text, '\n')
    case None =>
      OnlyLineEndsIn(text);
    case Some(i) =>
      FirstLineFeed(text, i);
      LinesEndIn(text[i + 1..]);
      EndAsTextCons(text[..i], Lines(text[i + 1..]), text, text[i + 1..]);
      assert StripReturn(text[..i]) == text[..i];
  }

  lemma OnlyLineEndsIn(text: string)
    requires IndexOf(text, '\n') == None
    ensures EndAsText(Lines(text), text)
  {
    assert |text| > 0 ==> text[|text| - 1] in text;
  }

  lemma {:induction false} BodyEndsIn(lines: seq<string>, entries: seq<Entry>, n: nat)
    requires n <= |lines| && NoneEndsInReturn(lines[..n]) && Accepted(entries)
    ensures NoneEndsInReturn(EmitBody(lines, entries, n))
  {
    hide Render, Accepted;
    if n > 0 {
      assert lines[..n] == lines[..n - 1] + [lines[n - 1]];
      BodyEndsIn(lines, entries, n - 1);
      assert lines[n - 1] in lines[..n];
      RenderedEndIn(entries);
    }
  }

  lemma RenderedEndIn(entries: seq<Entry>)
    requires Accepted(entries)
    ensures forall e <- entries :: !EndsInReturn(Render(e))
  {
    EntriesRender(entries);
    forall e | e in entries
      ensures !EndsInReturn(Render(e))
    {
      assert |Render(e)| > 0 ==> Render(e)[|Render(e)| - 1] in Render(e);
    }
  }

  lemma TailEndsIn(lines: seq<string>, entries: seq<Entry>)
    requires Accepted(entries)
    ensures NoneEndsInReturn(EmitTail(lines, entries))
  {
    hide Render, Accepted, EmitBody, HasMarker, ParseLine, DefinedName, IsMarker;
    RenderedEndIn(entries);
    MarkerDefinesNothing();
    assert !EndsInReturn(APPEND_MARKER) by {
      assert APPEND_MARKER[|APPEND_MARKER| - 1] in APPEND_MARKER;
    }
    var appended := Appended(lines, entries);
    forall i | 0 <= i < |appended|
      ensures !EndsInReturn(RenderAll(appended)[i])
    {
      assert appended[i] in appended;
    }
  }

  // ---------------------------------------------------------------- the exact condition

  /** What is written after the original's last line. */
  function AddedAfterLast(lines: seq<string>, entries: seq<Entry>): seq<string>
    requires |lines| > 0
  {
    (match InsertedAfter(lines, entries, |lines| - 1)
     case None => []
     case Some(e) => [Render(e)])
    + EmitTail(lines, entries)
  }

  /** A last line ending in a carriage return, in a file without CRLF, is kept, is
      followed by new lines, and is not all there is before the last of those. */
  predicate ExposesReturn(original: string, entries: seq<Entry>) {
    && !HasCrLf(original) && EndsInReturn(original)
    && var lines := Lines(original);
    && |lines| > 0 && OwnerOf(lines[|lines| - 1], entries) == None
    && var added := AddedAfterLast(lines, entries);
    && |added| > 0 && |lines| + |added| > 2
  }

  lemma EmitParts(lines: seq<string>, entries: seq<Entry>)
    requires |lines| > 0
    ensures var n := |lines| - 1;
            Emit(lines, entries)
              == EmitBody(lines, entries, n) + [Replaced(lines[n], entries)] + AddedAfterLast(lines, entries)
  {
    hide EmitTail, Replaced, Render, EmitBody, InsertedAfter;
    var n := |lines| - 1;
    BodySnoc(lines, entries, n);
    var body, tail := EmitBody(lines, entries, n), EmitTail(lines, entries);
    match InsertedAfter(lines, entries, n)
    case None => assert [Replaced(lines[n], entries)] + [] == [Replaced(lines[n], entries)];
    case Some(e) => assert body + ([Replaced(lines[n], entries)] + [Render(e)]) + tail
        == body + [Replaced(lines[n], entries)] + ([Render(e)] + tail);
  }

  lemma BodySnoc(lines: seq<string>, entries: seq<Entry>, n: nat)
    requires n < |lines|
    ensures EmitBody(lines, entries, n + 1) == EmitBody(lines, entries, n) + EmitLine(lines, entries, n)
  {
  }

  /** What is known of the lines written for any file. */
  lemma EmittedLines(original: string, entries: seq<Entry>)
    requires Accepted(entries)
    ensures var lines, emitted := Lines(original), Emit(Lines(original), entries);
            && NoLineFeeds(emitted) && |emitted| >= |lines|
            && (!EndedWithNewline(original) ==> |emitted| > 0 && |emitted[|emitted| - 1]| > 0)
            && EndedWithNewline(Content(original, entries)) == EndedWithNewline(original)
  {
    hide Lines, Emit, Written, EndedWithNewline, HasCrLf;
    LinesHaveNoLineFeeds(original);
    EmitIsLines(Lines(original), entries);
    EmitAtLeast(Lines(original), entries);
    if !EndedWithNewline(original) {
      LastLineNotEmpty(original);
    }
    EndingKept(Emit(Lines(original), entries), Terminator(original), EndedWithNewline(original));
  }

  /** A second pass that reads the lines written, and the same line ending, changes nothing. */
  lemma SecondPass(original: string, entries: seq<Entry>)
    requires Accepted(entries)
    requires var content := Content(original, entries);
             Lines(content) == Emit(Lines(original), entries) && HasCrLf(content) == HasCrLf(original)
    ensures Content(Content(original, entries), entries) == Content(original, entries)
  {
    hide Lines, Emit, Written, EndedWithNewline, HasCrLf;
    EmittedLines(original, entries);
    EmitTwice(Lines(original), entries);
  }

  lemma CrLfIdempotent(original: string, entries: seq<Entry>)
    requires HasCrLf(original) && Accepted(entries)
    ensures Content(Content(original, entries), entries) == Content(original, entries)
  {
    hide Lines, Emit, Written, EndedWithNewline, HasCrLf, Join, ReadAllBack;
    var emitted, ended := Emit(Lines(original), entries), EndedWithNewline(original);
    EmittedLines(original, entries);
    CrLfLines(original);
    var terminated := if ended then emitted else emitted[..|emitted| - 1];
    ReadsBack(emitted, "\r\n", ended);
    NothingLost(terminated, "\r\n");
    WrittenForm(emitted, "\r\n", ended);
    PairAtEnd(terminated, if ended then "" else emitted[|emitted| - 1]);
    assert Join(emitted, "\r\n") + "" == Join(emitted, "\r\n");
    SecondPass(original, entries);
  }

  lemma PairAtEnd(lines: seq<string>, last: string)
    requires |lines| > 0
    ensures HasCrLf(Join(lines, "\r\n") + last)
  {
    JoinEnds(lines, "\r\n");
    var text := Join(lines, "\r\n");
    var k := |text| - 1;
    assert text[k - 1..][0] == '\r' && text[k - 1..][1] == '\n';
    assert (text + last)[k - 1] == '\r' && (text + last)[k] == '\n';
  }

  /** When no terminated line ends in a return, a file stays one without CRLF. */
  lemma PlainIdempotent(original: string, entries: seq<Entry>)
    requires !HasCrLf(original) && Accepted(entries)
    requires var emitted := Emit(Lines(original), entries);
             NoneEndsInReturn(if EndedWithNewline(original) || |emitted| == 0 then emitted
                 else emitted[..|emitted| - 1])
    ensures Content(Content(original, entries), entries) == Content(original, entries)
  {
    hide Lines, Emit, Written, EndedWithNewline, HasCrLf, NoneEndsInReturn, ReadAllBack;
    var emitted, ended := Emit(Lines(original), entries), EndedWithNewline(original);
    EmittedLines(original, entries);
    var terminated := if ended then emitted else emitted[..|emitted| - 1];
    var last := if ended then "" else emitted[|emitted| - 1];
    ReadsBack(emitted, "\n", ended);
    NothingLost(terminated, "\n");
    WrittenForm(emitted, "\n", ended);
    NoPairs(terminated, last);
    assert Join(emitted, "\n") + "" == Join(emitted, "\n");
    SecondPass(original, entries);
  }

  /** The lines written before and for the last one. */
  lemma UntilLastEndsIn(original: string, entries: seq<Entry>)
    requires !HasCrLf(original) && Accepted(entries) && !EndedWithNewline(original)
    ensures var lines := Lines(original);
            && |lines| > 0
            && NoneEndsInReturn(EmitBody(lines, entries, |lines| - 1))
                && NoneEndsInReturn(AddedAfterLast(lines, entries))
            && (EndsInReturn(Replaced(lines[|lines| - 1], entries)) <==>
                  EndsInReturn(original) && OwnerOf(lines[|lines| - 1], entries) == None)
  {
    hide Lines, HasCrLf, Render, Accepted, EmitBody, EmitTail;
    var lines := Lines(original);
    LinesEndIn(original);
    BodyEndsIn(lines, entries, |lines| - 1);
    TailEndsIn(lines, entries);
    RenderedEndIn(entries);
  }

  /** A return at the end of a line is not seen when its key is looked for. */
  lemma NameIgnoresReturn(line: string)
    ensures DefinedName(StripReturn(line)) == DefinedName(line)
  {
    hide Trim;
    if EndsInReturn(line) {
      var front := line[..|line| - 1];
      assert line == front + ['\r'];
      if '=' in front {
        var i := IndexOf(front, '=').value;
        assert line == front[..i] + ['='] + (front[i + 1..] + ['\r']);
        IndexOfFirst(front[..i], '=', front[i + 1..] + ['\r']);
        assert line[..i] == front[..i];
      } else {
        assert '=' !in line;
      }
    }
  }

  /** Two lines, the first ending in a return, whose second pass only drops that
      return and restores it with the line ending. */
  lemma TwoLines(entries: seq<Entry>, first: string, second: string)
    requires Accepted(entries) && NoLineFeeds([first, second]) && EndsInReturn(first) && |second| > 0
             && !EndsInReturn(second)
    requires AllSettled([first, second], entries)
    requires forall e <- entries :: e.value.Some? ==> HasActive([first, second], e.key)
    requires OwnerOf(first, entries) == None
    ensures var content := Written([first, second], "\n", false);
            Content(content, entries) == content
  {
    hide Lines, Join, Emit, EndedWithNewline, HasCrLf, Accepted, Settled, HasActive, Written, DefinedName, OwnerOf;
    var lines := [first, second];
    var content := Written(lines, "\n", false);
    var bare := StripReturn(first);
    assert lines[..1] == [first];
    ReadsBack(lines, "\n", false);
    assert ReadAllBack([first], "\n") == [bare];
    assert Lines(content) == [bare, second];
    EndingKept(lines, "\n", false);
    WrittenForm(lines, "\n", false);
    var i := FeedAfter([first], second, 0);
    FoundPair(Join([first], "\n") + second, i);
    BareIsQuiet(entries, first, second);
    QuietEmits([bare, second], entries);
    WrittenForm([bare, second], "\r\n", false);
    assert [bare, second][..1] == [bare];
    JoinOne(first, "\n");
    JoinOne(bare, "\r\n");
    assert first + "\n" == bare + "\r\n";
  }

  lemma FoundPair(text: string, i: nat)
    requires 0 < i < |text| && text[i - 1] == '\r' && text[i] == '\n'
    ensures HasCrLf(text)
  {
  }

  lemma JoinOne(line: string, terminator: string)
    ensures Join([line], terminator) == line + terminator
  {
    assert [line][1..] == [];
    assert line + terminator + "" == line + terminator;
  }

  lemma BareIsQuiet(entries: seq<Entry>, first: string, second: string)
    requires AllSettled([first, second], entries) && OwnerOf(first, entries) == None
    requires forall e <- entries :: e.value.Some? ==> HasActive([first, second], e.key)
    ensures Quiet([StripReturn(first), second], entries)
  {
    hide DefinedName, EntryFor;
    var bare := [StripReturn(first), second];
    NameIgnoresReturn(first);
    assert Settled(bare[0], entries) && Settled(second, entries) by {
      assert second in [first, second];
    }
    forall e | e in entries && e.value.Some?
      ensures HasActive(bare, e.key)
    {
      var i :| 0 <= i < 2 && Active([first, second][i], e.key);
      assert Active(bare[i], e.key);
    }
    hide Settled, HasActive;
    SettledIsQuiet(bare, entries);
  }

  lemma LastKept(original: string, entries: seq<Entry>)
    requires !HasCrLf(original) && EndsInReturn(original) && Accepted(entries)
    ensures !EndedWithNewline(original) && |Lines(original)| > 0
  {
    LastLineNotEmpty(original);
  }

  lemma BodyNotEmpty(lines: seq<string>, entries: seq<Entry>, n: nat)
    requires n <= |lines|
    ensures |EmitBody(lines, entries, n)| >= n && (n == 0 ==> EmitBody(lines, entries, n) == [])
  {
    PositionsAtLeast(lines, entries, n);
  }

  /** When no return is exposed, the second pass changes nothing. */
  lemma Unexposed(original: string, entries: seq<Entry>)
    requires Accepted(entries) && !ExposesReturn(original, entries)
    ensures Content(Content(original, entries), entries) == Content(original, entries)
  {
    hide *;
    if HasCrLf(original) {
      CrLfIdempotent(original, entries);
    } else if EndedWithNewline(original) {
      EndedPlain(original, entries);
      PlainIdempotent(original, entries);
    } else {
      UnendedIdempotent(original, entries);
    }
  }

  lemma UnendedIdempotent(original: string, entries: seq<Entry>)
    requires Accepted(entries) && !ExposesReturn(original, entries) && !HasCrLf(original) && !EndedWithNewline(original)
    ensures Content(Content(original, entries), entries) == Content(original, entries)
  {
    hide *;
    var lines := Lines(original);
    UntilLastEndsIn(original, entries);
    var n := |lines| - 1;
    var body, last, added := EmitBody(lines, entries, n), Replaced(lines[n], entries), AddedAfterLast(lines, entries);
    EmitParts(lines, entries);
    if !EndsInReturn(last) {
      PartsEndIn(body, last, added);
      PlainIdempotent(original, entries);
    } else if |added| == 0 {
      assert (body + [last] + added)[..|body + [last] + added| - 1] == body;
      PlainIdempotent(original, entries);
    } else {
      OnlyTwo(original, entries);
    }
  }

  lemma EndedPlain(original: string, entries: seq<Entry>)
    requires !HasCrLf(original) && Accepted(entries) && EndedWithNewline(original)
    ensures NoneEndsInReturn(Emit(Lines(original), entries))
  {
    hide Lines, HasCrLf, EmitBody, EmitTail, Accepted;
    var lines := Lines(original);
    LinesEndIn(original);
    assert lines[..|lines|] == lines;
    BodyEndsIn(lines, entries, |lines|);
    TailEndsIn(lines, entries);
  }

  lemma PartsEndIn(body: seq<string>, last: string, added: seq<string>)
    requires NoneEndsInReturn(body) && NoneEndsInReturn(added) && !EndsInReturn(last)
    ensures var all := body + [last] + added;
            NoneEndsInReturn(all) && NoneEndsInReturn(all[..|all| - 1])
  {
  }

  /** A kept return with one line added below it makes a file of two lines. */
  lemma TwoEmitted(original: string, entries: seq<Entry>) returns (first: string, second: string)
    requires Accepted(entries) && !HasCrLf(original) && !EndedWithNewline(original)
    requires var lines := Lines(original);
             && |lines| > 0 && EndsInReturn(Replaced(lines[|lines| - 1], entries))
             && |AddedAfterLast(lines, entries)| > 0
    requires !ExposesReturn(original, entries)
    ensures Emit(Lines(original), entries) == [first, second]
    ensures EndsInReturn(first) && !EndsInReturn(second) && OwnerOf(first, entries) == None
  {
    hide Lines, Written, HasCrLf, Accepted, NoneEndsInReturn, EndedWithNewline, OwnerOf, AddedAfterLast, Emit,
        HasActive,
         EmitTail, InsertedAfter, EndsInReturn;
    var lines := Lines(original);
    UntilLastEndsIn(original, entries);
    var added := AddedAfterLast(lines, entries);
    first, second := lines[0], added[0];
    EmitParts(lines, entries);
    assert EmitBody(lines, entries, 0) == [];
    assert Emit(lines, entries) == [first, second];
    AddedEndsIn(added);
  }

  lemma OnlyTwo(original: string, entries: seq<Entry>)
    requires Accepted(entries) && !HasCrLf(original) && !EndedWithNewline(original)
    requires var lines := Lines(original);
             && |lines| > 0 && EndsInReturn(Replaced(lines[|lines| - 1], entries))
             && |AddedAfterLast(lines, entries)| > 0
    requires !ExposesReturn(original, entries)
    ensures Content(Content(original, entries), entries) == Content(original, entries)
  {
    hide Lines, Written, HasCrLf, Accepted, NoneEndsInReturn, EndedWithNewline, OwnerOf, AddedAfterLast, Emit,
        HasActive,
         EmitTail, InsertedAfter, EndsInReturn, ExposesReturn, Replaced, AllSettled, Quiet;
    var lines := Lines(original);
    var first, second := TwoEmitted(original, entries);
    EmittedLines(original, entries);
    EmittedIsQuiet(lines, entries);
    forall e | e in entries && e.value.Some?
      ensures HasActive([first, second], e.key)
    {
      HasActiveSubmitted(lines, entries, e);
    }
    TwoLines(entries, first, second);
  }

  lemma AddedEndsIn(added: seq<string>)
    requires NoneEndsInReturn(added) && |added| > 0
    ensures !EndsInReturn(added[0])
  {
    assert added[0] in added;
  }

  /** When a return is exposed, the file becomes a CRLF file and is rewritten as one. */
  lemma Exposed(original: string, entries: seq<Entry>)
    requires Accepted(entries) && ExposesReturn(original, entries)
    ensures Content(Content(original, entries), entries) != Content(original, entries)
  {
    hide Lines, Emit, Written, HasCrLf, Accepted, NoneEndsInReturn, EndedWithNewline, AddedAfterLast, FeedsPaired, Join;
    LastKept(original, entries);
    var lines, content := Lines(original), Content(original, entries);
    UntilLastEndsIn(original, entries);
    var n := |lines| - 1;
    var body, added := EmitBody(lines, entries, n), AddedAfterLast(lines, entries);
    var emitted := body + [lines[n]] + added;
    EmitParts(lines, entries);
    EmittedLines(original, entries);
    BodyNotEmpty(lines, entries, n);
    var terminated := emitted[..|emitted| - 1];
    WrittenForm(emitted, "\n", false);
    assert terminated[|body|] == lines[n];
    var i := FeedAfter(terminated, emitted[|emitted| - 1], |body|);
    FoundPair(content, i);
    var k := if |body| > 0 then 0 else 1;
    assert !EndsInReturn(terminated[k]) by {
      AddedEndsIn(if |body| > 0 then body else added);
    }
    var j := FeedAfter(terminated, emitted[|emitted| - 1], k);
    LoneFeed(content, j);
    SecondIsPaired(content, entries);
  }

  lemma LoneFeed(text: string, i: nat)
    requires i < |text| && text[i] == '\n' && !(i > 0 && text[i - 1] == '\r')
    ensures !FeedsPaired(text)
  {
  }

  /** What is written for a CRLF file has only paired line feeds. */
  lemma SecondIsPaired(content: string, entries: seq<Entry>)
    requires HasCrLf(content) && Accepted(entries)
    ensures FeedsPaired(Content(content, entries))
  {
    hide Lines, Emit, Written, HasCrLf, Accepted, EndedWithNewline, FeedsPaired, Join;
    var emitted := Emit(Lines(content), entries);
    EmittedLines(content, entries);
    WrittenForm(emitted, "\r\n", EndedWithNewline(content));
    if EndedWithNewline(content) {
      CrLfPairs(emitted, "");
      assert Join(emitted, "\r\n") + "" == Join(emitted, "\r\n");
    } else {
      CrLfPairs(emitted[..|emitted| - 1], emitted[|emitted| - 1]);
    }
  }

  /** For every file and every accepted update, making the update again changes
      nothing if and only if the update exposes no carriage return. */
  lemma EditIdempotentUnless(original: string, entries: seq<Entry>)
    requires Accepted(entries)
    ensures Content(Content(original, entries), entries) == Content(original, entries)
            <==> !ExposesReturn(original, entries)
  {
    hide ExposesReturn, Content;
    if ExposesReturn(original, entries) {
      Exposed(original, entries);
    } else {
      Unexposed(original, entries);
    }
  }

  /** For every file and every accepted update, the content changes if and only if the
      file mixes line endings or some disposition is other than unchanged. */
  lemma ChangeIsExact(original: string, entries: seq<Entry>)
    requires Accepted(entries)
    ensures Content(original, entries) != original
            <==> !R.Uniform(original) || exists e <- entries :: R.DispositionOf(Lines(original), e) != R.Unchanged
  {
    hide Content, Accepted, Lines, R.DispositionOf;
    if R.Uniform(original) {
      R.UniformChange(original, entries);
    } else {
      MixedHasCrLf(original);
      SecondIsPaired(original, entries);
      if Content(original, entries) == original {
        PairedIsUniform(original);
      }
    }
  }

  lemma MixedHasCrLf(text: string)
    requires !R.Uniform(text)
    ensures HasCrLf(text)
  {
  }

  lemma PairedIsUniform(text: string)
    requires FeedsPaired(text) && HasCrLf(text)
    ensures R.Uniform(text)
  {
  }
}
