/** What an edit reports of each submitted key, and that it is what the edit did. */
module EnvReport {
  import opened Spans
  import opened Text
  import opened EnvSyntax
  import opened EnvPlan
  import opened EnvStable

  /** What an edit does for a submitted key. */
  datatype Disposition =
    | Updated    // an active line was rewritten
    | Inserted   // a new line was inserted below the last comment naming the key
    | Appended   // a new line was appended
    | Unset      // an active line was commented out
    | Unchanged  // no line changed

  /** Whether every line defining the entry's key is already as it would be written. */
  predicate ActiveSettled(lines: seq<string>, e: Entry) {
    forall i :: 0 <= i < |lines| && Active(lines[i], e.key) ==> lines[i] == Render(e)
  }

  function Rewritten(e: Entry): Disposition {
    if e.value.Some? then Updated else Unset
  }

  function DispositionOf(lines: seq<string>, e: Entry): Disposition {
    if HasActive(lines, e.key) then (if ActiveSettled(lines, e) then Unchanged else Rewritten(e))
    else if e.value == None then Unchanged
    else if LastComment(lines, e.key).Some? then Inserted
    else Appended
  }

  predicate AllUnchanged(lines: seq<string>, entries: seq<Entry>) {
    forall e <- entries :: DispositionOf(lines, e) == Unchanged
  }

  /** An edit has nothing to do if and only if every disposition says so. */
  lemma QuietIfUnchanged(lines: seq<string>, entries: seq<Entry>)
    requires Accepted(entries)
    ensures Quiet(lines, entries) <==> AllUnchanged(lines, entries)
  {
    if Quiet(lines, entries) {
      forall e | e in entries
        ensures DispositionOf(lines, e) == Unchanged
      {
        QuietEntry(lines, entries, e);
      }
    }
    if AllUnchanged(lines, entries) {
      UnchangedEntries(lines, entries);
    }
  }

  lemma QuietEntry(lines: seq<string>, entries: seq<Entry>, e: Entry)
    requires Accepted(entries) && Quiet(lines, entries) && e in entries
    ensures DispositionOf(lines, e) == Unchanged
  {
    EntryFound(entries, e);
    var k :| 0 <= k < |entries| && entries[k] == e;
    assert AcceptedEntry(entries[k]);
    forall i | 0 <= i < |lines| && Active(lines[i], e.key)
      ensures lines[i] == Render(e)
    {
      assert OwnerOf(lines[i], entries) == Some(e);
      assert Settled(lines[i], entries);
    }
    assert e !in EnvPlan.Appended(lines, entries);
    forall i | 0 <= i < |lines|
      ensures !InsertsAfter(lines, e, i)
    {
      assert InsertedAfter(lines, entries, i) == None;
    }
    assert LastComment(lines, e.key).Some? ==> LastComment(lines, e.key).value < |lines|;
  }

  lemma UnchangedEntries(lines: seq<string>, entries: seq<Entry>)
    requires AllUnchanged(lines, entries)
    ensures Quiet(lines, entries)
  {
    forall e | e in entries
      ensures !IsAppended(lines, e) && ActiveSettled(lines, e) && forall i: nat :: !InsertsAfter(lines, e, i)
    {
      assert DispositionOf(lines, e) == Unchanged;
    }
    forall i | 0 <= i < |lines|
      ensures Settled(lines[i], entries)
    {
      var owner := OwnerOf(lines[i], entries);
      assert owner.Some? ==> owner.value in entries && Active(lines[i], owner.value.key);
    }
  }

  // ---------------------------------------------------------------- what a disposition tells

  /** Whether the key is defined, in any case. */
  predicate DefinesKey(config: map<string, Value>, key: string) {
    exists k <- config :: Upper(k) == key
  }

  lemma {:induction false} ActiveIsDefined(lines: seq<string>, key: string)
    requires ValidKey(key)
    ensures HasActive(lines, key) <==> DefinesKey(ParseLines(lines), key)
  {
    hide ParseLine, Active;
    if |lines| > 0 {
      var n := |lines| - 1;
      ActiveIsDefined(lines[..n], key);
      ActiveIsParsed(lines[n], key);
      var before, config := ParseLines(lines[..n]), ParseLines(lines);
      assert forall k <- before :: k in config;
      assert HasActive(lines, key) <==> HasActive(lines[..n], key) || Active(lines[n], key) by {
        assert forall i :: 0 <= i < n ==> lines[..n][i] == lines[i];
      }
    }
  }

  /** What the edit makes of an accepted entry's key. */
  lemma EditDefines(config: map<string, Value>, entries: seq<Entry>, e: Entry)
    requires Accepted(entries) && e in entries
    ensures var after := EnvPlan.Updated(config, entries);
            if e.value.Some? then e.key in after && after[e.key] == Value.Text(e.value.value)
            else !DefinesKey(after, e.key)
  {
    BoundTo(entries);
    EntryFound(entries, e);
    EntryAccepted(entries, e);
    forall k | k in EnvPlan.Updated(config, entries) && e.value == None
      ensures Upper(k) != e.key
    {
      if k in Bound(entries) {
        var x :| x in entries && x.key == k && x.value.Some?;
        EntryFound(entries, x);
        EntryAccepted(entries, x);
      }
    }
  }

  /** What was defined and what comes to be, told by the disposition: a key that was defined is
      updated, unset or already as it should be; one that was not is inserted below a comment
      that names it or else appended, unless it is to be unset. */
  lemma DispositionTells(original: string, entries: seq<Entry>, e: Entry)
    requires Accepted(entries) && e in entries
    ensures var lines := Lines(original);
            var before, after := ParseContent(original), ParseContent(Content(original, entries));
            var named := exists i :: 0 <= i < |lines| && NamesOnly(lines[i], e.key);
            && (if e.value.Some? then e.key in after && after[e.key] == Value.Text(e.value.value)
                else !DefinesKey(after, e.key))
            && match DispositionOf(lines, e)
               case Updated => e.value.Some? && DefinesKey(before, e.key) && !ActiveSettled(lines, e)
               case Unset => e.value == None && DefinesKey(before, e.key)
               case Inserted => e.value.Some? && !DefinesKey(before, e.key) && named
               case Appended => e.value.Some? && !DefinesKey(before, e.key) && !named
               case Unchanged => ActiveSettled(lines, e) && (e.value.Some? <==> DefinesKey(before, e.key))
  {
    hide ParseLines, Lines, Content, Active, NamesOnly, DefinesKey;
    var lines := Lines(original);
    EditCommutes(original, entries);
    EditDefines(ParseContent(original), entries, e);
    EntryAccepted(entries, e);
    ActiveIsDefined(lines, e.key);
    LastCommentIsLast(lines, e.key);
    if e.value == None && HasActive(lines, e.key) {
      var i :| 0 <= i < |lines| && Active(lines[i], e.key);
      UnsetDefinesNothing(e, e.key);
      assert lines[i] != Render(e);
    }
  }

  lemma EntryAccepted(entries: seq<Entry>, e: Entry)
    requires Accepted(entries) && e in entries
    ensures AcceptedEntry(e)
  {
  }

  // ---------------------------------------------------------------- uniform files

  /** Whether the line feed at `i`, if there is one, is in a CRLF pair just when it should be. */
  predicate FeedMatches(text: string, i: nat, crlf: bool)
    requires i < |text|
  {
    text[i] == '\n' ==> (crlf <==> i > 0 && text[i - 1] == '\r')
  }

  predicate UniformWith(text: string, crlf: bool) {
    forall i :: 0 <= i < |text| ==> FeedMatches(text, i, crlf)
  }

  /** Every line feed follows a carriage return, or none does. */
  predicate Uniform(text: string) {
    UniformWith(text, HasCrLf(text))
  }

  lemma FirstLine(text: string, i: nat, terminator: string)
    requires IsTerminator(terminator) && UniformWith(text, terminator == "\r\n")
    requires IndexOf(text, '\n') == Some(i)
    ensures StripReturn(text[..i]) + terminator == text[..i + 1]
    ensures UniformWith(text[i + 1..], terminator == "\r\n")
  {
    var front, rest := text[..i], text[i + 1..];
    var crlf := terminator == "\r\n";
    assert FeedMatches(text, i, crlf);
    if crlf {
      assert front == StripReturn(front) + "\r";
    }
    forall k | 0 <= k < |rest|
      ensures FeedMatches(rest, k, crlf)
    {
      assert FeedMatches(text, i + 1 + k, crlf);
    }
  }

  lemma LinesCons(text: string, i: nat, terminator: string)
    requires IndexOf(text, '\n') == Some(i)
    ensures Join(Lines(text), terminator)
            == StripReturn(text[..i]) + terminator + Join(Lines(text[i + 1..]), terminator)
    ensures EndedWithNewline(text) == EndedWithNewline(text[i + 1..])
  {
    assert Lines(text)[1..] == Lines(text[i + 1..]);
  }

  lemma JoinOneLine(text: string, terminator: string)
    requires IndexOf(text, '\n') == None
    ensures Join(Lines(text), terminator) == text + if EndedWithNewline(text) then "" else terminator
  {
    assert |text| > 0 ==> text[|text| - 1] in text;
    assert [text][1..] == [];
    assert Join([text], terminator) == text + terminator + "";
  }

  lemma {:induction false} JoinLines(text: string, terminator: string)
    requires IsTerminator(terminator) && UniformWith(text, terminator == "\r\n")
    ensures Join(Lines(text), terminator) == text + if EndedWithNewline(text) then "" else terminator
    decreases |text|
  {
    hide UniformWith, StripReturn, Lines, Join, EndedWithNewline;
    match IndexOf(text, '\n')
    case None => JoinOneLine(text, terminator);
    case Some(i) =>
      FirstLine(text, i, terminator);
      JoinLines(text[i + 1..], terminator);
      LinesCons(text, i, terminator);
      assert text == text[..i + 1] + text[i + 1..];
  }

  /** A uniform file is written back as it is. */
  lemma UniformRoundTrip(original: string)
    requires Uniform(original)
    ensures Written(Lines(original), Terminator(original), EndedWithNewline(original)) == original
  {
    JoinLines(original, Terminator(original));
  }

  /** What is written tells the lines apart. */
  lemma WrittenDiffers(original: string, entries: seq<Entry>)
    requires Accepted(entries)
    requires Written(Lines(original), Terminator(original), EndedWithNewline(original)) == original
    ensures Content(original, entries) == original <==> Emit(Lines(original), entries) == Lines(original)
  {
    hide Lines, Emit, Written, Accepted, EndedWithNewline, HasCrLf;
    var lines, ended, terminator := Lines(original), EndedWithNewline(original), Terminator(original);
    var emitted := Emit(lines, entries);
    if Content(original, entries) == original {
      LinesHaveNoLineFeeds(original);
      EmitIsLines(lines, entries);
      if !ended {
        LastLineNotEmpty(original);
      }
      LinesOfWritten(emitted, terminator, ended);
      SameLength(lines, entries);
      EntriesRender(entries);
      forall i | 0 <= i < |lines|
        ensures emitted[i] == lines[i]
      {
        ReplacedReadBack(lines[i], entries, terminator);
      }
    }
  }

  lemma ReplacedReadBack(line: string, entries: seq<Entry>, terminator: string)
    requires Accepted(entries)
    requires line == Replaced(line, entries) || line == ReadBack(Replaced(line, entries), terminator)
    ensures line == Replaced(line, entries)
  {
    var owner := OwnerOf(line, entries);
    if owner.Some? {
      EntriesRender(entries);
      var rendered := Render(owner.value);
      assert |rendered| > 0 ==> rendered[|rendered| - 1] in rendered;
    }
  }

  /** For a uniform file, the content changes if and only if some disposition
      is other than unchanged. */
  lemma UniformChange(original: string, entries: seq<Entry>)
    requires Uniform(original) && Accepted(entries)
    ensures Content(original, entries) != original <==> exists e <- entries ::
            DispositionOf(Lines(original), e) != Unchanged
  {
    hide Lines, Content, Emit, Quiet, Accepted, DispositionOf, Uniform;
    UniformRoundTrip(original);
    WrittenDiffers(original, entries);
    UnchangedIfQuiet(Lines(original), entries);
    QuietIfUnchanged(Lines(original), entries);
  }
}
