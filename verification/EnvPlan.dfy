/** What editing an EnvironmentFile does, line by line, and what that means for
    the definitions read from it. */
module EnvPlan {
  import opened Spans
  import opened Text
  import opened EnvSyntax

  // ---------------------------------------------------------------- the entries

  predicate DistinctKeys(entries: seq<Entry>) {
    forall i, j :: 0 <= i < j < |entries| ==> entries[i].key != entries[j].key
  }

  /** What validation lets through. */
  predicate Accepted(entries: seq<Entry>) {
    (forall i :: 0 <= i < |entries| ==> AcceptedEntry(entries[i])) && DistinctKeys(entries)
  }

  /** The entry for a key. */
  function EntryFor(entries: seq<Entry>, key: string): (e: Option<Entry>)
    ensures e.Some? ==> e.value in entries && e.value.key == key
    ensures e == None ==> forall x <- entries :: x.key != key
  {
    if |entries| == 0 then None
    else if entries[0].key == key then Some(entries[0])
    else EntryFor(entries[1..], key)
  }

  lemma EntryFound(entries: seq<Entry>, e: Entry)
    requires DistinctKeys(entries) && e in entries
    ensures EntryFor(entries, e.key) == Some(e)
  {
    var found := EntryFor(entries, e.key).value;
    var i :| 0 <= i < |entries| && entries[i] == e;
    var j :| 0 <= j < |entries| && entries[j] == found;
  }

  // ---------------------------------------------------------------- locating keys

  /** The entry whose key a line defines, which owns and replaces the line. */
  function OwnerOf(line: string, entries: seq<Entry>): (owner: Option<Entry>)
    ensures owner.Some? ==> owner.value in entries && Active(line, owner.value.key)
    ensures owner == None ==> forall e <- entries :: !Active(line, e.key)
  {
    match DefinedName(line)
    case None => None
    case Some(name) => EntryFor(entries, Upper(name))
  }

  /** Among entries with distinct keys the owner is the one entry whose key the line defines. */
  lemma OwnerIsOnly(line: string, entries: seq<Entry>)
    requires DistinctKeys(entries)
    ensures forall e <- entries :: Active(line, e.key) <==> OwnerOf(line, entries) == Some(e)
  {
    forall e | e in entries && Active(line, e.key)
      ensures OwnerOf(line, entries) == Some(e)
    {
      EntryFound(entries, e);
    }
  }

  predicate HasActive(lines: seq<string>, key: string) {
    exists i :: 0 <= i < |lines| && Active(lines[i], key)
  }

  /** The last comment naming the key, not counting lines that define it. */
  function LastComment(lines: seq<string>, key: string): (i: Option<nat>)
    ensures i.Some? ==> i.value < |lines| && Commented(lines[i.value], key) && !Active(lines[i.value], key)
  {
    if |lines| == 0 then None
    else
      var n := |lines| - 1;
      if !Active(lines[n], key) && Commented(lines[n], key) then Some(n) else LastComment(lines[..n], key)
  }

  /** A comment that names the key, on a line that does not define it. */
  predicate NamesOnly(line: string, key: string) {
    Commented(line, key) && !Active(line, key)
  }

  lemma {:induction false} LastCommentIsLast(lines: seq<string>, key: string)
    ensures match LastComment(lines, key)
            case None => forall i :: 0 <= i < |lines| ==> !NamesOnly(lines[i], key)
            case Some(last) =>
              && NamesOnly(lines[last], key)
              && forall i :: last < i < |lines| ==> !NamesOnly(lines[i], key)
  {
    hide Commented, Active;
    if |lines| > 0 {
      LastCommentIsLast(lines[..|lines| - 1], key);
    }
  }

  /** Whether the entry gains a new line below line `i`. */
  predicate InsertsAfter(lines: seq<string>, e: Entry, i: nat) {
    e.value.Some? && !HasActive(lines, e.key) && LastComment(lines, e.key) == Some(i)
  }

  predicate IsAppended(lines: seq<string>, e: Entry) {
    e.value.Some? && !HasActive(lines, e.key) && LastComment(lines, e.key) == None
  }

  /** The entry gaining a new line below line `i`. */
  function InsertedAfter(lines: seq<string>, entries: seq<Entry>, i: nat): (e: Option<Entry>)
    ensures e.Some? ==> e.value in entries && InsertsAfter(lines, e.value, i)
    ensures e == None ==> forall x <- entries :: !InsertsAfter(lines, x, i)
  {
    if |entries| == 0 then None
    else if InsertsAfter(lines, entries[0], i) then Some(entries[0])
    else InsertedAfter(lines, entries[1..], i)
  }

  // ---------------------------------------------------------------- the lines written

  function Replaced(line: string, entries: seq<Entry>): string {
    match OwnerOf(line, entries)
    case None => line
    case Some(e) => Render(e)
  }

  /** What is written for line `i`. */
  function EmitLine(lines: seq<string>, entries: seq<Entry>, i: nat): seq<string>
    requires i < |lines|
  {
    [Replaced(lines[i], entries)]
    + match InsertedAfter(lines, entries, i)
      case None => []
      case Some(e) => [Render(e)]
  }

  function EmitBody(lines: seq<string>, entries: seq<Entry>, n: nat): seq<string>
    requires n <= |lines|
  {
    if n == 0 then [] else EmitBody(lines, entries, n - 1) + EmitLine(lines, entries, n - 1)
  }

  /** The entries that appear nowhere in the file, in order. */
  function Appended(lines: seq<string>, entries: seq<Entry>): (r: seq<Entry>)
    ensures forall e :: e in r <==> e in entries && IsAppended(lines, e)
    ensures (forall e <- entries :: !IsAppended(lines, e)) ==> r == []
  {
    if |entries| == 0 then []
    else
      var before := Appended(lines, entries[..|entries| - 1]);
      assert entries == entries[..|entries| - 1] + [entries[|entries| - 1]];
      if IsAppended(lines, entries[|entries| - 1]) then before + [entries[|entries| - 1]] else before
  }

  function RenderAll(entries: seq<Entry>): (r: seq<string>)
    ensures |r| == |entries|
    ensures forall i :: 0 <= i < |entries| ==> r[i] == Render(entries[i])
  {
    seq(|entries|, i requires 0 <= i < |entries| => Render(entries[i]))
  }

  predicate HasMarker(lines: seq<string>) {
    exists i :: 0 <= i < |lines| && IsMarker(lines[i])
  }

  /** The marker, when the file has none, after an empty line unless it is first. */
  function MarkerLines(lines: seq<string>, body: seq<string>): seq<string> {
    if HasMarker(lines) then []
    else (if |body| > 0 then [""] else []) + [APPEND_MARKER]
  }

  function EmitTail(lines: seq<string>, entries: seq<Entry>): seq<string> {
    var appended := Appended(lines, entries);
    if |appended| == 0 then []
    else MarkerLines(lines, EmitBody(lines, entries, |lines|)) + RenderAll(appended)
  }

  /** All the lines written. */
  function Emit(lines: seq<string>, entries: seq<Entry>): seq<string> {
    EmitBody(lines, entries, |lines|) + EmitTail(lines, entries)
  }

  /** The content written for a file. */
  function Content(original: string, entries: seq<Entry>): string {
    Written(Emit(Lines(original), entries), Terminator(original), EndedWithNewline(original))
  }

  // ---------------------------------------------------------------- editing commutes with updating

  /** The definitions with every key matching a submitted one, in any case,
      removed, and every submitted value bound to its key. */
  function Updated(config: map<string, Value>, entries: seq<Entry>): map<string, Value> {
    (map k | k in config && EntryFor(entries, Upper(k)) == None :: config[k]) + Bound(entries)
  }

  function Bound(entries: seq<Entry>): (bound: map<string, Value>)
    ensures forall e <- entries :: e.value.Some? ==> e.key in bound
  {
    if |entries| == 0 then map[]
    else
      var e := entries[|entries| - 1];
      assert entries == entries[..|entries| - 1] + [e];
      var before := Bound(entries[..|entries| - 1]);
      if e.value.Some? then before[e.key := Text(e.value.value)] else before
  }

  lemma {:induction false} BoundTo(entries: seq<Entry>)
    requires DistinctKeys(entries)
    ensures forall k :: k in Bound(entries) <==> exists e <- entries :: e.key == k && e.value.Some?
    ensures forall e <- entries :: e.value.Some? ==> Bound(entries)[e.key] == Text(e.value.value)
  {
    if |entries| > 0 {
      var n := |entries| - 1;
      BoundTo(entries[..n]);
      assert entries == entries[..n] + [entries[n]];
    }
  }

  /** What the lines written so far define, given what the lines read so far do:
      unsubmitted keys as they were, submitted ones their new values if anything. */
  ghost predicate Tracks(written: map<string, Value>, read: map<string, Value>, entries: seq<Entry>) {
    && (forall k :: EntryFor(entries, Upper(k)) == None ==>
          (k in written <==> k in read) && (k in written ==> written[k] == read[k]))
    && (forall k :: k in written && EntryFor(entries, Upper(k)).Some? ==>
          var e := EntryFor(entries, Upper(k)).value;
          k == e.key && e.value.Some? && written[k] == Text(e.value.value))
  }

  function Define(config: map<string, Value>, line: string): map<string, Value> {
    match ParseLine(line)
    case None => config
    case Some((key, value)) => config[key := value]
  }

  lemma ParseSnoc(lines: seq<string>, line: string)
    ensures ParseLines(lines + [line]) == Define(ParseLines(lines), line)
  {
    assert (lines + [line])[..|lines|] == lines;
  }

  /** Writing an accepted entry's line: nothing for an unset key, else its value. */
  lemma TracksRendered(written: map<string, Value>, read: map<string, Value>, entries: seq<Entry>, e: Entry)
    requires Tracks(written, read, entries) && Accepted(entries) && e in entries
    ensures Tracks(Define(written, Render(e)), read, entries)
    ensures e.value.Some? ==> e.key in Define(written, Render(e))
  {
    EntryFound(entries, e);
    assert AcceptedEntry(e);
    if e.value.Some? {
      RenderedParses(e);
    } else {
      UnsetDefinesNothing(e, e.key);
    }
  }

  /** Reading a line and writing what replaces it. */
  lemma TracksReplaced(written: map<string, Value>, read: map<string, Value>, entries: seq<Entry>, line: string)
    requires Tracks(written, read, entries) && Accepted(entries)
    ensures Tracks(Define(written, Replaced(line, entries)), Define(read, line), entries)
  {
    var owner := OwnerOf(line, entries);
    if owner.Some? {
      var e := owner.value;
      assert AcceptedEntry(e);
      NamedIsParsed(line, e.key);
      EntryFound(entries, e);
      assert Tracks(written, Define(read, line), entries);
      TracksRendered(written, Define(read, line), entries, e);
    } else if ParseLine(line).Some? {
      ParsedName(line);
      var name := ParseLine(line).value.0;
      assert OwnerOf(line, entries) == EntryFor(entries, Upper(name));
    }
  }

  lemma DefineKeeps(config: map<string, Value>, line: string)
    ensures config.Keys <= Define(config, line).Keys
  {
  }

  /** Whether line `i` makes sure that the entry's key is defined. */
  predicate Defines(lines: seq<string>, e: Entry, i: nat)
    requires i < |lines|
  {
    Active(lines[i], e.key) || InsertsAfter(lines, e, i)
  }

  /** The entries that the first `n` lines make sure of are defined. */
  ghost predicate DefinedUpTo(written: map<string, Value>, lines: seq<string>, entries: seq<Entry>, n: nat)
    requires n <= |lines|
  {
    forall e <- entries, i | 0 <= i < n && e.value.Some? && Defines(lines, e, i) :: e.key in written
  }

  lemma DefinedMore(before: map<string, Value>, after: map<string, Value>, lines: seq<string>, entries: seq<Entry>,
                    n: nat)
    requires n < |lines| && DefinedUpTo(before, lines, entries, n) && before.Keys <= after.Keys
    requires forall e <- entries :: e.value.Some? && Defines(lines, e, n) ==> e.key in after
    ensures DefinedUpTo(after, lines, entries, n + 1)
  {
  }

  /** Reading line `i` and writing what is written for it. */
  lemma TracksLine(before: seq<string>, read: map<string, Value>, lines: seq<string>,
                   entries: seq<Entry>, i: nat)
    requires i < |lines| && Accepted(entries)
    requires Tracks(ParseLines(before), read, entries)
    ensures var after := ParseLines(before + EmitLine(lines, entries, i));
            && Tracks(after, Define(read, lines[i]), entries)
            && ParseLines(before).Keys <= after.Keys
            && forall e <- entries :: e.value.Some? && Defines(lines, e, i) ==> e.key in after
  {
    hide Tracks, ParseLines, Active, InsertsAfter, Render;
    var first := Replaced(lines[i], entries);
    var inserted := InsertedAfter(lines, entries, i);
    var one := before + [first];
    ParseSnoc(before, first);
    TracksReplaced(ParseLines(before), read, entries, lines[i]);
    DefineKeeps(ParseLines(before), first);
    ReplacedDefines(ParseLines(before), lines[i], entries);
    if inserted == None {
      assert before + EmitLine(lines, entries, i) == one;
      assert forall e <- entries :: !InsertsAfter(lines, e, i);
    } else {
      var e := inserted.value;
      assert before + EmitLine(lines, entries, i) == one + [Render(e)];
      ParseSnoc(one, Render(e));
      TracksRendered(ParseLines(one), Define(read, lines[i]), entries, e);
      DefineKeeps(ParseLines(one), Render(e));
      InsertedOnce(lines, entries, i, e);
    }
  }

  /** The line replacing an active line defines its owner's key, unless that is unset. */
  lemma ReplacedDefines(config: map<string, Value>, line: string, entries: seq<Entry>)
    requires Accepted(entries)
    ensures forall e <- entries ::
            e.value.Some? && Active(line, e.key) ==> e.key in Define(config, Replaced(line, entries))
  {
    forall e | e in entries && e.value.Some? && Active(line, e.key)
      ensures e.key in Define(config, Replaced(line, entries))
    {
      EntryFound(entries, e);
      assert AcceptedEntry(e);
      assert OwnerOf(line, entries) == Some(e);
      RenderedParses(e);
    }
  }

  /** No two entries gain a line below the same line. */
  lemma InsertedOnce(lines: seq<string>, entries: seq<Entry>, i: nat, e: Entry)
    requires Accepted(entries) && e in entries && InsertsAfter(lines, e, i)
    ensures forall x <- entries :: InsertsAfter(lines, x, i) ==> x == e
  {
    forall x | x in entries && InsertsAfter(lines, x, i)
      ensures x == e
    {
      assert Commented(lines[i], x.key) && Commented(lines[i], e.key);
      assert x.key == e.key;
      EntryFound(entries, x);
      EntryFound(entries, e);
    }
  }

  lemma {:induction false} TracksBody(lines: seq<string>, entries: seq<Entry>, n: nat)
    requires n <= |lines| && Accepted(entries)
    ensures var written := ParseLines(EmitBody(lines, entries, n));
            Tracks(written, ParseLines(lines[..n]), entries) && DefinedUpTo(written, lines, entries, n)
  {
    hide Tracks, Defines, EmitLine, Define, Accepted;
    if n == 0 {
      TracksNothing(entries);
      assert lines[..0] == [];
    } else {
      var before, read := EmitBody(lines, entries, n - 1), ParseLines(lines[..n - 1]);
      TracksBody(lines, entries, n - 1);
      assert lines[..n] == lines[..n - 1] + [lines[n - 1]];
      ParseSnoc(lines[..n - 1], lines[n - 1]);
      TracksLine(before, read, lines, entries, n - 1);
      DefinedMore(ParseLines(before), ParseLines(EmitBody(lines, entries, n)), lines, entries, n - 1);
    }
  }

  lemma TracksNothing(entries: seq<Entry>)
    ensures Tracks(map[], map[], entries)
  {
  }

  lemma {:induction false} TracksAppended(before: seq<string>, read: map<string, Value>, entries: seq<Entry>,
                                          appended: seq<Entry>)
    requires Accepted(entries) && Tracks(ParseLines(before), read, entries)
    requires forall e <- appended :: e in entries
    ensures var written := ParseLines(before + RenderAll(appended));
            && Tracks(written, read, entries)
            && ParseLines(before).Keys <= written.Keys
            && forall e <- appended :: e.value.Some? ==> e.key in written
  {
    hide Tracks, Render, Accepted, ParseLine, ParseLines, Define;
    if |appended| == 0 {
      assert before + RenderAll(appended) == before;
    } else {
      var n := |appended| - 1;
      var e := appended[n];
      var some := before + RenderAll(appended[..n]);
      TracksAppended(before, read, entries, appended[..n]);
      assert before + RenderAll(appended) == some + [Render(e)];
      ParseSnoc(some, Render(e));
      TracksRendered(ParseLines(some), read, entries, e);
      DefineKeeps(ParseLines(some), Render(e));
      assert appended == appended[..n] + [e];
    }
  }

  lemma DefinesNothing(lines: seq<string>, line: string)
    requires ParseLine(line) == None
    ensures ParseLines(lines + [line]) == ParseLines(lines)
  {
    ParseSnoc(lines, line);
  }

  lemma MarkerLinesDefineNothing(before: seq<string>, lines: seq<string>, body: seq<string>)
    ensures ParseLines(before + MarkerLines(lines, body)) == ParseLines(before)
  {
    hide ParseLines, ParseLine, HasMarker, DefinedName, IsMarker;
    MarkerDefinesNothing();
    if HasMarker(lines) {
      assert before + MarkerLines(lines, body) == before;
    } else if |body| > 0 {
      assert before + MarkerLines(lines, body) == before + [""] + [APPEND_MARKER];
      DefinesNothing(before, "");
      DefinesNothing(before + [""], APPEND_MARKER);
    } else {
      assert before + MarkerLines(lines, body) == before + [APPEND_MARKER];
      DefinesNothing(before, APPEND_MARKER);
    }
  }

  /** Every submitted value is defined by some line written. */
  lemma EveryValueWritten(lines: seq<string>, entries: seq<Entry>, e: Entry)
    requires e in entries && e.value.Some?
    ensures e in Appended(lines, entries) || exists i :: 0 <= i < |lines| && Defines(lines, e, i)
  {
    if HasActive(lines, e.key) {
      var i :| 0 <= i < |lines| && Active(lines[i], e.key);
      assert Defines(lines, e, i);
    } else if LastComment(lines, e.key).Some? {
      assert Defines(lines, e, LastComment(lines, e.key).value);
    }
  }

  /** The lines written track the lines read, and define every submitted value. */
  lemma TracksEmit(lines: seq<string>, entries: seq<Entry>)
    requires Accepted(entries)
    ensures var written := ParseLines(Emit(lines, entries));
            && Tracks(written, ParseLines(lines), entries)
            && forall e <- entries :: e.value.Some? ==> e.key in written
  {
    hide Tracks, Defines, EmitBody, ParseLines, Accepted, MarkerLines;
    var body := EmitBody(lines, entries, |lines|);
    var appended := Appended(lines, entries);
    TracksBody(lines, entries, |lines|);
    assert lines[..|lines|] == lines;
    forall e | e in entries && e.value.Some?
      ensures e in appended || e.key in ParseLines(body)
    {
      EveryValueWritten(lines, entries, e);
    }
    if |appended| == 0 {
      assert Emit(lines, entries) == body;
    } else {
      var marker := MarkerLines(lines, body);
      MarkerLinesDefineNothing(body, lines, body);
      TracksAppended(body + marker, ParseLines(lines), entries, appended);
      assert Emit(lines, entries) == body + marker + RenderAll(appended);
    }
  }

  lemma SubmittedFound(entries: seq<Entry>)
    requires Accepted(entries)
    ensures DistinctKeys(entries) && forall e <- entries :: Upper(e.key) == e.key && EntryFor(entries, e.key) == Some(e)
  {
    hide EntryFor;
    forall e | e in entries
      ensures Upper(e.key) == e.key && EntryFor(entries, e.key) == Some(e)
    {
      var i :| 0 <= i < |entries| && entries[i] == e;
      assert AcceptedEntry(entries[i]);
      EntryFound(entries, e);
    }
  }

  lemma TrackedIsUpdated(written: map<string, Value>, read: map<string, Value>, entries: seq<Entry>)
    requires Accepted(entries) && Tracks(written, read, entries)
    requires forall e <- entries :: e.value.Some? ==> e.key in written
    ensures written == Updated(read, entries)
  {
    hide Accepted, Upper, EntryFor, DistinctKeys, Bound;
    SubmittedFound(entries);
    BoundTo(entries);
    BoundIsSubmitted(entries);
    var updated := Updated(read, entries);
    forall k
      ensures k in written <==> k in updated
      ensures k in written ==> written[k] == updated[k]
    {
      var e := EntryFor(entries, Upper(k));
      assert e == None ==> k !in Bound(entries);
    }
  }

  /** A bound key is the key of the entry it is found by. */
  lemma BoundIsSubmitted(entries: seq<Entry>)
    requires DistinctKeys(entries)
    requires forall e <- entries :: Upper(e.key) == e.key && EntryFor(entries, e.key) == Some(e)
    ensures forall k :: k in Bound(entries) ==>
              Upper(k) == k && EntryFor(entries, k).Some? && EntryFor(entries, k).value.key == k
                  && EntryFor(entries, k).value.value.Some?
  {
    BoundTo(entries);
  }

  /** Editing the lines is updating what they define. */
  lemma LinesCommute(lines: seq<string>, entries: seq<Entry>)
    requires Accepted(entries)
    ensures ParseLines(Emit(lines, entries)) == Updated(ParseLines(lines), entries)
  {
    TracksEmit(lines, entries);
    TrackedIsUpdated(ParseLines(Emit(lines, entries)), ParseLines(lines), entries);
  }

  // ---------------------------------------------------------------- the lines written are lines

  lemma {:induction false} BodyIsLines(lines: seq<string>, entries: seq<Entry>, n: nat)
    requires NoLineFeeds(lines) && Accepted(entries) && n <= |lines|
    ensures NoLineFeeds(EmitBody(lines, entries, n))
    ensures n > 0 && |lines[n - 1]| > 0 ==>
              var body := EmitBody(lines, entries, n);
              |body| > 0 && |body[|body| - 1]| > 0
  {
    hide EmitLine, Accepted;
    if n > 0 {
      BodyIsLines(lines, entries, n - 1);
      LineIsLines(lines, entries, n - 1);
    }
  }

  lemma LineIsLines(lines: seq<string>, entries: seq<Entry>, i: nat)
    requires NoLineFeeds(lines) && Accepted(entries) && i < |lines|
    ensures var emitted := EmitLine(lines, entries, i);
            && NoLineFeeds(emitted) && |emitted| > 0
            && (|lines[i]| > 0 ==> |emitted[|emitted| - 1]| > 0)
  {
    var owner, inserted := OwnerOf(lines[i], entries), InsertedAfter(lines, entries, i);
    if owner.Some? {
      assert AcceptedEntry(owner.value);
      RenderedIsLine(owner.value);
    }
    if inserted.Some? {
      assert AcceptedEntry(inserted.value);
      RenderedIsLine(inserted.value);
    }
  }

  lemma RenderedAreLines(appended: seq<Entry>)
    requires forall e <- appended :: AcceptedEntry(e)
    ensures NoLineFeeds(RenderAll(appended))
    ensures |appended| > 0 ==> |RenderAll(appended)[|appended| - 1]| > 0
  {
    forall i | 0 <= i < |appended|
      ensures '\n' !in RenderAll(appended)[i] && |RenderAll(appended)[i]| > 0
    {
      assert appended[i] in appended;
      RenderedIsLine(appended[i]);
    }
  }

  lemma MarkerLinesAreLines(lines: seq<string>, body: seq<string>)
    ensures NoLineFeeds(MarkerLines(lines, body))
  {
    hide HasMarker, ParseLine, DefinedName, IsMarker;
    MarkerDefinesNothing();
  }

  lemma AppendedAreAccepted(lines: seq<string>, entries: seq<Entry>)
    requires Accepted(entries)
    ensures forall e <- Appended(lines, entries) :: AcceptedEntry(e)
  {
    forall e | e in Appended(lines, entries)
      ensures AcceptedEntry(e)
    {
      var i :| 0 <= i < |entries| && entries[i] == e;
    }
  }

  lemma TailIsLines(lines: seq<string>, entries: seq<Entry>)
    requires Accepted(entries)
    ensures NoLineFeeds(EmitTail(lines, entries))
    ensures var tail := EmitTail(lines, entries);
            |tail| > 0 ==> |tail[|tail| - 1]| > 0
  {
    hide EmitBody, MarkerLines, Appended, Accepted, AcceptedEntry;
    var appended := Appended(lines, entries);
    AppendedAreAccepted(lines, entries);
    RenderedAreLines(appended);
    MarkerLinesAreLines(lines, EmitBody(lines, entries, |lines|));
  }

  lemma EmitIsLines(lines: seq<string>, entries: seq<Entry>)
    requires NoLineFeeds(lines) && Accepted(entries)
    ensures NoLineFeeds(Emit(lines, entries))
    ensures |lines| > 0 && |lines[|lines| - 1]| > 0 ==>
              var emitted := Emit(lines, entries);
              |emitted| > 0 && |emitted[|emitted| - 1]| > 0
  {
    hide EmitBody, EmitTail, Accepted;
    BodyIsLines(lines, entries, |lines|);
    TailIsLines(lines, entries);
  }

  lemma {:induction false} ParseSameLines(a: seq<string>, b: seq<string>, terminator: string)
    requires |a| == |b|
    requires forall i :: 0 <= i < |a| ==> a[i] == b[i] || a[i] == ReadBack(b[i], terminator)
    ensures ParseLines(a) == ParseLines(b)
  {
    if |a| > 0 {
      var n := |a| - 1;
      ParseSameLines(a[..n], b[..n], terminator);
      ParseIgnoresReturn(b[n]);
    }
  }

  /** For every file and every accepted update, what is read from the content
      written is the update of what is read from the original. */
  lemma EditCommutes(original: string, entries: seq<Entry>)
    requires Accepted(entries)
    ensures ParseContent(Content(original, entries)) == Updated(ParseContent(original), entries)
  {
    hide Emit, Accepted, ParseLines, Lines, Written, Updated;
    var lines := Lines(original);
    var emitted := Emit(lines, entries);
    LinesHaveNoLineFeeds(original);
    EmitIsLines(lines, entries);
    if !EndedWithNewline(original) {
      LastLineNotEmpty(original);
    }
    LinesOfWritten(emitted, Terminator(original), EndedWithNewline(original));
    ParseSameLines(Lines(Content(original, entries)), emitted, Terminator(original));
    LinesCommute(lines, entries);
  }
}
