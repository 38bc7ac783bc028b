/** What an edit leaves alone: lines without an owner, their order, and a file that has nothing to do. */
module EnvStable {
  import opened Spans
  import opened Text
  import opened EnvSyntax
  import opened EnvPlan
  import opened EnvValues

  // ---------------------------------------------------------------- lines an edit leaves alone

  predicate Settled(line: string, entries: seq<Entry>) {
    Replaced(line, entries) == line
  }

  /** An edit that has nothing to rewrite, insert or append. */
  predicate Quiet(lines: seq<string>, entries: seq<Entry>) {
    && (forall i :: 0 <= i < |lines| ==> Settled(lines[i], entries) && InsertedAfter(lines, entries, i) == None)
    && Appended(lines, entries) == []
  }

  lemma {:induction false} QuietBody(lines: seq<string>, entries: seq<Entry>, n: nat)
    requires Quiet(lines, entries) && n <= |lines|
    ensures EmitBody(lines, entries, n) == lines[..n]
  {
    if n > 0 {
      QuietBody(lines, entries, n - 1);
      assert Settled(lines[n - 1], entries);
    }
  }

  lemma QuietEmits(lines: seq<string>, entries: seq<Entry>)
    requires Quiet(lines, entries)
    ensures Emit(lines, entries) == lines
  {
    QuietBody(lines, entries, |lines|);
  }

  /** Where line `i` of the original is written. */
  function Position(lines: seq<string>, entries: seq<Entry>, i: nat): nat
    requires i <= |lines|
  {
    |EmitBody(lines, entries, i)|
  }

  lemma LineParts(lines: seq<string>, entries: seq<Entry>, i: nat)
    requires i < |lines|
    ensures var emitted := EmitLine(lines, entries, i);
            && |emitted| == (if InsertedAfter(lines, entries, i).Some? then 2 else 1)
            && emitted[0] == Replaced(lines[i], entries)
  {
    hide Replaced, InsertedAfter;
  }

  lemma {:induction false} BodyGrows(lines: seq<string>, entries: seq<Entry>, i: nat, n: nat)
    requires i < n <= |lines|
    ensures var body := EmitBody(lines, entries, n);
            && Position(lines, entries, i) < |body|
            && body[Position(lines, entries, i)] == Replaced(lines[i], entries)
            && Position(lines, entries, i) + (n - i) <= |body|
            && (InsertedAfter(lines, entries, i).Some? ==> Position(lines, entries, i) + (n - i) < |body|)
  {
    hide Replaced, InsertedAfter, EmitLine;
    if 0 < n {
      LineParts(lines, entries, n - 1);
    }
    if i < n - 1 {
      BodyGrows(lines, entries, i, n - 1);
    }
  }

  /** Every line is written where it was read, replaced by its owner or, without one, unchanged. */
  lemma UnownedLinesSurvive(lines: seq<string>, entries: seq<Entry>, i: nat)
    requires i < |lines|
    ensures var emitted := Emit(lines, entries);
            && Position(lines, entries, i) < |emitted|
            && emitted[Position(lines, entries, i)] == Replaced(lines[i], entries)
            && (OwnerOf(lines[i], entries) == None ==> emitted[Position(lines, entries, i)] == lines[i])
  {
    hide EmitTail, EmitBody;
    BodyGrows(lines, entries, i, |lines|);
  }

  /** The lines keep their order. */
  lemma LinesKeepOrder(lines: seq<string>, entries: seq<Entry>, i: nat, j: nat)
    requires i < j < |lines|
    ensures Position(lines, entries, i) < Position(lines, entries, j)
  {
    BodyGrows(lines, entries, i, j);
  }

  /** A value whose key has no line, but is named by a comment, is written just below the last such comment. */
  lemma InsertedBelow(lines: seq<string>, entries: seq<Entry>, e: Entry, i: nat)
    requires Accepted(entries) && e in entries && e.value.Some? && i < |lines|
    requires forall j :: 0 <= j < |lines| ==> !Active(lines[j], e.key)
    requires NamesOnly(lines[i], e.key) && forall j :: i < j < |lines| ==> !NamesOnly(lines[j], e.key)
    ensures var emitted, below := Emit(lines, entries), Position(lines, entries, i) + 1;
            below < |emitted| && emitted[below] == Render(e)
  {
    hide Active, Commented, NamesOnly, EmitTail, Accepted, Render;
    LastCommentIsLast(lines, e.key);
    assert InsertsAfter(lines, e, i);
    InsertedOnce(lines, entries, i, e);
    InsertedInBody(lines, entries, i, |lines|, e);
  }

  lemma {:induction false} InsertedInBody(lines: seq<string>, entries: seq<Entry>, i: nat, n: nat, e: Entry)
    requires i < n <= |lines| && InsertedAfter(lines, entries, i) == Some(e)
    ensures var body, below := EmitBody(lines, entries, n), Position(lines, entries, i) + 1;
            below < |body| && body[below] == Render(e)
  {
    hide InsertedAfter, EmitLine, Render;
    LineParts(lines, entries, n - 1);
    if i < n - 1 {
      InsertedInBody(lines, entries, i, n - 1, e);
    } else {
      InsertedLine(lines, entries, i, e);
    }
  }

  lemma InsertedLine(lines: seq<string>, entries: seq<Entry>, i: nat, e: Entry)
    requires i < |lines| && InsertedAfter(lines, entries, i) == Some(e)
    ensures |EmitLine(lines, entries, i)| == 2 && EmitLine(lines, entries, i)[1] == Render(e)
  {
  }

  /** The value's key has no line and no comment names it. */
  predicate IsMissing(lines: seq<string>, e: Entry) {
    e.value.Some? && forall i :: 0 <= i < |lines| ==> !Active(lines[i], e.key) && !NamesOnly(lines[i], e.key)
  }

  /** `at` are the places of the missing entries, in order. */
  ghost predicate MissingAt(lines: seq<string>, entries: seq<Entry>, at: seq<nat>) {
    && (forall j, k :: 0 <= j < k < |at| ==> at[j] < at[k])
    && (forall k :: 0 <= k < |at| ==> at[k] < |entries| && IsMissing(lines, entries[at[k]]))
    && (forall k: nat :: k < |entries| && k !in at ==> !IsMissing(lines, entries[k]))
  }

  lemma MissingIsAppended(lines: seq<string>, e: Entry)
    ensures IsMissing(lines, e) <==> IsAppended(lines, e)
  {
    hide Active, NamesOnly;
    LastCommentIsLast(lines, e.key);
  }

  lemma MissingMore(lines: seq<string>, entries: seq<Entry>, last: Entry, at: seq<nat>)
    requires MissingAt(lines, entries, at)
    ensures MissingAt(lines, entries + [last], if IsMissing(lines, last) then at + [|entries|] else at)
  {
    hide IsMissing;
    var more := entries + [last];
    assert forall k :: 0 <= k < |entries| ==> more[k] == entries[k];
    if IsMissing(lines, last) {
      InLonger(at, |entries|);
      forall k: nat | k < |more| && k !in at + [|entries|]
        ensures !IsMissing(lines, more[k])
      {
        assert k < |entries| && k !in at;
      }
      forall j, k | 0 <= j < k < |at + [|entries|]|
        ensures (at + [|entries|])[j] < (at + [|entries|])[k]
      {
        assert j < |at| && at[j] < |entries|;
      }
    }
  }

  lemma InLonger(at: seq<nat>, n: nat)
    ensures forall k: nat :: k in at + [n] <==> k in at || k == n
  {
  }

  lemma {:induction false} AppendedInOrder(lines: seq<string>, entries: seq<Entry>) returns (at: seq<nat>)
    ensures MissingAt(lines, entries, at) && |at| == |EnvPlan.Appended(lines, entries)|
    ensures forall k :: 0 <= k < |at| ==> at[k] < |entries| && EnvPlan.Appended(lines, entries)[k] == entries[at[k]]
  {
    hide IsMissing, IsAppended, MissingAt;
    if |entries| == 0 {
      at := [];
      NoneMissing(lines);
    } else {
      var n := |entries| - 1;
      var before := AppendedInOrder(lines, entries[..n]);
      MissingIsAppended(lines, entries[n]);
      MissingMore(lines, entries[..n], entries[n], before);
      assert entries[..n] + [entries[n]] == entries;
      at := if IsAppended(lines, entries[n]) then before + [n] else before;
    }
  }

  lemma NoneMissing(lines: seq<string>)
    ensures MissingAt(lines, [], [])
  {
  }

  /** The missing entries come last, in the order in which they were submitted, below the
      marker; the marker is written with them when the file has none, after an empty line
      unless the file is empty. */
  lemma AppendedLast(lines: seq<string>, entries: seq<Entry>) returns (at: seq<nat>)
    ensures MissingAt(lines, entries, at)
    ensures Position(lines, entries, |lines|) <= |Emit(lines, entries)|
    ensures var last := Emit(lines, entries)[Position(lines, entries, |lines|)..];
            var marker := if |at| == 0 || HasMarker(lines) then []
                          else if |lines| == 0 then ["# --- Added by edgefirst-websrv ---"]
                          else ["", "# --- Added by edgefirst-websrv ---"];
            && |last| == |marker| + |at| && last[..|marker|] == marker
            && forall k :: 0 <= k < |at| ==> at[k] < |entries| && last[|marker| + k] == Render(entries[at[k]])
  {
    hide HasMarker, Render, IsMissing, MissingAt, EmitBody, EmitTail;
    at := AppendedInOrder(lines, entries);
    BodyIfLines(lines, entries);
    MarkerAbove(lines, entries, EnvPlan.Appended(lines, entries));
    assert Emit(lines, entries)[Position(lines, entries, |lines|)..] == EmitTail(lines, entries);
  }

  lemma MarkerAbove(lines: seq<string>, entries: seq<Entry>, appended: seq<Entry>)
    requires appended == EnvPlan.Appended(lines, entries)
    requires EmitBody(lines, entries, |lines|) == [] <==> |lines| == 0
    ensures var tail := EmitTail(lines, entries);
            var marker := if |appended| == 0 || HasMarker(lines) then []
                          else if |lines| == 0 then ["# --- Added by edgefirst-websrv ---"]
                          else ["", "# --- Added by edgefirst-websrv ---"];
            && |tail| == |marker| + |appended| && tail[..|marker|] == marker
            && forall k :: 0 <= k < |appended| ==> tail[|marker| + k] == Render(appended[k])
  {
    hide HasMarker, Render, EmitBody;
    assert APPEND_MARKER == "# --- Added by edgefirst-websrv ---";
  }

  lemma BodyIfLines(lines: seq<string>, entries: seq<Entry>)
    ensures EmitBody(lines, entries, |lines|) == [] <==> |lines| == 0
  {
    hide EmitLine;
    PositionsAtLeast(lines, entries, |lines|);
    EmptyBody(lines, entries);
  }

  lemma EmptyBody(lines: seq<string>, entries: seq<Entry>)
    ensures |lines| == 0 ==> EmitBody(lines, entries, |lines|) == []
  {
  }

  lemma {:induction false} PositionsAtLeast(lines: seq<string>, entries: seq<Entry>, n: nat)
    requires n <= |lines|
    ensures |EmitBody(lines, entries, n)| >= n
    ensures |EmitBody(lines, entries, n)| == n ==> forall i :: 0 <= i < n ==> InsertedAfter(lines, entries, i) == None
  {
    hide Replaced, InsertedAfter, EmitLine;
    if 0 < n {
      LineParts(lines, entries, n - 1);
    }
    if n > 0 {
      PositionsAtLeast(lines, entries, n - 1);
    }
  }

  lemma {:induction false} PlainBody(lines: seq<string>, entries: seq<Entry>, n: nat)
    requires n <= |lines| && forall i :: 0 <= i < n ==> InsertedAfter(lines, entries, i) == None
    ensures |EmitBody(lines, entries, n)| == n
    ensures forall i :: 0 <= i < n ==> EmitBody(lines, entries, n)[i] == Replaced(lines[i], entries)
  {
    hide Replaced, InsertedAfter, EmitLine;
    if 0 < n {
      LineParts(lines, entries, n - 1);
    }
    if n > 0 {
      PlainBody(lines, entries, n - 1);
    }
  }

  /** When as many lines are written as read, each is the one read or its replacement. */
  lemma SameLength(lines: seq<string>, entries: seq<Entry>)
    requires |Emit(lines, entries)| == |lines|
    ensures Appended(lines, entries) == []
    ensures forall i :: 0 <= i < |lines| ==> InsertedAfter(lines, entries, i) == None
    ensures forall i :: 0 <= i < |lines| ==> Emit(lines, entries)[i] == Replaced(lines[i], entries)
  {
    PositionsAtLeast(lines, entries, |lines|);
    PlainBody(lines, entries, |lines|);
  }

  /** The lines written are the lines read if and only if there is nothing to do. */
  lemma UnchangedIfQuiet(lines: seq<string>, entries: seq<Entry>)
    ensures Emit(lines, entries) == lines <==> Quiet(lines, entries)
  {
    if Emit(lines, entries) == lines {
      SameLength(lines, entries);
    }
    if Quiet(lines, entries) {
      QuietEmits(lines, entries);
    }
  }

  // ---------------------------------------------------------------- idempotence, line by line

  lemma RenderedSettled(entries: seq<Entry>, e: Entry)
    requires Accepted(entries) && e in entries
    ensures Settled(Render(e), entries)
    ensures e.value.Some? ==> Active(Render(e), e.key)
  {
    EntryFound(entries, e);
    var i :| 0 <= i < |entries| && entries[i] == e;
    assert AcceptedEntry(entries[i]);
    if e.value.Some? {
      RenderedParses(e);
    } else {
      forall x | x in entries
        ensures !Active(Render(e), x.key)
      {
        var j :| 0 <= j < |entries| && entries[j] == x;
        assert AcceptedEntry(entries[j]);
        UnsetDefinesNothing(e, x.key);
      }
      assert OwnerOf(Render(e), entries) == None;
    }
  }

  lemma ReplacedSettled(line: string, entries: seq<Entry>)
    requires Accepted(entries)
    ensures Settled(Replaced(line, entries), entries)
  {
    var owner := OwnerOf(line, entries);
    if owner.Some? {
      RenderedSettled(entries, owner.value);
    }
  }

  lemma PlainSettled(line: string, entries: seq<Entry>)
    requires DefinedName(line) == None
    ensures Settled(line, entries)
  {
  }

  predicate AllSettled(lines: seq<string>, entries: seq<Entry>) {
    forall line <- lines :: Settled(line, entries)
  }

  lemma {:induction false} BodySettled(lines: seq<string>, entries: seq<Entry>, n: nat)
    requires n <= |lines| && Accepted(entries)
    ensures AllSettled(EmitBody(lines, entries, n), entries)
  {
    hide Settled, Replaced, Accepted;
    if n > 0 {
      BodySettled(lines, entries, n - 1);
      ReplacedSettled(lines[n - 1], entries);
      var inserted := InsertedAfter(lines, entries, n - 1);
      if inserted.Some? {
        RenderedSettled(entries, inserted.value);
      }
    }
  }

  lemma AppendedSettled(lines: seq<string>, entries: seq<Entry>)
    requires Accepted(entries)
    ensures AllSettled(RenderAll(Appended(lines, entries)), entries)
  {
    hide Settled, Accepted, Render;
    var appended := Appended(lines, entries);
    forall i | 0 <= i < |appended|
      ensures Settled(RenderAll(appended)[i], entries)
    {
      assert appended[i] in appended;
      RenderedSettled(entries, appended[i]);
    }
  }

  lemma MarkerSettled(lines: seq<string>, body: seq<string>, entries: seq<Entry>)
    ensures AllSettled(MarkerLines(lines, body), entries)
  {
    hide HasMarker, ParseLine, DefinedName, IsMarker, Settled;
    MarkerDefinesNothing();
    PlainSettled("", entries);
    PlainSettled(APPEND_MARKER, entries);
  }

  lemma TailSettled(lines: seq<string>, entries: seq<Entry>)
    requires Accepted(entries)
    ensures AllSettled(EmitTail(lines, entries), entries)
  {
    hide Settled, Accepted, Appended, MarkerLines, EmitBody;
    AppendedSettled(lines, entries);
    MarkerSettled(lines, EmitBody(lines, entries, |lines|), entries);
  }

  lemma {:induction false} BodyHolds(lines: seq<string>, entries: seq<Entry>, i: nat, n: nat)
    requires i < n <= |lines|
    ensures forall line <- EmitLine(lines, entries, i) :: line in EmitBody(lines, entries, n)
  {
    if i < n - 1 {
      BodyHolds(lines, entries, i, n - 1);
    }
  }

  /** Every submitted value has its line among those written. */
  lemma ValueIsWritten(lines: seq<string>, entries: seq<Entry>, e: Entry)
    requires Accepted(entries) && e in entries && e.value.Some?
    ensures Render(e) in Emit(lines, entries)
  {
    hide Render, Accepted;
    EveryValueWritten(lines, entries, e);
    if e in Appended(lines, entries) {
      var k :| 0 <= k < |Appended(lines, entries)| && Appended(lines, entries)[k] == e;
      assert RenderAll(Appended(lines, entries))[k] == Render(e);
      assert Render(e) in RenderAll(Appended(lines, entries));
    } else {
      var i :| 0 <= i < |lines| && Defines(lines, e, i);
      WrittenFor(lines, entries, e, i);
      BodyHolds(lines, entries, i, |lines|);
    }
  }

  lemma WrittenFor(lines: seq<string>, entries: seq<Entry>, e: Entry, i: nat)
    requires Accepted(entries) && e in entries && e.value.Some? && i < |lines| && Defines(lines, e, i)
    ensures Render(e) in EmitLine(lines, entries, i)
  {
    EntryFound(entries, e);
    var k :| 0 <= k < |entries| && entries[k] == e;
    assert AcceptedEntry(entries[k]);
    if Active(lines[i], e.key) {
      assert OwnerOf(lines[i], entries) == Some(e);
    } else {
      var inserted := InsertedAfter(lines, entries, i);
      InsertedOnce(lines, entries, i, e);
      assert inserted == Some(e);
    }
  }

  lemma HasActiveSubmitted(lines: seq<string>, entries: seq<Entry>, e: Entry)
    requires Accepted(entries) && e in entries && e.value.Some?
    ensures HasActive(Emit(lines, entries), e.key)
  {
    hide Emit, Render, Active;
    ValueIsWritten(lines, entries, e);
    RenderedSettled(entries, e);
    var i :| 0 <= i < |Emit(lines, entries)| && Emit(lines, entries)[i] == Render(e);
  }

  /** Settled lines that define every submitted value leave nothing to do. */
  lemma SettledIsQuiet(lines: seq<string>, entries: seq<Entry>)
    requires AllSettled(lines, entries)
    requires forall e <- entries :: e.value.Some? ==> HasActive(lines, e.key)
    ensures Quiet(lines, entries)
  {
    hide HasActive, Settled;
    forall e | e in entries
      ensures !IsAppended(lines, e)
    {
    }
    forall i | 0 <= i < |lines|
      ensures Settled(lines[i], entries) && InsertedAfter(lines, entries, i) == None
    {
      assert lines[i] in lines;
    }
  }

  /** The lines written have nothing left to do. */
  lemma EmittedIsQuiet(lines: seq<string>, entries: seq<Entry>)
    requires Accepted(entries)
    ensures AllSettled(Emit(lines, entries), entries) && Quiet(Emit(lines, entries), entries)
  {
    hide EmitBody, EmitTail, Accepted, HasActive, Settled, Quiet;
    var emitted := Emit(lines, entries);
    BodySettled(lines, entries, |lines|);
    TailSettled(lines, entries);
    forall e | e in entries && e.value.Some?
      ensures HasActive(emitted, e.key)
    {
      HasActiveSubmitted(lines, entries, e);
    }
    SettledIsQuiet(emitted, entries);
  }

  lemma EmitTwice(lines: seq<string>, entries: seq<Entry>)
    requires Accepted(entries)
    ensures Emit(Emit(lines, entries), entries) == Emit(lines, entries)
  {
    EmittedIsQuiet(lines, entries);
    QuietEmits(Emit(lines, entries), entries);
  }

  // ---------------------------------------------------------------- the marker

  lemma EntriesRender(entries: seq<Entry>)
    requires Accepted(entries)
    ensures forall e <- entries :: '\r' !in Render(e) && '\n' !in Render(e) && '=' in Render(e)
  {
    forall e | e in entries
      ensures '\r' !in Render(e) && '\n' !in Render(e) && '=' in Render(e)
    {
      var i :| 0 <= i < |entries| && entries[i] == e;
      assert AcceptedEntry(entries[i]);
      RenderedIsLine(e);
      assert Render(e)[if e.value.Some? then |e.key| else |e.key| + 1] == '=';
    }
  }

  function MarkerCount(lines: seq<string>): nat {
    if |lines| == 0 then 0
    else MarkerCount(lines[..|lines| - 1]) + if IsMarker(lines[|lines| - 1]) then 1 else 0
  }

  lemma {:induction false} MarkersAdd(a: seq<string>, b: seq<string>)
    ensures MarkerCount(a + b) == MarkerCount(a) + MarkerCount(b)
  {
    if |b| == 0 {
      assert a + b == a;
    } else {
      assert (a + b)[..|a + b| - 1] == a + b[..|b| - 1];
      MarkersAdd(a, b[..|b| - 1]);
    }
  }

  /** A line with an `=` is not the marker. */
  lemma EqualsIsNoMarker(line: string)
    requires '=' in line
    ensures !IsMarker(line)
  {
    hide Trim;
    var before, after := SplitAtEquals(line);
    TrimAroundEquals(before, after);
    MarkerChars();
  }

  lemma ReplacedMarker(line: string, entries: seq<Entry>)
    requires Accepted(entries)
    ensures IsMarker(Replaced(line, entries)) <==> IsMarker(line)
  {
    hide IsMarker, Render, Accepted;
    var owner := OwnerOf(line, entries);
    if owner.Some? {
      EntriesRender(entries);
      EqualsIsNoMarker(line);
      EqualsIsNoMarker(Render(owner.value));
    }
  }

  lemma OneMarker(line: string)
    ensures MarkerCount([line]) == if IsMarker(line) then 1 else 0
  {
    assert [line][..0] == [];
  }

  lemma {:induction false} BodyMarkers(lines: seq<string>, entries: seq<Entry>, n: nat)
    requires n <= |lines| && Accepted(entries)
    ensures MarkerCount(EmitBody(lines, entries, n)) == MarkerCount(lines[..n])
  {
    hide IsMarker, Replaced, Render, Accepted;
    if n == 0 {
      assert lines[..0] == [];
    } else {
      BodyMarkers(lines, entries, n - 1);
      var line := lines[n - 1];
      assert lines[..n] == lines[..n - 1] + [line];
      MarkersAdd(lines[..n - 1], [line]);
      OneMarker(line);
      ReplacedMarker(line, entries);
      LineMarkers(lines, entries, n - 1);
      MarkersAdd(EmitBody(lines, entries, n - 1), EmitLine(lines, entries, n - 1));
    }
  }

  lemma LineMarkers(lines: seq<string>, entries: seq<Entry>, i: nat)
    requires i < |lines| && Accepted(entries)
    ensures MarkerCount(EmitLine(lines, entries, i)) == if IsMarker(Replaced(lines[i], entries)) then 1 else 0
  {
    hide IsMarker, Replaced, Render, Accepted;
    OneMarker(Replaced(lines[i], entries));
    EntriesRender(entries);
    var inserted := InsertedAfter(lines, entries, i);
    if inserted == None {
      assert EmitLine(lines, entries, i) == [Replaced(lines[i], entries)];
    } else {
      EqualsIsNoMarker(Render(inserted.value));
      OneMarker(Render(inserted.value));
      MarkersAdd([Replaced(lines[i], entries)], [Render(inserted.value)]);
    }
  }

  lemma {:induction false} RenderedMarkers(appended: seq<Entry>)
    requires forall e <- appended :: '=' in Render(e)
    ensures MarkerCount(RenderAll(appended)) == 0
  {
    hide IsMarker, Render;
    if |appended| > 0 {
      var n := |appended| - 1;
      RenderedMarkers(appended[..n]);
      assert RenderAll(appended) == RenderAll(appended[..n]) + [Render(appended[n])];
      MarkersAdd(RenderAll(appended[..n]), [Render(appended[n])]);
      assert appended[n] in appended;
      EqualsIsNoMarker(Render(appended[n]));
      OneMarker(Render(appended[n]));
    }
  }

  /** The marker is known with white space around it. */
  lemma MarkerWithSpace(before: string, behind: string)
    requires Blank(before) && Blank(behind)
    ensures IsMarker(before + "# --- Added by edgefirst-websrv ---" + behind)
  {
    MarkerShape();
    assert APPEND_MARKER == "# --- Added by edgefirst-websrv ---";
    TrimPadded(before, APPEND_MARKER, behind);
  }

  lemma {:induction false} NoMarkers(lines: seq<string>)
    ensures MarkerCount(lines) > 0 <==> HasMarker(lines)
  {
    hide IsMarker;
    if |lines| > 0 {
      var n := |lines| - 1;
      NoMarkers(lines[..n]);
      assert lines == lines[..n] + [lines[n]];
      if HasMarker(lines) && !IsMarker(lines[n]) {
        var i :| 0 <= i < |lines| && IsMarker(lines[i]);
        assert IsMarker(lines[..n][i]);
      }
    }
  }

  lemma MarkerLinesCount(lines: seq<string>, body: seq<string>)
    ensures MarkerCount(MarkerLines(lines, body)) == if HasMarker(lines) then 0 else 1
  {
    hide HasMarker, IsMarker, ParseLine, DefinedName;
    MarkerDefinesNothing();
    OneMarker(APPEND_MARKER);
    if !HasMarker(lines) {
      if |body| > 0 {
        OneMarker("");
        MarkersAdd([""], [APPEND_MARKER]);
      } else {
        assert MarkerLines(lines, body) == [APPEND_MARKER];
      }
    }
  }

  /** An edit never leaves more marker lines than there were, or one if there were none. */
  lemma MarkersDoNotGrow(lines: seq<string>, entries: seq<Entry>)
    requires Accepted(entries)
    ensures MarkerCount(lines) <= MarkerCount(Emit(lines, entries)) <= Max(1, MarkerCount(lines))
  {
    hide MarkerCount, EmitBody, MarkerLines, HasMarker, Appended, Accepted;
    var body, appended := EmitBody(lines, entries, |lines|), Appended(lines, entries);
    BodyMarkers(lines, entries, |lines|);
    assert lines[..|lines|] == lines;
    NoMarkers(lines);
    if |appended| == 0 {
      assert Emit(lines, entries) == body;
    } else {
      EntriesRender(entries);
      RenderedMarkers(appended);
      MarkerLinesCount(lines, body);
      MarkersAdd(MarkerLines(lines, body), RenderAll(appended));
      MarkersAdd(body, MarkerLines(lines, body) + RenderAll(appended));
    }
  }
}
