/** Writing an edit, as it runs: the body line by line, the missing entries under
    the marker, and what became of every submitted key. */
module EnvEmit {
  import opened Spans
  import opened Text
  import opened EnvSyntax
  import opened EnvPlan
  import opened EnvReport
  import opened EnvValidate
  import opened EnvEdit

  /** A complete prospective edit. */
  datatype EditPlan = EditPlan(dispositions: map<string, Disposition>, unmatched: set<string>, content: string,
      changed: bool)

  function Get(dispositions: map<string, Disposition>, key: string): Option<Disposition> {
    if key in dispositions then Some(dispositions[key]) else None
  }

  /** What the first `n` lines say became of an entry. */
  function BodyDisposition(lines: seq<string>, e: Entry, n: nat): Option<Disposition>
    requires n <= |lines|
  {
    if HasActive(lines[..n], e.key) then Some(if ActiveSettled(lines[..n], e) then Unchanged else Rewritten(e))
    else if exists i :: 0 <= i < n && InsertsAfter(lines, e, i) then Some(Inserted)
    else None
  }

  ghost predicate Reports(dispositions: map<string, Disposition>, lines: seq<string>, entries: seq<Entry>, n: nat)
    requires n <= |lines|
  {
    && (forall e <- entries :: Get(dispositions, e.key) == BodyDisposition(lines, e, n))
    && forall k <- dispositions :: EntryFor(entries, k).Some?
  }

  // ---------------------------------------------------------------- one line

  /** What becomes of a line that its entry owns. */
  function DispositionFor(e: Entry, line: string): Disposition {
    if Render(e) == line then Unchanged else Rewritten(e)
  }

  /** A real change outranks `Unchanged`. */
  function Noted(dispositions: map<string, Disposition>, key: string, d: Disposition): map<string, Disposition> {
    if key in dispositions && dispositions[key] != Unchanged then dispositions else dispositions[key := d]
  }

  lemma BodyStarts(lines: seq<string>, entries: seq<Entry>)
    ensures Reports(map[], lines, entries, 0)
  {
  }

  lemma ActiveMore(lines: seq<string>, e: Entry, n: nat)
    requires n < |lines|
    ensures HasActive(lines[..n + 1], e.key) <==> HasActive(lines[..n], e.key) || Active(lines[n], e.key)
    ensures ActiveSettled(lines[..n + 1], e) <==>
              ActiveSettled(lines[..n], e) && (Active(lines[n], e.key) ==> lines[n] == Render(e))
    ensures HasActive(lines[..n + 1], e.key) ==> HasActive(lines, e.key)
  {
    hide Active, Render;
    assert forall i :: 0 <= i < n ==> lines[..n + 1][i] == lines[..n][i];
    if HasActive(lines[..n], e.key) {
      var i :| 0 <= i < n && Active(lines[..n][i], e.key);
      assert Active(lines[..n + 1][i], e.key);
    }
    if Active(lines[n], e.key) {
      assert Active(lines[..n + 1][n], e.key);
    }
    if ActiveSettled(lines[..n + 1], e) {
      forall i | 0 <= i < n && Active(lines[..n][i], e.key)
        ensures lines[..n][i] == Render(e)
      {
        assert Active(lines[..n + 1][i], e.key);
      }
    }
  }

  lemma NotSettled(lines: seq<string>, e: Entry)
    ensures !HasActive(lines, e.key) ==> ActiveSettled(lines, e)
  {
  }

  /** One more line: its owner notes what happened to it, an entry inserted below notes that. */
  lemma BodyDispositionMore(lines: seq<string>, e: Entry, n: nat)
    requires n < |lines|
    ensures BodyDisposition(lines, e, n + 1) ==
            if Active(lines[n], e.key) then
              (match BodyDisposition(lines, e, n)
               case Some(d) => (if d == Unchanged then Some(DispositionFor(e, lines[n])) else Some(d))
               case None => Some(DispositionFor(e, lines[n])))
            else if InsertsAfter(lines, e, n) then Some(Inserted)
            else BodyDisposition(lines, e, n)
  {
    hide Active, Render, HasActive, ActiveSettled, LastComment;
    ActiveMore(lines, e, n);
    NotSettled(lines[..n], e);
    assert HasActive(lines[..n + 1], e.key) ==> forall i: nat :: !InsertsAfter(lines, e, i);
    if InsertsAfter(lines, e, n) {
      assert 0 <= n < n + 1;
    }
  }

  lemma ReportsMore(before: map<string, Disposition>, after: map<string, Disposition>,
                    lines: seq<string>, entries: seq<Entry>, n: nat)
    requires n < |lines| && Accepted(entries) && Reports(before, lines, entries, n)
    requires var owner, inserted := OwnerOf(lines[n], entries), InsertedAfter(lines, entries, n);
             var noted := if owner.Some? then Noted(before, owner.value.key, DispositionFor(owner.value, lines[n]))
                 else before;
             after == if inserted.Some? then noted[inserted.value.key := Inserted] else noted
    ensures Reports(after, lines, entries, n + 1)
  {
    hide Active, DispositionFor, AcceptedEntry, InsertsAfter, BodyDisposition;
    var owner, inserted := OwnerOf(lines[n], entries), InsertedAfter(lines, entries, n);
    forall e | e in entries
      ensures Get(after, e.key) == BodyDisposition(lines, e, n + 1)
    {
      assert Get(before, e.key) == BodyDisposition(lines, e, n);
      BodyDispositionMore(lines, e, n);
      WhoseLine(lines, entries, n, e);
    }
  }

  /** A line is owned by, or followed by the new line of, at most one entry, and not both. */
  lemma WhoseLine(lines: seq<string>, entries: seq<Entry>, n: nat, e: Entry)
    requires n < |lines| && Accepted(entries) && e in entries
    ensures var owner, inserted := OwnerOf(lines[n], entries), InsertedAfter(lines, entries, n);
            && (Active(lines[n], e.key) <==> owner.Some? && owner.value.key == e.key)
            && (Active(lines[n], e.key) ==> owner == Some(e))
            && (InsertsAfter(lines, e, n) <==> inserted.Some? && inserted.value.key == e.key)
            && !(Active(lines[n], e.key) && InsertsAfter(lines, e, n))
  {
    hide AcceptedEntry, LastComment;
    EntryFound(entries, e);
    var inserted := InsertedAfter(lines, entries, n);
    if inserted.Some? {
      EntryFound(entries, inserted.value);
    }
    if InsertsAfter(lines, e, n) {
      InsertedOnce(lines, entries, n, e);
      assert !HasActive(lines, e.key);
    }
  }

  // ---------------------------------------------------------------- the body

  /** Writes one line, or what its owner replaces it by, and notes what became of the owner. */
  method WriteOwned(line: string, index: nat, terminator: string, placement: Placement,
                    content: string, dispositions: map<string, Disposition>,
                    ghost lines: seq<string>, ghost entries: seq<Entry>)
    returns (written: string, noted: map<string, Disposition>)
    requires Placed(placement, lines, entries) && index < |lines| && line == lines[index]
    ensures written == content + Replaced(line, entries) + terminator
    ensures var owner := OwnerOf(line, entries);
            noted == if owner.Some? then Noted(dispositions, owner.value.key, DispositionFor(owner.value, line))
                else dispositions
  {
    hide OwnerOf, InsertedAfter, Render, EnvPlan.Appended;
    noted := dispositions;
    if index in placement.owner {
      var entry := placement.owner[index];
      assert OwnerOf(line, entries) == Some(entry);
      var rendered := Render(entry);
      var disposition := if rendered == line then Unchanged else if entry.value.Some? then Updated else Unset;
      written := content + rendered + terminator;
      if entry.key in noted {
        if noted[entry.key] == Unchanged {
          noted := noted[entry.key := disposition];
        }
      } else {
        noted := noted[entry.key := disposition];
      }
    } else {
      assert OwnerOf(line, entries) == None;
      written := content + line + terminator;
    }
  }

  lemma JoinLine(before: seq<string>, lines: seq<string>, entries: seq<Entry>, i: nat, terminator: string)
    requires i < |lines|
    requires before == EmitBody(lines, entries, i)
    ensures var inserted := InsertedAfter(lines, entries, i);
            var written := Join(before, terminator) + Replaced(lines[i], entries) + terminator;
            Join(EmitBody(lines, entries, i + 1), terminator) ==
            if inserted.Some? then written + Render(inserted.value) + terminator else written
  {
    hide InsertedAfter, Replaced, Render, Join;
    var first := Replaced(lines[i], entries);
    JoinSnoc(before, first, terminator);
    match InsertedAfter(lines, entries, i)
    case None => assert before + EmitLine(lines, entries, i) == before + [first];
    case Some(e) =>
      JoinSnoc(before + [first], Render(e), terminator);
      assert before + EmitLine(lines, entries, i) == before + [first] + [Render(e)];
  }

  lemma InsertedHere(placement: Placement, lines: seq<string>, entries: seq<Entry>, index: nat)
    requires Placed(placement, lines, entries) && index < |lines|
    ensures InsertedAfter(lines, entries, index) ==
            if index in placement.insertAfter then Some(placement.insertAfter[index]) else None
  {
    hide InsertedAfter, OwnerOf, EnvPlan.Appended;
  }

  /** Writes the line inserted below a line, if there is one. */
  method WriteInserted(index: nat, terminator: string, placement: Placement, content: string,
                       dispositions: map<string, Disposition>,
                       ghost lines: seq<string>, ghost entries: seq<Entry>)
    returns (written: string, noted: map<string, Disposition>)
    requires Placed(placement, lines, entries) && index < |lines|
    ensures match InsertedAfter(lines, entries, index)
            case None => written == content && noted == dispositions
            case Some(e) => written == content + Render(e) + terminator && noted == dispositions[e.key := Inserted]
  {
    hide *;
    InsertedHere(placement, lines, entries, index);
    written, noted := content, dispositions;
    if index in placement.insertAfter {
      var entry := placement.insertAfter[index];
      written := content + Render(entry) + terminator;
      noted := dispositions[entry.key := Inserted];
    }
  }

  /** Writes the lines of the file with their replacements and insertions, and notes
      each key that these concern. */
  method WriteBody(lines: seq<string>, terminator: string, placement: Placement, ghost entries: seq<Entry>)
    returns (content: string, dispositions: map<string, Disposition>)
    requires Placed(placement, lines, entries) && Accepted(entries)
    ensures content == Join(EmitBody(lines, entries, |lines|), terminator)
    ensures Reports(dispositions, lines, entries, |lines|)
  {
    content, dispositions := "", map[];
    BodyStarts(lines, entries);
    assert content == Join(EmitBody(lines, entries, 0), terminator);
    hide *;
    for index := 0 to |lines|
      invariant content == Join(EmitBody(lines, entries, index), terminator)
      invariant Reports(dispositions, lines, entries, index)
    {
      ghost var before := dispositions;
      JoinLine(EmitBody(lines, entries, index), lines, entries, index, terminator);
      content, dispositions := WriteOwned(lines[index], index, terminator, placement, content, dispositions, lines,
          entries);
      content, dispositions := WriteInserted(index, terminator, placement, content, dispositions, lines, entries);
      ReportsMore(before, dispositions, lines, entries, index);
    }
  }

  // ---------------------------------------------------------------- the missing entries

  /** What is known of the entries once the missing ones are appended. */
  ghost predicate Told(dispositions: map<string, Disposition>, lines: seq<string>, entries: seq<Entry>,
                       appended: seq<Entry>) {
    && (forall e <- entries ::
          Get(dispositions, e.key)
              == if e in appended then Some(EnvReport.Appended) else BodyDisposition(lines, e, |lines|))
    && forall k <- dispositions :: EntryFor(entries, k).Some?
  }

  function Keys(entries: seq<Entry>): set<string> {
    set e | e in entries :: e.key
  }

  lemma ToldMore(dispositions: map<string, Disposition>, lines: seq<string>, entries: seq<Entry>,
                 appended: seq<Entry>, e: Entry)
    requires Accepted(entries) && e in entries && Told(dispositions, lines, entries, appended)
    ensures Told(dispositions[e.key := EnvReport.Appended], lines, entries, appended + [e])
    ensures Keys(appended + [e]) == Keys(appended) + {e.key}
  {
    hide BodyDisposition, AcceptedEntry;
    EntryFound(entries, e);
    forall x | x in entries
      ensures x.key == e.key ==> x == e
    {
      EntryFound(entries, x);
    }
  }

  /** Whether a line of the original is the marker. */
  method FindMarker(lines: seq<string>) returns (found: bool)
    ensures found == HasMarker(lines)
  {
    found := false;
    for i := 0 to |lines|
      invariant !found && forall k :: 0 <= k < i ==> !IsMarker(lines[k])
    {
      if IsMarker(lines[i]) {
        return true;
      }
    }
  }

  lemma JoinEmpty(lines: seq<string>, terminator: string)
    requires IsTerminator(terminator)
    ensures Join(lines, terminator) == "" <==> lines == []
  {
  }

  lemma JoinMarker(lines: seq<string>, body: seq<string>, terminator: string)
    requires IsTerminator(terminator) && !HasMarker(lines)
    ensures Join(body + MarkerLines(lines, body), terminator) ==
            (var content := Join(body, terminator);
             if content != "" then content + terminator + APPEND_MARKER + terminator else APPEND_MARKER + terminator)
  {
    hide Join;
    JoinEmpty(body, terminator);
    if |body| > 0 {
      JoinSnoc(body, "", terminator);
      JoinSnoc(body + [""], APPEND_MARKER, terminator);
      assert body + MarkerLines(lines, body) == body + [""] + [APPEND_MARKER];
    } else {
      JoinSnoc(body, APPEND_MARKER, terminator);
      assert body + MarkerLines(lines, body) == body + [APPEND_MARKER];
    }
  }

  /** Writes the marker below the body, unless the original has one already. */
  method WriteMarker(lines: seq<string>, ghost body: seq<string>, written: string, terminator: string)
    returns (content: string)
    requires IsTerminator(terminator) && written == Join(body, terminator)
    ensures content == Join(body + MarkerLines(lines, body), terminator)
  {
    hide Join, HasMarker;
    content := written;
    var found := FindMarker(lines);
    if found {
      assert body + MarkerLines(lines, body) == body;
    } else {
      JoinMarker(lines, body, terminator);
      if content != "" {
        content := content + terminator;
      }
      content := content + APPEND_MARKER;
      content := content + terminator;
    }
  }

  /** Adds, below one marker, a line for every entry without an owned line or a comment. */
  method AppendMissing(lines: seq<string>, append: seq<Entry>, terminator: string,
                       body: string, dispositions: map<string, Disposition>, ghost entries: seq<Entry>)
    returns (content: string, noted: map<string, Disposition>, unmatched: set<string>)
    requires IsTerminator(terminator) && append == EnvPlan.Appended(lines, entries) && Accepted(entries)
    requires body == Join(EmitBody(lines, entries, |lines|), terminator)
             && Reports(dispositions, lines, entries, |lines|)
    ensures content == Join(Emit(lines, entries), terminator)
    ensures Told(noted, lines, entries, append)
    ensures unmatched == Keys(append)
  {
    hide Accepted, Render, BodyDisposition, IsAppended, Join, Keys, Told, Reports, MarkerLines, EnvPlan.Appended,
        EmitBody;
    content, noted, unmatched := body, dispositions, {};
    ghost var emitted := EmitBody(lines, entries, |lines|);
    ToldNothing(noted, lines, entries);
    NoKeys();
    if append == [] {
      assert emitted + [] == emitted;
      return;
    }
    content := WriteMarker(lines, emitted, content, terminator);
    ghost var head := emitted + MarkerLines(lines, emitted);
    content, noted, unmatched := AppendEntries(lines, append, terminator, head, content, dispositions, entries);
    assert Emit(lines, entries) == head + RenderAll(append);
  }

  method AppendEntries(ghost lines: seq<string>, append: seq<Entry>, terminator: string, ghost head: seq<string>,
                       start: string, dispositions: map<string, Disposition>, ghost entries: seq<Entry>)
    returns (content: string, noted: map<string, Disposition>, unmatched: set<string>)
    requires start == Join(head, terminator) && Accepted(entries) && forall e <- append :: e in entries
    requires Told(dispositions, lines, entries, [])
    ensures content == Join(head + RenderAll(append), terminator)
    ensures Told(noted, lines, entries, append)
    ensures unmatched == Keys(append)
  {
    hide *;
    content, noted, unmatched := start, dispositions, {};
    NoKeys();
    assert head + RenderAll(append[..0]) == head;
    assert append[..0] == [];
    for n := 0 to |append|
      invariant content == Join(head + RenderAll(append[..n]), terminator)
      invariant Told(noted, lines, entries, append[..n])
      invariant unmatched == Keys(append[..n])
    {
      assert append[n] in append;
      ToldMore(noted, lines, entries, append[..n], append[n]);
      RenderMore(head, append, n, terminator);
      assert append[..n + 1] == append[..n] + [append[n]];
      content := content + Render(append[n]) + terminator;
      noted := noted[append[n].key := EnvReport.Appended];
      unmatched := unmatched + {append[n].key};
    }
    assert append[..|append|] == append;
  }

  lemma ToldNothing(dispositions: map<string, Disposition>, lines: seq<string>, entries: seq<Entry>)
    requires Reports(dispositions, lines, entries, |lines|)
    ensures Told(dispositions, lines, entries, [])
  {
    hide BodyDisposition;
  }

  lemma NoKeys()
    ensures Keys([]) == {}
  {
  }

  lemma RenderMore(head: seq<string>, append: seq<Entry>, n: nat, terminator: string)
    requires n < |append|
    ensures Join(head + RenderAll(append[..n + 1]), terminator) ==
            Join(head + RenderAll(append[..n]), terminator) + Render(append[n]) + terminator
  {
    hide Join, Render;
    assert head + RenderAll(append[..n + 1]) == head + RenderAll(append[..n]) + [Render(append[n])];
    JoinSnoc(head + RenderAll(append[..n]), Render(append[n]), terminator);
  }

  // ---------------------------------------------------------------- the plan

  /** What a plan for `entries` holds. */
  ghost predicate Plans(plan: EditPlan, original: string, entries: seq<Entry>) {
    && plan.content == Content(original, entries)
    && (plan.changed <==> plan.content != original)
    && DispositionsAre(plan.dispositions, Lines(original), entries)
    && forall k :: k in plan.unmatched <==> k in plan.dispositions && plan.dispositions[k] == EnvReport.Appended
  }

  ghost predicate DispositionsAre(dispositions: map<string, Disposition>, lines: seq<string>, entries: seq<Entry>) {
    && dispositions.Keys == Keys(entries)
    && forall e <- entries :: dispositions[e.key] == DispositionOf(lines, e)
  }

  /** The full body and the appended entries settle every disposition but `Unchanged`. */
  lemma Settles(lines: seq<string>, e: Entry, entries: seq<Entry>, appended: seq<Entry>)
    requires e in entries && appended == EnvPlan.Appended(lines, entries)
    ensures DispositionOf(lines, e) ==
            if e in appended then EnvReport.Appended
            else match BodyDisposition(lines, e, |lines|) case Some(d) => d case None => Unchanged
  {
    hide HasActive, ActiveSettled, Commented, Active;
    assert lines[..|lines|] == lines;
    if InsertsAfter(lines, e, if LastComment(lines, e.key).Some? then LastComment(lines, e.key).value else 0) {
      assert LastComment(lines, e.key).value < |lines|;
    }
  }

  lemma Unmatched(dispositions: map<string, Disposition>, lines: seq<string>, entries: seq<Entry>,
                  appended: seq<Entry>)
    requires DispositionsAre(dispositions, lines, entries) && appended == EnvPlan.Appended(lines, entries)
    ensures forall k :: k in Keys(appended) <==> k in dispositions && dispositions[k] == EnvReport.Appended
  {
    hide DispositionOf, BodyDisposition;
    forall e | e in entries
      ensures e in appended <==> DispositionOf(lines, e) == EnvReport.Appended
    {
      Settles(lines, e, entries, appended);
      BodyNeverAppends(lines, e);
    }
  }

  lemma BodyNeverAppends(lines: seq<string>, e: Entry)
    ensures BodyDisposition(lines, e, |lines|) != Some(EnvReport.Appended)
  {
  }

  /** `Unchanged` for the first `n` entries that nothing was told of. */
  ghost predicate Filled(all: map<string, Disposition>, dispositions: map<string, Disposition>, entries: seq<Entry>,
                         n: nat)
    requires n <= |entries|
  {
    && (forall k <- all :: EntryFor(entries, k).Some?)
    && (forall k <- dispositions :: k in all)
    && (forall k <- all :: all[k] == if k in dispositions then dispositions[k] else Unchanged)
    && forall i :: 0 <= i < n ==> entries[i].key in all
  }

  lemma FilledMore(all: map<string, Disposition>, dispositions: map<string, Disposition>, entries: seq<Entry>, n: nat)
    requires n < |entries| && Filled(all, dispositions, entries, n)
    ensures var key := entries[n].key;
            Filled(if key in all then all else all[key := Unchanged], dispositions, entries, n + 1)
  {
    hide EntryFor;
    assert entries[n] in entries;
    assert EntryFor(entries, entries[n].key).Some?;
  }

  lemma FilledAll(all: map<string, Disposition>, dispositions: map<string, Disposition>,
                  lines: seq<string>, entries: seq<Entry>,
                  appended: seq<Entry>)
    requires Filled(all, dispositions, entries, |entries|) && appended == EnvPlan.Appended(lines, entries)
    requires Told(dispositions, lines, entries, appended)
    ensures DispositionsAre(all, lines, entries)
  {
    hide DispositionOf, BodyDisposition, EnvPlan.Appended, EntryFor;
    forall e | e in entries
      ensures e.key in all && all[e.key] == DispositionOf(lines, e)
    {
      Settles(lines, e, entries, appended);
    }
    forall k | k in all
      ensures k in Keys(entries)
    {
      assert EntryFor(entries, k).value in entries;
    }
  }

  /** The keys not told of so far are told to be unchanged. */
  method FillUnchanged(entries: seq<Entry>, dispositions: map<string, Disposition>,
                       ghost lines: seq<string>, ghost appended: seq<Entry>)
    returns (all: map<string, Disposition>)
    requires appended == EnvPlan.Appended(lines, entries) && Told(dispositions, lines, entries, appended)
    ensures DispositionsAre(all, lines, entries)
  {
    hide DispositionOf, BodyDisposition, EnvPlan.Appended, EntryFor, Filled, DispositionsAre;
    all := dispositions;
    assert Filled(all, dispositions, entries, 0) by {
      FillStarts(dispositions, lines, entries, appended);
    }
    for n := 0 to |entries|
      invariant Filled(all, dispositions, entries, n)
    {
      FilledMore(all, dispositions, entries, n);
      if entries[n].key !in all {
        all := all[entries[n].key := Unchanged];
      }
    }
    FilledAll(all, dispositions, lines, entries, appended);
  }

  lemma FillStarts(dispositions: map<string, Disposition>, lines: seq<string>, entries: seq<Entry>,
                   appended: seq<Entry>)
    requires Told(dispositions, lines, entries, appended)
    ensures Filled(dispositions, dispositions, entries, 0)
  {
    hide BodyDisposition, EntryFor;
  }

  predicate EndsWith(s: string, end: string) {
    |s| >= |end| && s[|s| - |end|..] == end
  }

  method ContainsCrLf(text: string) returns (found: bool)
    ensures found == HasCrLf(text)
  {
    found := false;
    if text == "" {
      return;
    }
    for i := 1 to |text|
      invariant !found && forall k :: 0 < k < i ==> !(text[k - 1] == '\r' && text[k] == '\n')
    {
      if text[i - 1] == '\r' && text[i] == '\n' {
        return true;
      }
    }
  }

  /** Takes the last terminator off again for a file that did not end with one. */
  method Finished(content: string, terminator: string, ended: bool, ghost emitted: seq<string>)
    returns (written: string)
    requires content == Join(emitted, terminator)
    ensures written == Written(emitted, terminator, ended)
  {
    hide Join;
    written := content;
    if !ended && EndsWith(content, terminator) {
      written := content[..|content| - |terminator|];
    }
  }

  /** How the file ends its lines, and whether it ends its last one. */
  method LineEnds(original: string) returns (terminator: string, ended: bool)
    ensures terminator == Terminator(original) && IsTerminator(terminator) && ended == EndedWithNewline(original)
  {
    hide HasCrLf;
    var crlf := ContainsCrLf(original);
    terminator := if crlf then "\r\n" else "\n";
    ended := original == "" || original[|original| - 1] == '\n';
  }

  /** Produces the complete new content for validated entries. */
  method PlanEntries(original: string, entries: seq<Entry>) returns (plan: EditPlan)
    requires Accepted(entries)
    ensures Plans(plan, original, entries)
  {
    hide *;
    var lines := Lines(original);
    var terminator, ended := LineEnds(original);
    var located := Locate(lines, entries);
    var placement := Place(located, entries, lines);
    PlacedAppend(placement, lines, entries);
    var content, dispositions := WriteBody(lines, terminator, placement, entries);
    var unmatched;
    content, dispositions, unmatched :=
        AppendMissing(lines, placement.append, terminator, content, dispositions, entries);
    dispositions := FillUnchanged(entries, dispositions, lines, placement.append);
    Unmatched(dispositions, lines, entries, placement.append);
    content := Finished(content, terminator, ended, Emit(lines, entries));
    plan := EditPlan(dispositions, unmatched, content, content != original);
    PlanIs(plan, original, entries);
  }

  lemma PlanIs(plan: EditPlan, original: string, entries: seq<Entry>)
    requires plan.content == Written(Emit(Lines(original), entries), Terminator(original), EndedWithNewline(original))
    requires (plan.changed <==> plan.content != original)
             && DispositionsAre(plan.dispositions, Lines(original), entries)
    requires forall k :: k in plan.unmatched <==> k in plan.dispositions && plan.dispositions[k] == EnvReport.Appended
    ensures Plans(plan, original, entries)
  {
    hide Written, Emit, Lines, Terminator, EndedWithNewline, DispositionsAre;
  }

  lemma PlacedAppend(placement: Placement, lines: seq<string>, entries: seq<Entry>)
    requires Placed(placement, lines, entries)
    ensures placement.append == EnvPlan.Appended(lines, entries)
  {
  }

  /** Validates the updates and produces the complete new content, or reports
      every offending key. */
  method PlanEdit(original: string, updates: seq<Update>) returns (result: Result<EditPlan, map<string, Reject>>)
    ensures result.Err? <==> Offenders(updates, |updates|) != {}
    ensures result.Err? ==> result.error.Keys == Offenders(updates, |updates|)
    ensures result.Ok? ==> exists entries ::
              EntriesOf(entries, updates) && Accepted(entries) && Plans(result.value, original, entries)
  {
    hide Offenders, EntriesOf, Accepted, Plans;
    var validated := Validate(updates);
    if validated.Err? {
      return Err(validated.error);
    }
    var plan := PlanEntries(original, validated.value);
    result := Ok(plan);
  }
}
