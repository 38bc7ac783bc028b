/** Saving what the reader gives: the editor and the reader are inverses, so such a
    save settles at once, for every file. */
module EnvRoundTrip {
  import opened Spans
  import opened Text
  import opened EnvSyntax
  import opened EnvPlan
  import opened EnvStable
  import opened EnvValidate
  import opened EnvEmit
  import I = EnvIdempotent

  /** A value as it is submitted: several words as an array. */
  function AsJson(value: Value): Json {
    match value
    case Text(text) => JString(text)
    case Words(words) => JArray(seq(|words|, i requires 0 <= i < |words| => JString(words[i])))
  }

  /** The updates submit exactly what was read, in some order. */
  ghost predicate Submits(updates: seq<Update>, config: map<string, Value>) {
    && (forall i :: 0 <= i < |updates| ==> updates[i].0 in config && updates[i].1 == AsJson(config[updates[i].0]))
    && (forall i, j :: 0 <= i < j < |updates| ==> updates[i].0 != updates[j].0)
    && (forall key <- config :: exists i :: 0 <= i < |updates| && updates[i].0 == key)
  }

  /** Validation let the updates through as `entries`. */
  ghost predicate LetThrough(updates: seq<Update>, entries: seq<Entry>) {
    Offenders(updates, |updates|) == {} && EntriesOf(entries, updates)
  }

  // ---------------------------------------------------------------- what is read is defined

  /** A key read from the lines is active on one of them. */
  lemma {:induction false} ReadIsActive(lines: seq<string>, key: string)
    requires key in ParseLines(lines)
    ensures HasActive(lines, Upper(key))
  {
    hide ParseLine, DefinedName;
    var n := |lines| - 1;
    if ParseLine(lines[n]).Some? && ParseLine(lines[n]).value.0 == key {
      ParsedName(lines[n]);
      assert Active(lines[n], Upper(key));
    } else {
      ReadIsActive(lines[..n], key);
      var i :| 0 <= i < n && Active(lines[..n][i], Upper(key));
      assert Active(lines[i], Upper(key));
    }
  }

  ghost predicate AllActive(lines: seq<string>, entries: seq<Entry>) {
    forall e <- entries :: HasActive(lines, e.key)
  }

  /** When every key has an active line nothing is inserted or appended. */
  lemma NothingNew(lines: seq<string>, entries: seq<Entry>)
    requires AllActive(lines, entries)
    ensures forall i :: 0 <= i < |lines| ==> InsertedAfter(lines, entries, i) == None
    ensures EmitTail(lines, entries) == []
  {
    hide HasActive;
    forall e | e in entries
      ensures !IsAppended(lines, e)
    {
    }
  }

  ghost predicate SameEntries(a: seq<Entry>, b: seq<Entry>) {
    forall e :: e in a <==> e in b
  }

  lemma SameReplaced(line: string, a: seq<Entry>, b: seq<Entry>)
    requires Accepted(a) && Accepted(b) && SameEntries(a, b)
    ensures Replaced(line, a) == Replaced(line, b)
  {
    hide AcceptedEntry, Active;
    if DefinedName(line).Some? {
      var key := Upper(DefinedName(line).value);
      if EntryFor(a, key).Some? {
        EntryFound(b, EntryFor(a, key).value);
      } else if EntryFor(b, key).Some? {
        EntryFound(a, EntryFor(b, key).value);
      }
    }
  }

  lemma {:induction false} SameBody(lines: seq<string>, a: seq<Entry>, b: seq<Entry>, n: nat)
    requires Accepted(a) && Accepted(b) && SameEntries(a, b) && n <= |lines|
    requires forall i :: 0 <= i < |lines| ==> InsertedAfter(lines, a, i) == None && InsertedAfter(lines, b, i) == None
    ensures EmitBody(lines, a, n) == EmitBody(lines, b, n)
  {
    hide Accepted, Replaced, InsertedAfter;
    if n > 0 {
      SameBody(lines, a, b, n - 1);
      SameReplaced(lines[n - 1], a, b);
    }
  }

  /** The same entries in another order write the same lines when nothing is new. */
  lemma SameEmit(lines: seq<string>, a: seq<Entry>, b: seq<Entry>)
    requires Accepted(a) && Accepted(b) && SameEntries(a, b) && AllActive(lines, a)
    ensures Emit(lines, a) == Emit(lines, b)
  {
    hide Accepted, EmitBody, EmitTail, InsertedAfter, HasActive;
    NothingNew(lines, a);
    NothingNew(lines, b);
    SameBody(lines, a, b, |lines|);
  }

  // ---------------------------------------------------------------- the first save

  /** A value that was read is submitted as a value, never as an unset. */
  lemma ReadIsValue(value: Value)
    ensures ValueOf(AsJson(value)).Ok? ==> ValueOf(AsJson(value)).value.Some?
  {
  }

  /** The entries submit every key that was read, with a value. */
  lemma SubmittedEntries(updates: seq<Update>, entries: seq<Entry>, config: map<string, Value>)
    requires Submits(updates, config) && LetThrough(updates, entries)
    ensures forall e <- entries :: e.value.Some? && exists key <- config :: e.key == Upper(key)
    ensures forall key <- config :: EntryFor(entries, Upper(key)).Some?
  {
    hide AsJson, KeyReject, ValueOf, Offenders;
    forall e | e in entries
      ensures e.value.Some? && exists key <- config :: e.key == Upper(key)
    {
      var i :| 0 <= i < |entries| && entries[i] == e;
      ReadIsValue(config[updates[i].0]);
      assert updates[i].0 in config;
    }
    forall key | key in config
      ensures EntryFor(entries, Upper(key)).Some?
    {
      var i :| 0 <= i < |updates| && updates[i].0 == key;
      assert entries[i] in entries && entries[i].key == Upper(key);
    }
  }

  /** After the save exactly the entries are read. */
  lemma ReadAfterSave(original: string, updates: seq<Update>, entries: seq<Entry>)
    requires Submits(updates, ParseContent(original)) && LetThrough(updates, entries) && Accepted(entries)
    ensures var read := ParseContent(Content(original, entries));
            && (forall key :: key in read <==> exists e <- entries :: e.key == key)
            && (forall e <- entries :: e.value.Some? && e.key in read && read[e.key] == Text(e.value.value))
  {
    hide ParseContent, Content, LetThrough, Submits, AcceptedEntry;
    EditCommutes(original, entries);
    SubmittedEntries(updates, entries, ParseContent(original));
    BoundTo(entries);
    assert Updated(ParseContent(original), entries) == Bound(entries);
  }

  lemma FirstSaveSettles(original: string, updates: seq<Update>, entries: seq<Entry>)
    requires Submits(updates, ParseContent(original)) && LetThrough(updates, entries) && Accepted(entries)
    ensures var content := Content(original, entries);
            Content(content, entries) == content && AllActive(Lines(content), entries)
  {
    hide Content, LetThrough, Submits, Accepted, HasActive, ParseLines, Lines, EmitTail, InsertedAfter, HasCrLf;
    var lines := Lines(original);
    SubmittedEntries(updates, entries, ParseContent(original));
    forall e | e in entries
      ensures HasActive(lines, e.key)
    {
      var key :| key in ParseContent(original) && e.key == Upper(key);
      ReadIsActive(lines, key);
    }
    NothingNew(lines, entries);
    I.EditIdempotentUnless(original, entries);
    var content := Content(original, entries);
    ReadAfterSave(original, updates, entries);
    forall e | e in entries
      ensures HasActive(Lines(content), e.key)
    {
      EntriesUpper(entries, e);
      ReadIsActive(Lines(content), e.key);
    }
  }

  lemma EntriesUpper(entries: seq<Entry>, e: Entry)
    requires Accepted(entries) && e in entries
    ensures Upper(e.key) == e.key && AcceptedEntry(e)
  {
    var i :| 0 <= i < |entries| && entries[i] == e;
    assert AcceptedEntry(entries[i]);
  }

  // ---------------------------------------------------------------- the second save

  lemma UpperAllowed(key: string)
    requires KeyReject(key) == None
    ensures KeyReject(Upper(key)) == None
  {
    ValidKeyChars(key);
    UpperTwice(key);
  }

  /** What is submitted the second time are the same entries, by their upper-case keys. */
  lemma SecondUpdate(updates: seq<Update>, entries: seq<Entry>, again: seq<Update>, read: map<string, Value>, j: nat)
    returns (e: Entry)
    requires LetThrough(updates, entries) && Accepted(entries) && Submits(again, read) && j < |again|
    requires forall key :: key in read <==> exists e <- entries :: e.key == key
    requires forall e <- entries :: e.value.Some? && e.key in read && read[e.key] == Text(e.value.value)
    ensures e in entries && e.value.Some? && again[j] == (e.key, JString(e.value.value))
    ensures Upper(e.key) == e.key && KeyReject(e.key) == None && ValueOf(JString(e.value.value)) == Ok(e.value)
  {
    hide KeyReject, Offenders, Accepted, Writable, Upper;
    assert again[j].0 in read;
    e :| e in entries && e.key == again[j].0;
    EntriesUpper(entries, e);
    var i :| 0 <= i < |entries| && entries[i] == e;
    UpperAllowed(updates[i].0);
  }

  lemma SecondLetThrough(updates: seq<Update>, entries: seq<Entry>, again: seq<Update>, read: map<string, Value>)
    requires LetThrough(updates, entries) && Accepted(entries) && Submits(again, read)
    requires forall key :: key in read <==> exists e <- entries :: e.key == key
    requires forall e <- entries :: e.value.Some? && e.key in read && read[e.key] == Text(e.value.value)
    ensures Offenders(again, |again|) == {}
    ensures forall second: seq<Entry> :: EntriesOf(second, again) ==> SameEntries(entries, second)
  {
    hide KeyReject, Accepted, Writable, Upper, ValueOf, LetThrough;
    forall j | 0 <= j < |again|
      ensures !Offends(again, |again|, j)
    {
      var e := SecondUpdate(updates, entries, again, read, j);
      forall k | 0 <= k < |again| && k != j
        ensures !Collide(again[j], again[k])
      {
        var f := SecondUpdate(updates, entries, again, read, k);
      }
    }
    forall second: seq<Entry> | EntriesOf(second, again)
      ensures SameEntries(entries, second)
    {
      SecondEntries(updates, entries, again, read, second);
    }
  }

  lemma SecondEntries(updates: seq<Update>, entries: seq<Entry>, again: seq<Update>, read: map<string, Value>,
                      second: seq<Entry>)
    requires LetThrough(updates, entries) && Accepted(entries) && Submits(again, read) && EntriesOf(second, again)
    requires forall key :: key in read <==> exists e <- entries :: e.key == key
    requires forall e <- entries :: e.value.Some? && e.key in read && read[e.key] == Text(e.value.value)
    ensures SameEntries(entries, second)
  {
    hide KeyReject, AcceptedEntry, Writable, Upper, ValueOf, LetThrough;
    forall j | 0 <= j < |again|
      ensures second[j] in entries && second[j].key == again[j].0
    {
      var e := SecondUpdate(updates, entries, again, read, j);
      assert second[j] == e;
    }
    forall e | e in entries
      ensures e in second
    {
      var j :| 0 <= j < |again| && again[j].0 == e.key;
      EntryFound(entries, e);
      EntryFound(entries, second[j]);
    }
  }

  /** Saving what is read from a file, and then what is read from the result: the second
      save is accepted and changes nothing, for every file and whatever the order of
      the keys. */
  lemma SavingWhatIsReadSettles(original: string, updates: seq<Update>, entries: seq<Entry>, plan: EditPlan,
                                again: seq<Update>)
    requires Submits(updates, ParseContent(original)) && LetThrough(updates, entries)
    requires Plans(plan, original, entries) && Submits(again, ParseContent(plan.content))
    ensures Offenders(again, |again|) == {}
    ensures forall second: seq<Entry>, next: EditPlan ::
            EntriesOf(second, again) && Plans(next, plan.content, second) ==>
              next.content == plan.content && !next.changed
  {
    hide ParseContent, Submits, Content, EntriesOf, Offenders, Accepted, Lines, AllActive, SameEntries, DispositionsAre;
    EntriesAccepted(entries, updates);
    ReadAfterSave(original, updates, entries);
    SecondLetThrough(updates, entries, again, ParseContent(plan.content));
    FirstSaveSettles(original, updates, entries);
    forall second: seq<Entry>, next: EditPlan | EntriesOf(second, again) && Plans(next, plan.content, second)
      ensures next.content == plan.content
    {
      EntriesAccepted(second, again);
      SameContent(plan.content, entries, second);
    }
  }

  lemma SameContent(content: string, a: seq<Entry>, b: seq<Entry>)
    requires Accepted(a) && Accepted(b) && SameEntries(a, b) && AllActive(Lines(content), a)
    ensures Content(content, a) == Content(content, b)
  {
    hide Emit, Written, Accepted, SameEntries, AllActive, Lines;
    SameEmit(Lines(content), a, b);
  }
}
