/** Planning an edit, as it runs: locate every key, place every entry, rewrite
    the body, append what is missing. */
module EnvEdit {
  import opened Spans
  import opened Text
  import opened EnvSyntax
  import opened EnvPlan
  import opened EnvStable
  import opened EnvReport
  import opened EnvValidate

  /** The lines that concern one key. */
  datatype Location = Location(active: seq<nat>, lastComment: Option<nat>)

  /** The lines that entries rewrite, the lines they follow, and the entries left over. */
  datatype Placement = Placement(owner: map<nat, Entry>, insertAfter: map<nat, Entry>, append: seq<Entry>)

  function ActiveLines(lines: seq<string>, key: string): (r: seq<nat>)
    ensures forall i: nat :: i in r <==> i < |lines| && Active(lines[i], key)
  {
    if |lines| == 0 then []
    else
      var n := |lines| - 1;
      ActiveLines(lines[..n], key) + if Active(lines[n], key) then [n] else []
  }

  function LocationOf(lines: seq<string>, key: string): Location {
    Location(ActiveLines(lines, key), LastComment(lines, key))
  }

  ghost predicate Located(located: map<string, Location>, lines: seq<string>, entries: seq<Entry>) {
    && (forall k :: k in located <==> exists e <- entries :: e.key == k)
    && (forall k <- located :: located[k] == LocationOf(lines, k))
  }

  /** Locates every submitted key in the original lines. */
  method Locate(lines: seq<string>, entries: seq<Entry>) returns (located: map<string, Location>)
    ensures Located(located, lines, entries)
  {
    hide Active, Commented;
    located := map[];
    for n := 0 to |entries|
      invariant Located(located, lines, entries[..n])
    {
      var key := entries[n].key;
      var location := Location([], None);
      for i := 0 to |lines|
        invariant location == LocationOf(lines[..i], key)
      {
        assert lines[..i + 1][..i] == lines[..i];
        if Active(lines[i], key) {
          location := location.(active := location.active + [i]);
        } else if Commented(lines[i], key) {
          location := location.(lastComment := Some(i));
        }
      }
      assert lines[..|lines|] == lines;
      LocatedMore(located, lines, entries, n);
      located := located[key := location];
    }
    assert entries[..|entries|] == entries;
  }

  lemma LocatedMore(located: map<string, Location>, lines: seq<string>, entries: seq<Entry>, n: nat)
    requires n < |entries| && Located(located, lines, entries[..n])
    ensures Located(located[entries[n].key := LocationOf(lines, entries[n].key)], lines, entries[..n + 1])
  {
    hide LocationOf;
    var after := located[entries[n].key := LocationOf(lines, entries[n].key)];
    assert entries[..n + 1] == entries[..n] + [entries[n]];
    forall k
      ensures k in after <==> exists e <- entries[..n + 1] :: e.key == k
    {
      if e :| e in entries[..n + 1] && e.key == k {
        assert e in entries[..n] || e == entries[n];
      }
      assert k in located <==> exists e <- entries[..n] :: e.key == k;
      assert entries[n] in entries[..n + 1];
    }
  }

  /** The entries own the lines and gain the lines that they should. */
  ghost predicate Placed(placement: Placement, lines: seq<string>, entries: seq<Entry>) {
    && (forall i: nat :: i in placement.owner <==> i < |lines| && OwnerOf(lines[i], entries).Some?)
    && (forall i <- placement.owner :: placement.owner[i] == OwnerOf(lines[i], entries).value)
    && (forall i: nat :: i in placement.insertAfter <==> i < |lines| && InsertedAfter(lines, entries, i).Some?)
    && (forall i <- placement.insertAfter :: placement.insertAfter[i] == InsertedAfter(lines, entries, i).value)
    && placement.append == EnvPlan.Appended(lines, entries)
  }

  predicate OwnedLine(line: string, entries: seq<Entry>, done: set<string>) {
    exists e <- entries :: e.key in done && Active(line, e.key)
  }

  /** The lines owned by the entries of `done`. */
  ghost predicate OwnedBy(owner: map<nat, Entry>, lines: seq<string>, entries: seq<Entry>, done: set<string>) {
    && (forall i: nat :: i in owner <==> i < |lines| && OwnedLine(lines[i], entries, done))
    && (forall i <- owner :: owner[i] in entries && owner[i].key in done && Active(lines[i], owner[i].key))
  }

  /** The lines below which the entries of `done` gain a line. */
  ghost predicate GainedBy(insertAfter: map<nat, Entry>, lines: seq<string>, entries: seq<Entry>, done: set<string>) {
    && (forall i: nat :: i in insertAfter <==> exists e <- entries :: e.key in done && InsertsAfter(lines, e, i))
    && (forall i <- insertAfter ::
        insertAfter[i] in entries && insertAfter[i].key in done && InsertsAfter(lines, insertAfter[i], i))
  }

  /** Resolves every entry against what was found for it. */
  method Place(located: map<string, Location>, entries: seq<Entry>, ghost lines: seq<string>)
    returns (placement: Placement)
    requires Located(located, lines, entries) && Accepted(entries)
    ensures Placed(placement, lines, entries)
  {
    hide OwnedBy, GainedBy, Active, InsertsAfter, Accepted, ActiveLines, LastComment, IsAppended;
    var owner: map<nat, Entry> := map[];
    var insertAfter: map<nat, Entry> := map[];
    var left := located.Keys;
    NothingPlaced(lines, entries);
    assert located.Keys - left == {};
    while left != {}
      invariant left <= located.Keys
      invariant OwnedBy(owner, lines, entries, located.Keys - left)
      invariant GainedBy(insertAfter, lines, entries, located.Keys - left)
      decreases left
    {
      var key :| key in left;
      ghost var done := located.Keys - left;
      left := left - {key};
      assert located.Keys - left == done + {key};
      var entry := EntryFor(entries, key).value;
      var location := located[key];
      OwnsMore(owner, lines, entries, done, entry);
      owner := Own(owner, location.active, entry);
      GainsMore(insertAfter, lines, entries, done, entry);
      if location.active == [] && entry.value.Some? {
        if location.lastComment.Some? {
          insertAfter := insertAfter[location.lastComment.value := entry];
        }
      }
    }
    assert located.Keys - left == located.Keys;
    OwnersPlaced(owner, lines, entries, located.Keys);
    GainsPlaced(insertAfter, lines, entries, located.Keys);
    var append := Missing(located, entries, lines);
    placement := Placement(owner, insertAfter, append);
  }

  /** The entries that have no home in the file, in order. */
  method Missing(located: map<string, Location>, entries: seq<Entry>, ghost lines: seq<string>)
    returns (append: seq<Entry>)
    requires Located(located, lines, entries)
    ensures append == EnvPlan.Appended(lines, entries)
  {
    hide ActiveLines, LastComment, IsAppended;
    append := [];
    for n := 0 to |entries|
      invariant append == EnvPlan.Appended(lines, entries[..n])
    {
      assert entries[..n + 1][..n] == entries[..n];
      assert entries[n] in entries;
      var location := located[entries[n].key];
      LocationMeans(lines, entries[n]);
      if entries[n].value.Some? && location.active == [] && location.lastComment == None {
        append := append + [entries[n]];
      }
    }
    assert entries[..|entries|] == entries;
  }

  function Own(owner: map<nat, Entry>, active: seq<nat>, entry: Entry): (r: map<nat, Entry>)
    ensures forall i: nat :: i in r <==> i in owner || i in active
    ensures forall i <- r :: r[i] == if i in active then entry else owner[i]
  {
    if |active| == 0 then owner
    else
      assert active == active[..|active| - 1] + [active[|active| - 1]];
      Own(owner, active[..|active| - 1], entry)[active[|active| - 1] := entry]
  }

  lemma NothingPlaced(lines: seq<string>, entries: seq<Entry>)
    ensures OwnedBy(map[], lines, entries, {}) && GainedBy(map[], lines, entries, {})
  {
  }

  /** What a location says of an entry. */
  lemma LocationMeans(lines: seq<string>, e: Entry)
    ensures ActiveLines(lines, e.key) == [] <==> !HasActive(lines, e.key)
    ensures forall i: nat :: InsertsAfter(lines, e, i) <==>
              ActiveLines(lines, e.key) == [] && e.value.Some? && LastComment(lines, e.key) == Some(i)
    ensures IsAppended(lines, e) <==>
              e.value.Some? && ActiveLines(lines, e.key) == [] && LastComment(lines, e.key) == None
  {
    hide Active;
    var active := ActiveLines(lines, e.key);
    if HasActive(lines, e.key) {
      var i :| 0 <= i < |lines| && Active(lines[i], e.key);
      assert i in active;
    }
    if active != [] {
      assert active[0] in active;
    }
  }

  lemma OwnedLineMore(line: string, entries: seq<Entry>, done: set<string>, e: Entry)
    requires e in entries
    ensures OwnedLine(line, entries, done + {e.key}) <==> OwnedLine(line, entries, done) || Active(line, e.key)
  {
    hide Active;
    if OwnedLine(line, entries, done) {
      var x :| x in entries && x.key in done && Active(line, x.key);
      assert x.key in done + {e.key};
    }
  }

  lemma OwnsMore(owner: map<nat, Entry>, lines: seq<string>, entries: seq<Entry>,
                 done: set<string>, e: Entry)
    requires OwnedBy(owner, lines, entries, done) && e in entries
    ensures OwnedBy(Own(owner, ActiveLines(lines, e.key), e), lines, entries, done + {e.key})
  {
    hide Active, OwnedLine;
    var after := Own(owner, ActiveLines(lines, e.key), e);
    forall i: nat
      ensures i in after <==> i < |lines| && OwnedLine(lines[i], entries, done + {e.key})
    {
      if i < |lines| {
        OwnedLineMore(lines[i], entries, done, e);
      }
    }
  }

  lemma GainsMore(insertAfter: map<nat, Entry>, lines: seq<string>, entries: seq<Entry>, done: set<string>, e: Entry)
    requires GainedBy(insertAfter, lines, entries, done) && Accepted(entries) && e in entries
    ensures var location := LocationOf(lines, e.key);
            var after := if location.active == [] && e.value.Some? && location.lastComment.Some?
                         then insertAfter[location.lastComment.value := e] else insertAfter;
            GainedBy(after, lines, entries, done + {e.key})
  {
    hide InsertsAfter, AcceptedEntry, ActiveLines, LastComment;
    LocationMeans(lines, e);
    forall x | x in entries && x.key == e.key
      ensures x == e
    {
      EntryFound(entries, x);
      EntryFound(entries, e);
    }
  }

  lemma OwnersPlaced(owner: map<nat, Entry>, lines: seq<string>, entries: seq<Entry>, done: set<string>)
    requires OwnedBy(owner, lines, entries, done) && Accepted(entries) && forall e <- entries :: e.key in done
    ensures forall i: nat :: i in owner <==> i < |lines| && OwnerOf(lines[i], entries).Some?
    ensures forall i <- owner :: owner[i] == OwnerOf(lines[i], entries).value
  {
    hide AcceptedEntry, EntryFor, DefinedName;
    forall i <- owner
      ensures OwnerOf(lines[i], entries) == Some(owner[i])
    {
      EntryFound(entries, owner[i]);
    }
    forall i: nat | i < |lines| && OwnerOf(lines[i], entries).Some?
      ensures i in owner
    {
      var e := OwnerOf(lines[i], entries).value;
      assert e in entries && Active(lines[i], e.key);
    }
  }

  lemma GainsPlaced(insertAfter: map<nat, Entry>, lines: seq<string>, entries: seq<Entry>,
                    done: set<string>)
    requires GainedBy(insertAfter, lines, entries, done) && Accepted(entries) && forall e <- entries :: e.key in done
    ensures forall i: nat :: i in insertAfter <==> i < |lines| && InsertedAfter(lines, entries, i).Some?
    ensures forall i <- insertAfter :: insertAfter[i] == InsertedAfter(lines, entries, i).value
  {
    hide Accepted, Active, Commented, HasActive;
    forall i <- insertAfter
      ensures i < |lines| && InsertedAfter(lines, entries, i) == Some(insertAfter[i])
    {
      InsertedOnce(lines, entries, i, insertAfter[i]);
    }
    forall i: nat | i < |lines| && InsertedAfter(lines, entries, i).Some?
      ensures i in insertAfter
    {
      var e := InsertedAfter(lines, entries, i).value;
      assert e in entries && InsertsAfter(lines, e, i);
    }
  }
}
