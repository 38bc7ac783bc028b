/** Which chunks a scan opens, told from the file alone. */
module OpenedChunks {
  import opened Spans
  import opened Feed
  import opened Scan
  import opened ScanLayout

  // ---------------------------------------------------------------- what a group declares and names

  /** The channels declared in a chunk. */
  function DeclaredIn(contents: seq<Inner>): set<nat> {
    Declare(map[], contents).Keys
  }

  function DeclaredBy(g: Group): set<nat> {
    match g
    case ChunkGroup(_, _, _, contents, _) => DeclaredIn(contents)
    case Single(Placed(_, Channel(id, _))) => {id}
    case Single(_) => {}
  }

  /** A chunk with MessageIndex records, left compressed if it can be. */
  predicate Indexed(g: Group) {
    g.ChunkGroup? && |g.marks| > 0
  }

  /** The channels a chunk's MessageIndex records are for. */
  function MarkedIn(g: Group): set<nat> {
    if Indexed(g) then CountsOf(g.marks).Keys else {}
  }

  /** The channels declared by groups `i` up to `j`. */
  function DeclaredBetween(groups: seq<Group>, i: nat, j: nat): set<nat>
    requires j <= |groups|
  {
    set k, id | i <= k < j && id in DeclaredBy(groups[k]) :: id
  }

  // ---------------------------------------------------------------- what is known when

  /** Whether chunk `h` has been opened before group `n` is reached: some indexed chunk
      since, or `h` itself, is for a channel that was neither known when `h` was reached
      nor declared since then. */
  ghost predicate Opened(groups: seq<Group>, h: nat, n: nat)
    requires h < n <= |groups|
    decreases h, 1
  {
    exists g :: h <= g < n && Needs(groups, h, g)
  }

  /** Whether chunk `g` needs chunk `h` to be opened. */
  ghost predicate Needs(groups: seq<Group>, h: nat, g: nat)
    requires h <= g < |groups|
    decreases h, 0, 1
  {
    Indexed(groups[g]) && !(MarkedIn(groups[g]) <= Known(groups, h) + DeclaredBetween(groups, h + 1, g + 1))
  }

  /** The channels known when group `n` is reached: those declared outside indexed
      chunks, and in indexed chunks opened by then. */
  ghost function Known(groups: seq<Group>, n: nat): set<nat>
    requires n <= |groups|
    decreases n, 0, 0
  {
    set h, id | 0 <= h < n && id in DeclaredBy(groups[h]) && (!Indexed(groups[h]) || Opened(groups, h, n)) :: id
  }

  // ---------------------------------------------------------------- laws of what is known

  lemma OpenedFor(groups: seq<Group>, h: nat, n: nat) returns (g: nat)
    requires h < n <= |groups| && Opened(groups, h, n)
    ensures h <= g < n && Needs(groups, h, g)
  {
    hide Needs;
    g :| h <= g < n && Needs(groups, h, g);
  }

  lemma OpenedMore(groups: seq<Group>, h: nat, n: nat)
    requires h <= n < |groups|
    ensures Opened(groups, h, n + 1) <==> (h < n && Opened(groups, h, n)) || Needs(groups, h, n)
  {
    hide Needs;
    if h < n && Opened(groups, h, n) {
      var g := OpenedFor(groups, h, n);
      assert g < n + 1;
    }
  }

  lemma OpenedStays(groups: seq<Group>, h: nat, m: nat, n: nat)
    requires h < m <= n <= |groups| && Opened(groups, h, m)
    ensures Opened(groups, h, n)
  {
    hide Needs;
  }

  lemma KnownGrows(groups: seq<Group>, m: nat, n: nat)
    requires m <= n <= |groups|
    ensures Known(groups, m) <= Known(groups, n)
  {
    hide Opened;
    forall id | id in Known(groups, m)
      ensures id in Known(groups, n)
    {
      var h :| 0 <= h < m && id in DeclaredBy(groups[h]) && (!Indexed(groups[h]) || Opened(groups, h, m));
      if Indexed(groups[h]) {
        OpenedStays(groups, h, m, n);
      }
    }
  }

  /** A group's declarations are known once it is, unless it is an indexed chunk not opened. */
  lemma DeclaredIsKnown(groups: seq<Group>, h: nat, n: nat)
    requires h < n <= |groups| && (!Indexed(groups[h]) || Opened(groups, h, n))
    ensures DeclaredBy(groups[h]) <= Known(groups, n)
  {
    hide Opened;
  }

  /** While a chunk stays compressed, only what was known when it was reached, and what
      has been declared since, is known. */
  lemma {:induction false} KnownSince(groups: seq<Group>, h: nat, n: nat)
    requires h < n <= |groups| && Indexed(groups[h]) && !Opened(groups, h, n)
    ensures Known(groups, n) <= Known(groups, h) + DeclaredBetween(groups, h + 1, n)
    decreases h
  {
    hide Known, Needs, Indexed;
    forall id | id in Known(groups, n)
      ensures id in Known(groups, h) + DeclaredBetween(groups, h + 1, n)
    {
      var k := KnownFrom(groups, n, id);
      if k < h {
        if !Indexed(groups[k]) || Opened(groups, k, h) {
          DeclaredIsKnown(groups, k, h);
        } else {
          var g := OpenedFor(groups, k, n);
          assert g >= h;
          KnownSince(groups, k, h);
          assert !Needs(groups, h, g);
          NotNeeded(groups, k, h, g);
        }
      }
    }
  }

  lemma KnownFrom(groups: seq<Group>, n: nat, id: nat) returns (h: nat)
    requires n <= |groups| && id in Known(groups, n)
    ensures h < n && id in DeclaredBy(groups[h]) && (!Indexed(groups[h]) || Opened(groups, h, n))
  {
    hide Opened;
    h :| 0 <= h < n && id in DeclaredBy(groups[h]) && (!Indexed(groups[h]) || Opened(groups, h, n));
  }

  /** A chunk that needs no later chunk opened needs no earlier one. */
  lemma NotNeeded(groups: seq<Group>, k: nat, h: nat, g: nat)
    requires k < h <= g < |groups| && !Needs(groups, h, g)
    requires Known(groups, h) <= Known(groups, k) + DeclaredBetween(groups, k + 1, h)
    ensures !Needs(groups, k, g)
  {
    hide Known;
    assert DeclaredBetween(groups, k + 1, h) <= DeclaredBetween(groups, k + 1, g + 1);
    assert DeclaredBetween(groups, h + 1, g + 1) <= DeclaredBetween(groups, k + 1, g + 1);
  }

  // ---------------------------------------------------------------- the scan's stack

  /** What the compressed chunks from `i` on declare. */
  function DeclaredFrom(skipped: seq<seq<Inner>>, i: nat): set<nat> {
    set j, id | i <= j < |skipped| && id in DeclaredIn(skipped[j]) :: id
  }

  /** `positions` are the chunks still compressed when group `n` is reached. */
  ghost predicate StackIs(groups: seq<Group>, n: nat, skipped: seq<seq<Inner>>, positions: seq<nat>)
    requires n <= |groups|
  {
    && |positions| == |skipped|
    && (forall i :: 0 <= i < |positions| ==>
          positions[i] < n && groups[positions[i]].ChunkGroup? && skipped[i] == groups[positions[i]].contents)
    && (forall i, j :: 0 <= i < j < |positions| ==> positions[i] < positions[j])
    && (forall h: nat :: h < n ==> (h in positions <==> Indexed(groups[h]) && !Opened(groups, h, n)))
  }

  lemma {:induction false} DeclareKeys(topics: map<nat, string>, contents: seq<Inner>)
    ensures Declare(topics, contents).Keys == topics.Keys + DeclaredIn(contents)
  {
    if |contents| > 0 {
      DeclareKeys(topics, contents[..|contents| - 1]);
    }
  }

  /** Whether some channel is still missing once the chunks above `j` are opened. */
  predicate Missing(known: set<nat>, skipped: seq<seq<Inner>>, channels: set<nat>, j: nat) {
    !(channels <= known + DeclaredFrom(skipped, j + 1))
  }

  /** Opening stops as soon as every channel is known; each chunk opened was needed. */
  lemma {:induction false} OpeningStops(topics: map<nat, string>, skipped: seq<seq<Inner>>, channels: set<nat>)
    ensures var (t, rest) := OpenSkipped(topics, skipped, channels);
            && |rest| <= |skipped| && rest == skipped[..|rest|]
            && t.Keys == topics.Keys + DeclaredFrom(skipped, |rest|)
            && (forall j :: |rest| <= j < |skipped| ==> Missing(topics.Keys, skipped, channels, j))
            && (|rest| > 0 ==> channels <= t.Keys)
    decreases |skipped|
  {
    hide DeclaredIn, DeclaredFrom;
    var n := |skipped| - 1;
    NoneFrom(skipped);
    if Unseen(topics, channels) && |skipped| > 0 {
      var more := Declare(topics, skipped[n]);
      DeclareKeys(topics, skipped[n]);
      OpeningStops(more, skipped[..n], channels);
      forall i: nat | i <= n
        ensures topics.Keys + DeclaredFrom(skipped, i) == more.Keys + DeclaredFrom(skipped[..n], i)
      {
        LastFrom(skipped, i);
      }
      forall j: nat | |OpenSkipped(topics, skipped, channels).1| <= j < |skipped|
        ensures Missing(topics.Keys, skipped, channels, j)
      {
        if j < n {
          assert Missing(more.Keys, skipped[..n], channels, j);
          LastFrom(skipped, j + 1);
        }
      }
    }
  }

  lemma NoneFrom(skipped: seq<seq<Inner>>)
    ensures DeclaredFrom(skipped, |skipped|) == {}
  {
  }

  lemma LastFrom(skipped: seq<seq<Inner>>, i: nat)
    requires i < |skipped|
    ensures var n := |skipped| - 1;
            DeclaredFrom(skipped, i) == DeclaredFrom(skipped[..n], i) + DeclaredIn(skipped[n])
  {
    hide DeclaredIn;
  }

  lemma SinceFromAbove(groups: seq<Group>, n: nat, skipped: seq<seq<Inner>>, positions: seq<nat>, i: nat)
    requires n < |groups| && StackIs(groups, n, skipped, positions) && i < |positions|
    ensures DeclaredBetween(groups, positions[i] + 1, n) <= Known(groups, n) + DeclaredFrom(skipped, i + 1)
  {
    hide Known, Opened, DeclaredIn, Indexed;
    var p := positions[i];
    forall q: nat, id | p < q < n && id in DeclaredBy(groups[q])
      ensures id in Known(groups, n) + DeclaredFrom(skipped, i + 1)
    {
      if q in positions {
        var j :| 0 <= j < |positions| && positions[j] == q;
        assert j > i;
        assert id in DeclaredIn(skipped[j]);
      } else {
        DeclaredIsKnown(groups, q, n);
      }
    }
  }

  lemma AboveIsBetween(groups: seq<Group>, n: nat, skipped: seq<seq<Inner>>, positions: seq<nat>, i: nat)
    requires n < |groups| && StackIs(groups, n, skipped, positions) && i < |positions|
    ensures DeclaredFrom(skipped, i + 1) <= DeclaredBetween(groups, positions[i] + 1, n)
  {
    hide Opened, DeclaredIn, Indexed;
    var above := DeclaredFrom(skipped, i + 1);
    forall id | id in above
      ensures id in DeclaredBetween(groups, positions[i] + 1, n)
    {
      var j :| i + 1 <= j < |skipped| && id in DeclaredIn(skipped[j]);
      assert positions[j] > positions[i] && id in DeclaredBy(groups[positions[j]]);
    }
  }

  lemma BetweenMore(groups: seq<Group>, i: nat, n: nat)
    requires i <= n < |groups|
    ensures DeclaredBetween(groups, i, n + 1) == DeclaredBetween(groups, i, n) + DeclaredBy(groups[n])
  {
  }

  /** What is known once all compressed chunks above one, and the chunk just reached, are opened. */
  lemma AboveIsSince(groups: seq<Group>, n: nat, skipped: seq<seq<Inner>>, positions: seq<nat>, i: nat)
    requires n < |groups| && StackIs(groups, n, skipped, positions) && i < |positions|
    ensures var p := positions[i];
            Known(groups, n) + DeclaredBy(groups[n]) + DeclaredFrom(skipped, i + 1)
              == Known(groups, p) + DeclaredBetween(groups, p + 1, n + 1)
  {
    hide *;
    OnStackUnopened(groups, n, skipped, positions, i);
    var p := positions[i];
    KnownSince(groups, p, n);
    KnownGrows(groups, p, n);
    SinceFromAbove(groups, n, skipped, positions, i);
    AboveIsBetween(groups, n, skipped, positions, i);
    BetweenMore(groups, p + 1, n);
    SameUnion(Known(groups, n), Known(groups, p), DeclaredBetween(groups, p + 1, n), DeclaredFrom(skipped, i + 1),
        DeclaredBy(groups[n]));
  }

  lemma OnStackUnopened(groups: seq<Group>, n: nat, skipped: seq<seq<Inner>>, positions: seq<nat>, i: nat)
    requires n <= |groups| && StackIs(groups, n, skipped, positions) && i < |positions|
    ensures positions[i] < n && Indexed(groups[positions[i]]) && !Opened(groups, positions[i], n)
  {
    hide Opened, Indexed;
    assert positions[i] in positions;
  }

  lemma SameUnion(now: set<nat>, before: set<nat>, since: set<nat>, above: set<nat>, more: set<nat>)
    requires before <= now <= before + since && above <= since <= now + above
    ensures now + more + above == before + (since + more)
  {
  }

  // ---------------------------------------------------------------- the scan, group by group

  /** A group other than an indexed chunk adds its declarations and opens nothing. */
  lemma PlainKnown(groups: seq<Group>, n: nat)
    requires n < |groups| && !Indexed(groups[n])
    ensures Known(groups, n + 1) == Known(groups, n) + DeclaredBy(groups[n])
    ensures forall h: nat :: h < n ==> (Opened(groups, h, n + 1) <==> Opened(groups, h, n))
  {
    hide Opened, Needs, DeclaredBy;
    forall h: nat | h < n
      ensures Opened(groups, h, n + 1) <==> Opened(groups, h, n)
    {
      OpenedMore(groups, h, n);
      NotIndexed(groups, h, n);
    }
  }

  lemma NotIndexed(groups: seq<Group>, h: nat, g: nat)
    requires h <= g < |groups| && !Indexed(groups[g])
    ensures !Needs(groups, h, g)
  {
  }

  lemma PlainTopics(s: ScanState, g: Group)
    requires ValidGroup(g) && !Indexed(g) && s.chunk == None
    ensures var t := AddGroup(s, g);
            t.chunk == None && t.skipped == s.skipped && t.topics.Keys == s.topics.Keys + DeclaredBy(g)
  {
    if g.ChunkGroup? {
      SameChannels(g.marks);
      DeclareKeys(s.topics, g.contents);
    }
  }

  /** An indexed chunk opens exactly the chunks that it needs. */
  lemma IndexedKnown(groups: seq<Group>, n: nat, needed: set<nat>)
    requires n < |groups| && Indexed(groups[n])
    requires forall h: nat ::
             h in needed <==> h <= n && Indexed(groups[h]) && (h < n ==> !Opened(groups, h, n)) && Needs(groups, h, n)
    ensures Known(groups, n + 1) == Known(groups, n) + (set h, id | h in needed && id in DeclaredBy(groups[h]) :: id)
  {
    hide Opened, Needs, DeclaredBy, Indexed;
    forall h: nat | h <= n
      ensures Opened(groups, h, n + 1) <==> (h < n && Opened(groups, h, n)) || Needs(groups, h, n)
    {
      OpenedMore(groups, h, n);
    }
  }

  lemma IndexedTopics(s: ScanState, g: Group)
    requires Indexed(g) && s.chunk == None
    ensures var t := AddGroup(s, g);
            && t.chunk == None
            && (t.topics, t.skipped) ==
               if Unseen(s.topics, MarkedIn(g)) then OpenSkipped(Declare(s.topics, g.contents), s.skipped, MarkedIn(g))
               else (s.topics, s.skipped + [g.contents])
  {
    hide OpenSkipped, Declare;
    SameChannels(g.marks);
  }

  /** The scan's topics are those known, and its skipped chunks those not opened. */
  ghost predicate ScanKnows(groups: seq<Group>, n: nat, s: ScanState, positions: seq<nat>)
    requires n <= |groups|
  {
    s.chunk == None && s.topics.Keys == Known(groups, n) && StackIs(groups, n, s.skipped, positions)
  }

  lemma PlainStep(groups: seq<Group>, n: nat, s: ScanState, positions: seq<nat>)
    requires n < |groups| && ValidGroup(groups[n]) && !Indexed(groups[n]) && ScanKnows(groups, n, s, positions)
    ensures ScanKnows(groups, n + 1, AddGroup(s, groups[n]), positions)
  {
    hide Known, Opened, DeclaredBy, AddGroup, Indexed;
    PlainKnown(groups, n);
    PlainTopics(s, groups[n]);
  }

  lemma NoneNeeded(groups: seq<Group>, n: nat, h: nat)
    requires h <= n < |groups| && Indexed(groups[h]) && (h < n ==> !Opened(groups, h, n))
    requires MarkedIn(groups[n]) <= Known(groups, n)
    ensures !Needs(groups, h, n)
  {
    hide Known, MarkedIn;
    if h < n {
      KnownSince(groups, h, n);
      assert DeclaredBetween(groups, h + 1, n) <= DeclaredBetween(groups, h + 1, n + 1);
    }
  }

  /** An indexed chunk all of whose channels are known stays compressed. */
  lemma SkippedStep(groups: seq<Group>, n: nat, s: ScanState, positions: seq<nat>)
    requires n < |groups| && Indexed(groups[n]) && ScanKnows(groups, n, s, positions)
    requires !Unseen(s.topics, MarkedIn(groups[n]))
    ensures ScanKnows(groups, n + 1, AddGroup(s, groups[n]), positions + [n])
  {
    hide Known, Opened, Needs, DeclaredBy, AddGroup, MarkedIn;
    IndexedTopics(s, groups[n]);
    forall h: nat | h <= n && Indexed(groups[h]) && (h < n ==> !Opened(groups, h, n))
      ensures !Needs(groups, h, n)
    {
      NoneNeeded(groups, n, h);
    }
    IndexedKnown(groups, n, {});
    forall h: nat | h <= n
      ensures Opened(groups, h, n + 1) <==> (h < n && Opened(groups, h, n)) || Needs(groups, h, n)
    {
      OpenedMore(groups, h, n);
    }
  }

  /** Which chunks on the stack an indexed chunk needs: those that are opened. */
  lemma NeededOnStack(groups: seq<Group>, n: nat, s: ScanState, positions: seq<nat>, j: nat, kept: nat)
    requires n < |groups| && Indexed(groups[n]) && ScanKnows(groups, n, s, positions)
    requires kept <= |positions| && j < |positions|
    requires var known := Known(groups, n) + DeclaredBy(groups[n]);
             && (j >= kept ==> Missing(known, s.skipped, MarkedIn(groups[n]), j))
             && (kept > 0 ==> MarkedIn(groups[n]) <= known + DeclaredFrom(s.skipped, kept))
    ensures Needs(groups, positions[j], n) <==> j >= kept
  {
    hide Known, Opened, DeclaredBy, MarkedIn;
    AboveIsSince(groups, n, s.skipped, positions, j);
    if j < kept {
      assert DeclaredFrom(s.skipped, kept) <= DeclaredFrom(s.skipped, j + 1);
    }
  }

  lemma OpenedDeclare(groups: seq<Group>, n: nat, s: ScanState, positions: seq<nat>, kept: nat)
    requires n < |groups| && ScanKnows(groups, n, s, positions) && kept <= |positions|
    ensures (set h, id | h in {n} + Positions(positions, kept) && id in DeclaredBy(groups[h]) :: id)
         == DeclaredBy(groups[n]) + DeclaredFrom(s.skipped, kept)
  {
    hide Known, Opened, DeclaredIn;
    var needed := {n} + Positions(positions, kept);
    var declared := set h, id | h in needed && id in DeclaredBy(groups[h]) :: id;
    forall id | id in declared
      ensures id in DeclaredBy(groups[n]) + DeclaredFrom(s.skipped, kept)
    {
      var h :| h in needed && id in DeclaredBy(groups[h]);
      if h != n {
        var j :| kept <= j < |positions| && positions[j] == h;
        assert id in DeclaredIn(s.skipped[j]);
      }
    }
    var below := DeclaredFrom(s.skipped, kept);
    forall id | id in below
      ensures id in declared
    {
      var j :| kept <= j < |s.skipped| && id in DeclaredIn(s.skipped[j]);
      assert positions[j] in needed && id in DeclaredBy(groups[positions[j]]);
    }
  }

  function Positions(positions: seq<nat>, kept: nat): set<nat> {
    set j | kept <= j < |positions| :: positions[j]
  }

  /** How far down the stack an indexed chunk with an unknown channel opens chunks. */
  lemma OpensTo(groups: seq<Group>, n: nat, s: ScanState, positions: seq<nat>) returns (kept: nat)
    requires n < |groups| && Indexed(groups[n]) && ScanKnows(groups, n, s, positions)
    requires Unseen(s.topics, MarkedIn(groups[n]))
    ensures kept <= |positions| == |s.skipped|
    ensures forall j: nat :: j < |positions| ==> (Needs(groups, positions[j], n) <==> j >= kept)
    ensures var t := AddGroup(s, groups[n]);
            && t.chunk == None && t.skipped == s.skipped[..kept]
            && t.topics.Keys == Known(groups, n) + (DeclaredBy(groups[n]) + DeclaredFrom(s.skipped, kept))
  {
    hide *;
    var g := groups[n];
    KnownFields(groups, n, s, positions);
    IndexedDeclares(g);
    IndexedTopics(s, g);
    var topics := Declare(s.topics, g.contents);
    kept := |OpenSkipped(topics, s.skipped, MarkedIn(g)).1|;
    OpeningStops(topics, s.skipped, MarkedIn(g));
    DeclareKeys(s.topics, g.contents);
    forall j: nat | j < |positions|
      ensures Needs(groups, positions[j], n) <==> j >= kept
    {
      NeededOnStack(groups, n, s, positions, j, kept);
    }
    assert topics.Keys + DeclaredFrom(s.skipped, kept)
        == Known(groups, n) + (DeclaredBy(g) + DeclaredFrom(s.skipped, kept));
  }

  /** An indexed chunk with an unknown channel is opened, and the compressed chunks above
      the last that it needs. */
  lemma OpenedStep(groups: seq<Group>, n: nat, s: ScanState, positions: seq<nat>) returns (after: seq<nat>)
    requires n < |groups| && Indexed(groups[n]) && ScanKnows(groups, n, s, positions)
    requires Unseen(s.topics, MarkedIn(groups[n]))
    ensures ScanKnows(groups, n + 1, AddGroup(s, groups[n]), after)
  {
    hide *;
    var g := groups[n];
    var kept := OpensTo(groups, n, s, positions);
    KnownFields(groups, n, s, positions);
    IndexedDeclares(g);
    after := positions[..kept];
    UnseenIsMissing(s.topics, MarkedIn(g));
    OpenedItself(groups, n);
    var needed := {n} + Positions(positions, kept);
    OnStack(groups, n, s, positions, kept, needed);
    IndexedKnown(groups, n, needed);
    OpenedDeclare(groups, n, s, positions, kept);
    RestOfStack(groups, n, s.skipped, positions, kept);
    FieldsKnown(groups, n + 1, AddGroup(s, g), after);
  }

  lemma KnownFields(groups: seq<Group>, n: nat, s: ScanState, positions: seq<nat>)
    requires n <= |groups| && ScanKnows(groups, n, s, positions)
    ensures s.chunk == None && s.topics.Keys == Known(groups, n) && StackIs(groups, n, s.skipped, positions)
    ensures |positions| == |s.skipped| && forall i :: 0 <= i < |positions| ==> positions[i] < n
  {
    hide Known;
  }

  lemma FieldsKnown(groups: seq<Group>, n: nat, s: ScanState, positions: seq<nat>)
    requires n <= |groups|
    requires s.chunk == None && s.topics.Keys == Known(groups, n) && StackIs(groups, n, s.skipped, positions)
    ensures ScanKnows(groups, n, s, positions)
  {
    hide Known;
  }

  lemma IndexedDeclares(g: Group)
    requires Indexed(g)
    ensures g.ChunkGroup? && ValidGroup(g) && DeclaredBy(g) == DeclaredIn(g.contents)
  {
  }

  lemma UnseenIsMissing(topics: map<nat, string>, channels: set<nat>)
    ensures Unseen(topics, channels) <==> !(channels <= topics.Keys)
  {
  }

  lemma OpenedItself(groups: seq<Group>, n: nat)
    requires n < |groups| && Indexed(groups[n]) && !(MarkedIn(groups[n]) <= Known(groups, n))
    ensures Needs(groups, n, n)
  {
    hide Known, MarkedIn;
    assert DeclaredBetween(groups, n + 1, n + 1) == {};
  }

  lemma OnStack(groups: seq<Group>, n: nat, s: ScanState, positions: seq<nat>, kept: nat, needed: set<nat>)
    requires n < |groups| && Indexed(groups[n]) && ScanKnows(groups, n, s, positions) && kept <= |positions|
    requires needed == {n} + Positions(positions, kept) && Needs(groups, n, n)
    requires forall j: nat :: j < |positions| ==> (Needs(groups, positions[j], n) <==> j >= kept)
    ensures forall h: nat ::
            h in needed <==> h <= n && Indexed(groups[h]) && (h < n ==> !Opened(groups, h, n)) && Needs(groups, h, n)
  {
    hide Known, Opened, Needs, Indexed;
    forall h: nat
      ensures h in needed <==> h <= n && Indexed(groups[h]) && (h < n ==> !Opened(groups, h, n)) && Needs(groups, h, n)
    {
      if h < n && h in positions {
        var j: nat :| j < |positions| && positions[j] == h;
        assert h in Positions(positions, kept) <==> j >= kept;
      }
      assert forall k :: 0 <= k < |positions| ==> positions[k] in positions;
    }
  }

  lemma RestOfStack(groups: seq<Group>, n: nat, skipped: seq<seq<Inner>>, positions: seq<nat>, kept: nat)
    requires n < |groups| && StackIs(groups, n, skipped, positions) && kept <= |positions| && Needs(groups, n, n)
    requires forall j: nat :: j < |positions| ==> (Needs(groups, positions[j], n) <==> j >= kept)
    ensures StackIs(groups, n + 1, skipped[..kept], positions[..kept])
  {
    hide Known, Opened, Needs, Indexed;
    var after := positions[..kept];
    assert forall h <- after :: h in positions;
    forall h: nat | h < n + 1
      ensures h in after <==> Indexed(groups[h]) && !Opened(groups, h, n + 1)
    {
      OpenedMore(groups, h, n);
      if h < n && h in positions {
        var j: nat :| j < |positions| && positions[j] == h;
        assert j < kept ==> after[j] == h;
        if h in after {
          var k :| 0 <= k < |after| && after[k] == h;
          assert k == j;
        }
      }
    }
  }

  /** At every group the scan knows exactly what the groups before say. */
  lemma {:induction false} ScanIsKnown(groups: seq<Group>, n: nat) returns (positions: seq<nat>)
    requires ValidLayout(groups) && n <= |groups|
    ensures ValidLayout(groups[..n]) && ScanKnows(groups, n, Settled(groups[..n]), positions)
  {
    hide ScanKnows, AddGroup, Unseen, MarkedIn, Indexed;
    assert forall g <- groups[..n] :: g in groups;
    if n == 0 {
      positions := [];
      NothingKnown(groups);
    } else {
      positions := ScanIsKnown(groups, n - 1);
      var s, g := Settled(groups[..n - 1]), groups[n - 1];
      assert groups[..n][..n - 1] == groups[..n - 1];
      assert g in groups && ValidGroup(g);
      if !Indexed(g) {
        PlainStep(groups, n - 1, s, positions);
      } else if Unseen(s.topics, MarkedIn(g)) {
        positions := OpenedStep(groups, n - 1, s, positions);
      } else {
        SkippedStep(groups, n - 1, s, positions);
        positions := positions + [n - 1];
      }
    }
  }

  lemma NothingKnown(groups: seq<Group>)
    ensures ScanKnows(groups, 0, NOTHING, [])
  {
  }

  /** What the scan of a file's groups knows in the end. */
  lemma SettledIsKnown(groups: seq<Group>)
    requires ValidLayout(groups)
    ensures Settled(groups).topics.Keys == Known(groups, |groups|)
  {
    hide Known, Settled;
    var positions := ScanIsKnown(groups, |groups|);
    assert groups[..|groups|] == groups;
  }
}
