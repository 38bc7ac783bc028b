/** What spans alone, in any order, are measured as: a recording lasts as long as its
    pieces together, a piece ending where the log time goes back or, without
    authoritative records, at every large jump. */
module SpanPieces {
  import opened Spans
  import opened Timeline
  import opened Conservation
  import opened StrayExcursion

  // ---------------------------------------------------------------- pieces, told from the spans alone

  /** From the first log time to the last. */
  function Cover(spans: seq<Span>): Span
    requires |spans| > 0
  {
    if |spans| == 1 then spans[0] else Cover(spans[..|spans| - 1]).Merge(spans[|spans| - 1])
  }

  /** The second span starts too far from the end of the first, before or after it. */
  predicate Apart(a: Span, b: Span) {
    b.start > a.end + STEP_GAP_NS || b.start < a.end - STEP_GAP_NS
  }

  /** The second span begins a new piece: with authoritative records, only one that
      goes back in log time does; anything later is a pause. */
  predicate Breaks(authoritative: bool, a: Span, b: Span) {
    Apart(a, b) && (authoritative ==> b.start < a.end)
  }

  /** Where the spans after the latest jump begin; 0 without a jump. */
  function LatestJump(spans: seq<Span>): (jump: nat)
    ensures |spans| > 0 ==> jump < |spans|
  {
    if |spans| < 2 then 0
    else
      var n := |spans| - 1;
      if Apart(spans[n - 1], spans[n]) then n else LatestJump(spans[..n])
  }

  /** Where the last piece begins. */
  function PieceStart(authoritative: bool, spans: seq<Span>): (start: nat)
    ensures |spans| > 0 ==> start <= LatestJump(spans)
    ensures !authoritative ==> start == LatestJump(spans)
  {
    if |spans| < 2 then 0
    else
      var n := |spans| - 1;
      if Breaks(authoritative, spans[n - 1], spans[n]) then n else PieceStart(authoritative, spans[..n])
  }

  /** The pieces' lengths together. */
  function Measured(authoritative: bool, spans: seq<Span>): nat {
    if |spans| == 0 then 0
    else
      var start := PieceStart(authoritative, spans);
      Measured(authoritative, spans[..start]) + Cover(spans[start..]).Len()
  }

  function JumpCount(spans: seq<Span>): nat {
    if |spans| < 2 then 0
    else
      var n := |spans| - 1;
      JumpCount(spans[..n]) + if Apart(spans[n - 1], spans[n]) then 1 else 0
  }

  /** `next` goes back to where the spans were before their latest jump, after a short
      stay elsewhere. */
  predicate ComesBack(spans: seq<Span>, next: Span) {
    |spans| > 0 &&
    var j := LatestJump(spans);
    && j > 0
    && Apart(spans[|spans| - 1], next)
    && Cover(spans[j..]).Len() <= STEP_GAP_NS
    && !Apart(spans[j - 1], next)
  }

  predicate NoneComesBack(spans: seq<Span>) {
    forall k :: 0 <= k < |spans| ==> !ComesBack(spans[..k], spans[k])
  }

  // ---------------------------------------------------------------- one span more

  lemma CoverMore(spans: seq<Span>, next: Span)
    requires |spans| > 0
    ensures Cover(spans + [next]) == Cover(spans).Merge(next)
    ensures Cover(spans).Len() <= Cover(spans + [next]).Len()
  {
    assert (spans + [next])[..|spans|] == spans;
  }

  /** One span more begins a piece of its own or makes the last piece longer. */
  lemma PiecesMore(authoritative: bool, spans: seq<Span>, next: Span)
    requires |spans| > 0
    ensures var more, last := spans + [next], spans[|spans| - 1];
            var start, jump := PieceStart(authoritative, spans), LatestJump(spans);
            && start <= jump < |spans|
            && LatestJump(more) == (if Apart(last, next) then |spans| else jump)
            && PieceStart(authoritative, more) == (if Breaks(authoritative, last, next) then |spans| else start)
            && JumpCount(more) == JumpCount(spans) + (if Apart(last, next) then 1 else 0)
            && (forall k :: 0 <= k < |spans| ==> more[k..] == spans[k..] + [next])
            && (forall k :: 0 <= k <= |spans| ==> more[..k] == spans[..k])
            && more[|spans|..] == [next]
  {
    var more := spans + [next];
    assert more[..|spans|] == spans;
  }

  lemma LastPieceMeasured(authoritative: bool, spans: seq<Span>)
    requires |spans| > 0
    ensures var start := PieceStart(authoritative, spans);
            Measured(authoritative, spans) == Measured(authoritative, spans[..start]) + Cover(spans[start..]).Len()
  {
  }

  lemma MeasuredMore(authoritative: bool, spans: seq<Span>, next: Span)
    requires |spans| > 0
    ensures Measured(authoritative, spans) <= Measured(authoritative, spans + [next])
  {
    var more := spans + [next];
    var start := PieceStart(authoritative, spans);
    PiecesMore(authoritative, spans, next);
    assert more[..|spans|] == spans;
    assert more[start..] == spans[start..] + [next];
    assert more[..start] == spans[..start];
    CoverMore(spans[start..], next);
  }

  // ---------------------------------------------------------------- the accumulator follows the pieces

  /** The jump that the piece beginning at `start` was opened by. */
  function OpenedBy(authoritative: bool, spans: seq<Span>, start: nat): Option<Gap>
    requires start < |spans|
  {
    if start == 0 then None
    else Some(Gap(spans[start].start, spans[start].start - spans[start - 1].end,
                  if authoritative then SplitGap else StepGap))
  }

  /** What holds of the accumulator whatever the latest jump was. */
  predicate Following(s: State, spans: seq<Span>)
    requires |spans| > 0
  {
    var jump := LatestJump(spans);
    && s.last == Some(spans[|spans| - 1]) && s.abandoned == []
    && s.steps == (if s.authoritative then 0 else JumpCount(spans))
    && (s.previous.Some? ==> s.gap.Some? && jump > 0 && s.previous.value.last == spans[jump - 1])
  }

  /** The open segment is the last piece. */
  predicate OnPiece(s: State, spans: seq<Span>)
    requires |spans| > 0
  {
    var start, jump := PieceStart(s.authoritative, spans), LatestJump(spans);
    && s.last.Some? && s.gap == OpenedBy(s.authoritative, spans, start)
    && OpenExtent(s) == Cover(spans[start..])
    && s.total == Measured(s.authoritative, spans[..start])
    && (s.previous.Some? <==> start == jump > 0)
    && (s.previous.Some? ==>
        var p := s.previous.value;
        var before := spans[..start];
        && Extent(p.earlier, p.last) == Cover(before[PieceStart(s.authoritative, before)..])
        && p.duration == Extent(p.earlier, p.last).Len())
    && (start < jump ==> Cover(spans[jump..]).Len() > STEP_GAP_NS)
  }

  /** The open segment is what follows a pause in the last piece. */
  predicate OnPause(s: State, spans: seq<Span>)
    requires |spans| > 0
  {
    var start, jump := PieceStart(s.authoritative, spans), LatestJump(spans);
    && s.last.Some? && s.authoritative && s.previous.Some? && start < jump
    && s.gap == Some(Gap(spans[jump].start, spans[jump].start - spans[jump - 1].end, PauseGap))
    && OpenExtent(s) == Cover(spans[jump..])
    && var p := s.previous.value;
    && p.gap == OpenedBy(true, spans, start)
    && Extent(p.earlier, p.last) == Cover(spans[start..jump])
    && p.duration == Cover(spans[start..jump]).Len()
    && s.total == Measured(true, spans[..start]) + p.duration
  }

  /** What the accumulator is left in by spans none of which comes back. */
  predicate Tracks(s: State, spans: seq<Span>)
    requires |spans| > 0
  {
    && Following(s, spans)
    && (OnPiece(s, spans) || (OnPause(s, spans) && OpenExtent(s).Len() <= STEP_GAP_NS))
  }

  lemma {:induction false} CoverConcat(a: seq<Span>, b: seq<Span>)
    requires |a| > 0 && |b| > 0
    ensures Cover(a + b) == Cover(a).Merge(Cover(b))
  {
    if |b| == 1 {
      CoverMore(a, b[0]);
      assert a + b == a + [b[0]];
    } else {
      var n := |b| - 1;
      CoverConcat(a, b[..n]);
      CoverMore(a + b[..n], b[n]);
      assert a + b == a + b[..n] + [b[n]];
    }
  }

  /** A pause followed by long data is settled. */
  lemma SettledOnPiece(s: State, spans: seq<Span>)
    requires |spans| > 0 && Following(s, spans) && OnPause(s, spans)
    ensures Following(SettlePause(s), spans)
    ensures OpenExtent(s).Len() > STEP_GAP_NS ==> OnPiece(SettlePause(s), spans)
    ensures OpenExtent(SettlePause(s)) == Cover(spans[PieceStart(true, spans)..])
    ensures SettlePause(s).total == Measured(true, spans[..PieceStart(true, spans)])
  {
    hide Measured, JumpCount, LatestJump, PieceStart, Cover;
    SplitCover(spans, PieceStart(true, spans), LatestJump(spans));
  }

  lemma SplitCover(spans: seq<Span>, start: nat, jump: nat)
    requires start < jump < |spans|
    ensures Cover(spans[start..]) == Cover(spans[start..jump]).Merge(Cover(spans[jump..]))
  {
    assert spans[start..] == spans[start..jump] + spans[jump..];
    CoverConcat(spans[start..jump], spans[jump..]);
  }

  lemma SettlesIfLong(s: State, spans: seq<Span>)
    requires |spans| > 0 && Following(s, spans) && (OnPiece(s, spans) || OnPause(s, spans))
    ensures Tracks(SettleIfLong(s), spans)
  {
    if OnPause(s, spans) {
      SettledOnPiece(s, spans);
    }
  }

  lemma TracksFields(s: State, spans: seq<Span>)
    requires |spans| > 0 && Tracks(s, spans)
    ensures s.last == Some(spans[|spans| - 1]) && s.abandoned == []
    ensures s.steps == if s.authoritative then 0 else JumpCount(spans)
  {
  }

  lemma OpenedMore(authoritative: bool, spans: seq<Span>, next: Span, start: nat)
    requires start < |spans|
    ensures OpenedBy(authoritative, spans + [next], start) == OpenedBy(authoritative, spans, start)
  {
  }

  lemma ExtendFollows(s: State, spans: seq<Span>, next: Span)
    requires |spans| > 0 && Tracks(s, spans) && !Apart(spans[|spans| - 1], next)
    ensures Following(Extend(s, next), spans + [next])
    ensures OnPiece(Extend(s, next), spans + [next]) || OnPause(Extend(s, next), spans + [next])
  {
    hide Measured, Cover, PieceStart, LatestJump, JumpCount, OpenedBy;
    var more, start, jump := spans + [next], PieceStart(s.authoritative, spans), LatestJump(spans);
    PiecesMore(s.authoritative, spans, next);
    OpenedMore(s.authoritative, spans, next, start);
    CoverMore(spans[start..], next);
    CoverMore(spans[jump..], next);
    assert OpenExtent(Extend(s, next)) == OpenExtent(s).Merge(next);
    assert more[..start] == spans[..start] && more[start..jump] == spans[start..jump];
  }

  /** A span that goes on from the last one. */
  lemma PushSteady(s: State, spans: seq<Span>, next: Span)
    requires |spans| > 0 && Tracks(s, spans) && !Apart(spans[|spans| - 1], next)
    ensures Tracks(Push(s, next), spans + [next])
  {
    hide Following, OnPiece, OnPause, Cover, Measured, JumpCount, SettlePause, SettleIfLong, Tracks;
    ExtendFollows(s, spans, next);
    TracksFields(s, spans);
    SettlesIfLong(Extend(s, next), spans + [next]);
  }

  /** The segment is closed with the last piece or what there is of it. */
  lemma ClosedPiece(s: State, spans: seq<Span>)
    requires |spans| > 0 && Tracks(s, spans) && Measured(s.authoritative, spans) <= U64_MAX
    ensures var c := Close(SettlePause(s), None);
            && c.total == Measured(s.authoritative, spans)
            && c.last == None && c.earlier == None && c.previous.Some? && c.abandoned == []
            && c.steps == s.steps && c.authoritative == s.authoritative
            && var p := c.previous.value;
            && p.last == spans[|spans| - 1]
            && p.gap == OpenedBy(s.authoritative, spans, PieceStart(s.authoritative, spans))
            && Extent(p.earlier, p.last) == Cover(spans[PieceStart(s.authoritative, spans)..])
            && p.duration == Extent(p.earlier, p.last).Len()
  {
    if OnPause(s, spans) {
      SettledOnPiece(s, spans);
    }
  }

  lemma ReturnsIfBack(s: State, spans: seq<Span>, next: Span)
    requires |spans| > 0 && Tracks(s, spans)
    ensures Jumps(s, next) && ReturnsFromExcursion(s, next) <==> ComesBack(spans, next)
  {
  }

  /** The new segment is the next piece or follows a pause in the same one. */
  lemma JumpOpened(s: State, spans: seq<Span>, next: Span)
    requires |spans| > 0 && Tracks(s, spans) && Apart(spans[|spans| - 1], next)
    requires Measured(s.authoritative, spans) <= U64_MAX
    ensures var more, e := spans + [next], Extend(OpenAfterJump(s, next), next);
            Following(e, more) && (OnPiece(e, more) || OnPause(e, more))
  {
    hide Cover, Measured, JumpCount, LatestJump, PieceStart, Tracks, Close, SettlePause;
    var more, start := spans + [next], PieceStart(s.authoritative, spans);
    PiecesMore(s.authoritative, spans, next);
    ClosedPiece(s, spans);
    TracksFields(s, spans);
    LastPieceMeasured(s.authoritative, spans);
    assert more[start..|spans|] == spans[start..];
    assert more[..|spans|] == spans && more[..start] == spans[..start];
    CoverOne(next);
  }

  lemma CoverOne(next: Span)
    ensures Cover([next]) == next
  {
  }

  /** A span that jumps, and not back to where the spans were before. */
  lemma PushApart(s: State, spans: seq<Span>, next: Span)
    requires |spans| > 0 && Tracks(s, spans) && Apart(spans[|spans| - 1], next) && !ComesBack(spans, next)
    requires Measured(s.authoritative, spans) <= U64_MAX
    ensures Tracks(Push(s, next), spans + [next])
  {
    hide Following, OnPiece, OnPause, Cover, Measured, JumpCount;
    ReturnsIfBack(s, spans, next);
    JumpOpened(s, spans, next);
    TracksFields(s, spans);
    SettlesIfLong(Extend(OpenAfterJump(s, next), next), spans + [next]);
  }

  lemma TracksFirst(authoritative: bool, first: Span)
    ensures Tracks(Push(Fresh(authoritative), first), [first])
  {
  }

  lemma PushTracks(s: State, spans: seq<Span>, next: Span)
    requires |spans| > 0 && Tracks(s, spans) && Measured(s.authoritative, spans) <= U64_MAX
    ensures Push(s, next).authoritative == s.authoritative
    ensures if ComesBack(spans, next) then |Push(s, next).abandoned| > 0 else Tracks(Push(s, next), spans + [next])
  {
    hide Cover, Measured, JumpCount, Tracks;
    if ComesBack(spans, next) {
      ReturnsIfBack(s, spans, next);
    } else if Apart(spans[|spans| - 1], next) {
      PushApart(s, spans, next);
    } else {
      PushSteady(s, spans, next);
    }
  }

  /** Nothing dropped is ever taken up again. */
  lemma DroppedStays(s: State, next: Span)
    ensures |Push(s, next).abandoned| >= |s.abandoned| && Push(s, next).authoritative == s.authoritative
  {
  }

  lemma BackMore(spans: seq<Span>, next: Span)
    ensures NoneComesBack(spans + [next]) <==> NoneComesBack(spans) && !ComesBack(spans, next)
  {
    hide ComesBack;
    var more := spans + [next];
    assert forall k :: 0 <= k <= |spans| ==> more[..k] == spans[..k];
    assert spans[..|spans|] == spans;
    if NoneComesBack(more) {
      assert !ComesBack(more[..|spans|], more[|spans|]);
      forall k | 0 <= k < |spans|
        ensures !ComesBack(spans[..k], spans[k])
      {
        assert !ComesBack(more[..k], more[k]);
      }
    }
  }

  lemma {:induction false} RunTracks(authoritative: bool, spans: seq<Span>)
    requires |spans| > 0 && Measured(authoritative, spans) <= U64_MAX
    ensures var s := PushAll(Fresh(authoritative), spans);
            && s.authoritative == authoritative
            && if NoneComesBack(spans) then Tracks(s, spans) else |s.abandoned| > 0
  {
    hide Tracks, Measured, ComesBack, Push, NoneComesBack;
    var n := |spans| - 1;
    var front, next := spans[..n], spans[n];
    assert front + [next] == spans;
    BackMore(front, next);
    DroppedStays(PushAll(Fresh(authoritative), front), next);
    if n == 0 {
      TracksFirst(authoritative, next);
      OnlyOne(front, next);
      assert PushAll(Fresh(authoritative), front) == Fresh(authoritative);
    } else {
      var s := PushAll(Fresh(authoritative), front);
      MeasuredMore(authoritative, front, next);
      RunTracks(authoritative, front);
      if NoneComesBack(front) {
        PushTracks(s, front, next);
      }
    }
  }

  lemma OnlyOne(none: seq<Span>, next: Span)
    requires none == []
    ensures NoneComesBack(none) && !ComesBack(none, next) && none + [next] == [next]
  {
  }

  /** Spans in any order: unless one comes back, nothing is dropped, the pieces are
      measured and, without authoritative records, every large jump is a step. */
  lemma PiecesAreMeasured(authoritative: bool, spans: seq<Span>)
    requires Measured(authoritative, spans) <= U64_MAX
    ensures PushAll(Fresh(authoritative), spans).abandoned == [] <==> NoneComesBack(spans)
    ensures NoneComesBack(spans) ==>
              Finish(PushAll(Fresh(authoritative), spans))
              == Report(Measured(authoritative, spans), if authoritative then 0 else JumpCount(spans))
  {
    if |spans| > 0 {
      RunTracks(authoritative, spans);
      if NoneComesBack(spans) {
        ClosedPiece(PushAll(Fresh(authoritative), spans), spans);
      }
    }
  }

  lemma {:induction false} PushAllConcat(s: State, a: seq<Span>, b: seq<Span>)
    ensures PushAll(s, a + b) == PushAll(PushAll(s, a), b)
  {
    if |b| == 0 {
      assert a + b == a;
    } else {
      assert (a + b)[..|a + b| - 1] == a + b[..|b| - 1];
      PushAllConcat(s, a, b[..|b| - 1]);
    }
  }

  /** A record can then be about the latest jump or, once the pause there is settled, about
      the one that the piece began with. */
  lemma GapIsPieces(authoritative: bool, spans: seq<Span>)
    requires |spans| > 0 && NoneComesBack(spans) && Measured(authoritative, spans) <= U64_MAX
    ensures var gap, start := PushAll(Fresh(authoritative), spans).gap, PieceStart(authoritative, spans);
            var jump := LatestJump(spans);
            if start < jump && Cover(spans[jump..]).Len() <= STEP_GAP_NS
            then gap == Some(Gap(spans[jump].start, spans[jump].start - spans[jump - 1].end, PauseGap))
            else gap == OpenedBy(authoritative, spans, start)
  {
    hide Tracks, Measured, Cover, PieceStart, LatestJump;
    RunTracks(authoritative, spans);
    TracksGap(PushAll(Fresh(authoritative), spans), spans);
  }

  lemma TracksGap(s: State, spans: seq<Span>)
    requires |spans| > 0 && Tracks(s, spans)
    ensures var start, jump := PieceStart(s.authoritative, spans), LatestJump(spans);
            if start < jump && Cover(spans[jump..]).Len() <= STEP_GAP_NS
            then s.gap == Some(Gap(spans[jump].start, spans[jump].start - spans[jump - 1].end, PauseGap))
            else s.gap == OpenedBy(s.authoritative, spans, start)
  {
    hide Measured, Cover, PieceStart, LatestJump;
  }

  // ---------------------------------------------------------------- stretches that each go back

  /** Spans that follow one another without a jump. */
  predicate Calm(spans: seq<Span>) {
    && (forall i :: 0 <= i < |spans| ==> spans[i].start <= spans[i].end)
    && (forall i :: 0 < i < |spans| ==> Follows(spans, i))
  }

  predicate Follows(spans: seq<Span>, i: nat)
    requires 0 < i < |spans|
  {
    spans[i - 1].end <= spans[i].start <= spans[i - 1].end + STEP_GAP_NS
  }

  /** From the first start to the last end. */
  function Elapsed(spans: seq<Span>): nat {
    if |spans| == 0 then 0 else Span(spans[0].start, spans[|spans| - 1].end).Len()
  }

  function Joined(stretches: seq<seq<Span>>): seq<Span> {
    if |stretches| == 0 then [] else Joined(stretches[..|stretches| - 1]) + stretches[|stretches| - 1]
  }

  function ElapsedTogether(stretches: seq<seq<Span>>): nat {
    if |stretches| == 0 then 0
    else ElapsedTogether(stretches[..|stretches| - 1]) + Elapsed(stretches[|stretches| - 1])
  }

  /** Long calm stretches, each of which starts well before the end of the one before. */
  predicate GoingBack(stretches: seq<seq<Span>>) {
    && (forall b <- stretches :: |b| > 0 && Calm(b) && Elapsed(b) > STEP_GAP_NS)
    && (forall k :: 0 < k < |stretches| ==> StartsBack(stretches, k))
  }

  predicate StartsBack(stretches: seq<seq<Span>>, k: nat)
    requires 0 < k < |stretches| && |stretches[k]| > 0 && |stretches[k - 1]| > 0
  {
    stretches[k][0].start < stretches[k - 1][|stretches[k - 1]| - 1].end - STEP_GAP_NS
  }

  lemma {:induction false} CalmCover(spans: seq<Span>)
    requires |spans| > 0 && Calm(spans)
    ensures Cover(spans) == Span(spans[0].start, spans[|spans| - 1].end)
  {
    if |spans| > 1 {
      var n := |spans| - 1;
      assert Follows(spans, n);
      CalmFront(spans, n);
      CalmCover(spans[..n]);
    }
  }

  lemma CalmFront(spans: seq<Span>, n: nat)
    requires Calm(spans) && 0 < n <= |spans|
    ensures Calm(spans[..n])
  {
    forall i | 0 < i < n
      ensures Follows(spans[..n], i)
    {
      assert Follows(spans, i);
    }
  }

  lemma SteadyStays(spans: seq<Span>, next: Span)
    requires |spans| > 0 && !Apart(spans[|spans| - 1], next)
    ensures !ComesBack(spans, next)
  {
  }

  /** A calm stretch, pushed span by span, jumps at its beginning if at all. */
  lemma {:induction false} StretchTracked(authoritative: bool, before: seq<Span>, b: seq<Span>)
    requires NoneComesBack(before) && |b| > 0 && Calm(b) && !ComesBack(before, b[0])
    ensures NoneComesBack(before + b)
    ensures var first := before + [b[0]];
            && PieceStart(authoritative, before + b) == PieceStart(authoritative, first)
            && LatestJump(before + b) == LatestJump(first)
            && JumpCount(before + b) == JumpCount(first)
  {
    hide Cover, NoneComesBack, PieceStart, LatestJump, JumpCount, ComesBack;
    var n := |b| - 1;
    if n == 0 {
      assert before + b == before + [b[0]];
      BackMore(before, b[0]);
    } else {
      CalmFront(b, n);
      StretchTracked(authoritative, before, b[..n]);
      assert Follows(b, n);
      assert before + b == (before + b[..n]) + [b[n]];
      assert (before + b[..n])[|before| + n - 1] == b[n - 1];
      SteadyStays(before + b[..n], b[n]);
      BackMore(before + b[..n], b[n]);
      PiecesMore(authoritative, before + b[..n], b[n]);
    }
  }

  lemma LastGoesBack(stretches: seq<seq<Span>>)
    requires GoingBack(stretches) && |stretches| > 0
    ensures var n := |stretches| - 1;
            var b := stretches[n];
            && GoingBack(stretches[..n]) && |b| > 0 && Calm(b) && Elapsed(b) > STEP_GAP_NS
            && (n > 0 ==> |stretches[n - 1]| > 0
                          && b[0].start < stretches[n - 1][|stretches[n - 1]| - 1].end - STEP_GAP_NS)
  {
    var n := |stretches| - 1;
    assert stretches[n] in stretches && (n > 0 ==> stretches[n - 1] in stretches && StartsBack(stretches, n));
    forall k | 0 < k < n
      ensures StartsBack(stretches[..n], k)
    {
      assert StartsBack(stretches, k);
    }
  }

  lemma {:induction false} StretchesTracked(stretches: seq<seq<Span>>)
    requires GoingBack(stretches)
    ensures NoneComesBack(Joined(stretches))
    ensures Measured(true, Joined(stretches)) == ElapsedTogether(stretches)
    ensures |stretches| > 0 ==> EndsWith(Joined(stretches), stretches[|stretches| - 1])
  {
    hide NoneComesBack, Measured, EndsWith, Calm, Elapsed, ComesBack, PieceStart, LatestJump, GoingBack;
    if |stretches| > 0 {
      var n := |stretches| - 1;
      var before, b := Joined(stretches[..n]), stretches[n];
      LastGoesBack(stretches);
      StretchesTracked(stretches[..n]);
      if n > 0 {
        LongIsLeft(before, stretches[n - 1], b[0]);
      } else {
        NothingBefore(b[0]);
      }
      StretchTracked(true, before, b);
      StretchStarts(before, b[0]);
      OneStretchMore(before, b);
    } else {
      NothingMeasured();
    }
  }

  lemma NothingMeasured()
    ensures NoneComesBack([]) && Measured(true, []) == 0
  {
  }

  /** The spans end with a long stretch that nothing has followed. */
  predicate EndsWith(spans: seq<Span>, b: seq<Span>) {
    && |b| > 0 && |spans| > 0 && spans[|spans| - 1] == b[|b| - 1]
    && Cover(spans[LatestJump(spans)..]).Len() > STEP_GAP_NS
  }

  lemma LongIsLeft(before: seq<Span>, b: seq<Span>, next: Span)
    requires EndsWith(before, b)
    ensures |before| > 0 && before[|before| - 1] == b[|b| - 1] && !ComesBack(before, next)
  {
  }

  lemma StretchStarts(before: seq<Span>, first: Span)
    requires |before| > 0 ==> first.start < before[|before| - 1].end - STEP_GAP_NS
    ensures PieceStart(true, before + [first]) == LatestJump(before + [first]) == |before|
  {
    if |before| > 0 {
      PiecesMore(true, before, first);
    }
  }

  lemma NothingBefore(next: Span)
    ensures NoneComesBack([]) && !ComesBack([], next)
  {
  }

  lemma OneStretchMore(before: seq<Span>, b: seq<Span>)
    requires |b| > 0 && Calm(b) && Elapsed(b) > STEP_GAP_NS
    requires PieceStart(true, before + b) == LatestJump(before + b) == |before|
    ensures Measured(true, before + b) == Measured(true, before) + Elapsed(b)
    ensures EndsWith(before + b, b)
  {
    CalmCover(b);
    assert (before + b)[|before|..] == b && (before + b)[..|before|] == before;
  }

  /** With authoritative records, long calm stretches that each go back last as long as
      they do together, and going back is no step. */
  lemma StretchesAddUp(stretches: seq<seq<Span>>)
    requires GoingBack(stretches) && ElapsedTogether(stretches) <= U64_MAX
    ensures Finish(PushAll(Fresh(true), Joined(stretches))) == Report(ElapsedTogether(stretches), 0)
  {
    StretchesTracked(stretches);
    PiecesAreMeasured(true, Joined(stretches));
  }

  /** A stretch with a pause near its beginning can be taken for one that comes back. */
  lemma ShortStartComesBack()
    ensures var s := 1_000_000_000;
            var spans := [Span(100 * s, 110 * s), Span(50 * s, 52 * s), Span(108 * s, 120 * s)];
            && ComesBack(spans[..2], spans[2])
            && Finish(PushAll(Fresh(true), spans)) == Report(20 * s, 0)
  {
    var s := 1_000_000_000;
    var spans := [Span(100 * s, 110 * s), Span(50 * s, 52 * s), Span(108 * s, 120 * s)];
    assert spans[..2][..1] == [spans[0]] && spans[..1][..0] == [] && spans[..2][1..] == [spans[1]];
    assert spans[..3][..2] == spans[..2] && spans[..2][..1] == spans[..1];
    assert PushAll(Fresh(true), spans[..0]) == Fresh(true);
    var a := PushAll(Fresh(true), spans[..1]);
    var b := PushAll(Fresh(true), spans[..2]);
    var c := PushAll(Fresh(true), spans);
    assert a == Push(Fresh(true), spans[0]);
    assert b == Push(a, spans[1]);
    assert c == Push(b, spans[2]);
  }
}
