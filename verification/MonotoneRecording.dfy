/** Recordings whose spans are in order and carry no records are measured exactly. */
module MonotoneRecording {
  import opened Spans
  import opened Timeline
  import opened Conservation
  import opened StrayExcursion
  import opened SpanPieces

  predicate InOrder(spans: seq<Span>) {
    && (forall i :: 0 <= i < |spans| ==> spans[i].Fits() && spans[i].start <= spans[i].end)
    && (forall i :: 0 < i < |spans| ==> Continues(spans, i))
  }

  predicate Continues(spans: seq<Span>, i: nat)
    requires 0 < i < |spans|
  {
    spans[i - 1].end <= spans[i].start
  }

  /** The spans' total time from first start to last end. */
  function Lasting(spans: seq<Span>): nat
    requires InOrder(spans) && |spans| > 0
  {
    StartsBefore(spans, |spans| - 1);
    spans[|spans| - 1].end - spans[0].start
  }

  /** The jump before the last span, when it is larger than the gap threshold. */
  function LastJump(spans: seq<Span>): nat {
    if |spans| < 2 then 0
    else
      var jump := spans[|spans| - 1].start - spans[|spans| - 2].end;
      if jump > STEP_GAP_NS then jump else 0
  }

  /** The time and number of all jumps larger than the gap threshold. */
  function LargeJumps(spans: seq<Span>): (nat, nat) {
    if |spans| == 0 then (0, 0)
    else
      var before := LargeJumps(spans[..|spans| - 1]);
      var jump := LastJump(spans);
      (before.0 + jump, if jump > 0 then before.1 + 1 else before.1)
  }

  lemma StartsBefore(spans: seq<Span>, i: nat)
    requires InOrder(spans) && i < |spans|
    ensures spans[0].start <= spans[i].start
  {
    if i > 0 {
      assert Continues(spans, i);
      StartsBefore(spans, i - 1);
    }
  }

  lemma OrderedPrefix(spans: seq<Span>, n: nat)
    requires InOrder(spans) && 0 < n < |spans|
    ensures InOrder(spans[..n]) && Continues(spans, n)
  {
    forall i | 0 < i < n
      ensures Continues(spans[..n], i)
    {
      assert Continues(spans, i);
    }
  }

  /** In-order spans never go back: they are one piece but for large jumps without
      authoritative records. */
  lemma {:induction false} InOrderPieces(spans: seq<Span>)
    requires InOrder(spans) && |spans| > 0
    ensures NoneComesBack(spans) && PieceStart(true, spans) == 0
    ensures Cover(spans) == Span(spans[0].start, spans[|spans| - 1].end)
    ensures LargeJumps(spans).1 == JumpCount(spans)
  {
    hide Cover, NoneComesBack, ComesBack, JumpCount, LatestJump;
    var n := |spans| - 1;
    if n == 0 {
      OneInOrder(spans);
    } else {
      OrderedPrefix(spans, n);
      StartsBefore(spans, n);
      StartsBefore(spans, n - 1);
      InOrderPieces(spans[..n]);
      NeverBack(spans, n);
      assert spans[..n] + [spans[n]] == spans;
      BackMore(spans[..n], spans[n]);
      PiecesMore(true, spans[..n], spans[n]);
      CoverMore(spans[..n], spans[n]);
    }
  }

  lemma OneInOrder(spans: seq<Span>)
    requires |spans| == 1
    ensures NoneComesBack(spans) && Cover(spans) == spans[0] && LargeJumps(spans).1 == JumpCount(spans)
  {
    assert spans[..0] == [];
  }

  lemma NeverBack(spans: seq<Span>, n: nat)
    requires InOrder(spans) && 0 < n < |spans|
    ensures !ComesBack(spans[..n], spans[n])
  {
    var j := LatestJump(spans[..n]);
    if j > 0 {
      LatestJumps(spans[..n]);
      assert Continues(spans, j);
      Later(spans, j, n);
    }
  }

  lemma {:induction false} LatestJumps(spans: seq<Span>)
    requires |spans| > 0
    ensures var j := LatestJump(spans); j > 0 ==> Apart(spans[j - 1], spans[j])
  {
    if |spans| > 1 {
      LatestJumps(spans[..|spans| - 1]);
    }
  }

  lemma {:induction false} Later(spans: seq<Span>, j: nat, n: nat)
    requires InOrder(spans) && j <= n < |spans|
    ensures spans[j].start <= spans[n].start
  {
    if j < n {
      assert Continues(spans, n);
      Later(spans, j, n - 1);
    }
  }

  /** With authoritative records, a recording in order lasts from its first
      start to its last end, however long or many the pauses in it. */
  lemma {:induction false} PausesCount(spans: seq<Span>)
    requires InOrder(spans) && |spans| > 0
    ensures Finish(PushAll(Fresh(true), spans)) == Report(Lasting(spans), 0)
  {
    InOrderPieces(spans);
    assert spans[0..] == spans && spans[..0] == [];
    NothingMeasured();
    StartsBefore(spans, |spans| - 1);
    PiecesAreMeasured(true, spans);
  }

  /** How much longer one span more makes the pieces between the jumps. */
  lemma MeasuredNext(spans: seq<Span>, n: nat)
    requires InOrder(spans) && 0 < n == |spans| - 1
    ensures Measured(false, spans) == Measured(false, spans[..n]) + spans[n].end
              - if Apart(spans[n - 1], spans[n]) then spans[n].start else spans[n - 1].end
  {
    hide Measured, PieceStart, LatestJump, Cover, NoneComesBack, JumpCount;
    var front, next := spans[..n], spans[n];
    var start := PieceStart(false, front);
    OrderedPrefix(spans, n);
    assert front + [next] == spans;
    PiecesMore(false, front, next);
    LastPieceMeasured(false, front);
    LastPieceMeasured(false, spans);
    if !Apart(spans[n - 1], next) {
      OrderedSuffix(front, start);
      InOrderPieces(front[start..]);
      StartsBefore(front[start..], n - start - 1);
      CoverMore(front[start..], next);
    } else {
      CoverOne(next);
    }
  }

  lemma OrderedSuffix(spans: seq<Span>, n: nat)
    requires InOrder(spans) && n < |spans|
    ensures InOrder(spans[n..])
  {
    forall i | 0 < i < |spans[n..]|
      ensures Continues(spans[n..], i)
    {
      assert Continues(spans, n + i);
    }
  }

  lemma {:induction false} JumpsLeftOut(spans: seq<Span>)
    requires InOrder(spans) && |spans| > 0
    ensures Measured(false, spans) + LargeJumps(spans).0 == Lasting(spans)
  {
    hide Measured, Apart;
    var n := |spans| - 1;
    if n == 0 {
      JumpsOfOne(spans);
    } else {
      OrderedPrefix(spans, n);
      JumpsLeftOut(spans[..n]);
      MeasuredNext(spans, n);
      LastIsApart(spans, n);
    }
  }

  lemma LastIsApart(spans: seq<Span>, n: nat)
    requires InOrder(spans) && 0 < n == |spans| - 1
    ensures Apart(spans[n - 1], spans[n]) <==> LastJump(spans) > 0
    ensures Apart(spans[n - 1], spans[n]) ==> LastJump(spans) == spans[n].start - spans[n - 1].end
  {
    assert Continues(spans, n);
  }

  lemma JumpsOfOne(spans: seq<Span>)
    requires InOrder(spans) && |spans| == 1
    ensures Measured(false, spans) + LargeJumps(spans).0 == Lasting(spans)
  {
    assert spans[..0] == [] && spans[0..] == spans;
    NothingMeasured();
  }

  /** Without authoritative records, a recording in order lasts as long less
      its large jumps, each of which is reported as a step. */
  lemma {:induction false} LargeJumpsAreSteps(spans: seq<Span>)
    requires InOrder(spans) && |spans| > 0
    ensures Lasting(spans) >= LargeJumps(spans).0
    ensures Finish(PushAll(Fresh(false), spans)) == Report(Lasting(spans) - LargeJumps(spans).0, LargeJumps(spans).1)
  {
    InOrderPieces(spans);
    JumpsLeftOut(spans);
    PiecesAreMeasured(false, spans);
  }
}
