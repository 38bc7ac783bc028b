/** Log-time intervals and the saturating arithmetic the timeline is built on. */
module Spans {

  /** Jumps in log time larger than this, in either direction, open a gap. */
  const STEP_GAP_NS: nat := 5_000_000_000

  const U64_MAX: nat := 0xFFFF_FFFF_FFFF_FFFF

  datatype Option<+T> = None | Some(value: T)

  function Abs(x: int): nat {
    if x < 0 then -x else x
  }

  function Min(a: int, b: int): int {
    if a <= b then a else b
  }

  function Max(a: int, b: int): int {
    if a >= b then a else b
  }

  function Clamp(x: int): nat {
    if x < 0 then 0 else if x > U64_MAX then U64_MAX else x
  }

  function SaturatingAdd(a: nat, b: nat): nat {
    if a + b > U64_MAX then U64_MAX else a + b
  }

  function SaturatingSub(a: nat, b: nat): nat {
    if a >= b then a - b else 0
  }

  predicate InU64(x: int) {
    0 <= x <= U64_MAX
  }

  /** The log times from `start` to `end`. The bounds are
      unbounded integers so that a span can also be moved exactly. */
  datatype Span = Span(start: int, end: int) {

    function Len(): nat {
      if end > start then end - start else 0
    }

    /** Moved by `offset`, saturating at the ends of the 64-bit range. */
    function Shifted(offset: int): Span {
      Span(Clamp(start + offset), Clamp(end + offset))
    }

    /** Moved by `offset` exactly. */
    function Moved(offset: int): Span {
      Span(start + offset, end + offset)
    }

    function Merge(other: Span): Span {
      Span(Min(start, other.start), Max(end, other.end))
    }

    predicate Fits() {
      InU64(start) && InU64(end)
    }
  }

  /** The hull of an optional span and a span. */
  function Extent(earlier: Option<Span>, last: Span): Span {
    match earlier
    case None => last
    case Some(e) => e.Merge(last)
  }

  function MergeOption(a: Option<Span>, b: Option<Span>): Option<Span> {
    match b
    case None => a
    case Some(span) => Some(Extent(a, span))
  }

  function MovedOption(a: Option<Span>, offset: int): Option<Span> {
    match a
    case None => None
    case Some(span) => Some(span.Moved(offset))
  }

  function LenOption(a: Option<Span>): nat {
    match a
    case None => 0
    case Some(span) => span.Len()
  }

  /** Total of a sequence of lengths. */
  function Sum(s: seq<nat>): nat {
    if |s| == 0 then 0 else Sum(s[..|s| - 1]) + s[|s| - 1]
  }

  lemma {:induction false} SumUpdate(s: seq<nat>, i: nat, v: nat)
    requires i < |s|
    ensures Sum(s[i := v]) == Sum(s) - s[i] + v
  {
    var n := |s| - 1;
    if i == n {
      assert s[i := v][..n] == s[..n];
    } else {
      assert s[i := v][..n] == s[..n][i := v];
      SumUpdate(s[..n], i, v);
    }
  }

  lemma {:induction false} SumElement(s: seq<nat>, i: nat)
    requires i < |s|
    ensures s[i] <= Sum(s)
  {
    if i < |s| - 1 {
      SumElement(s[..|s| - 1], i);
    }
  }

  lemma {:induction false} SumMonotone(a: seq<nat>, b: seq<nat>)
    requires |a| == |b|
    requires forall i :: 0 <= i < |a| ==> a[i] <= b[i]
    ensures Sum(a) <= Sum(b)
  {
    if |a| > 0 {
      SumMonotone(a[..|a| - 1], b[..|b| - 1]);
    }
  }
}
