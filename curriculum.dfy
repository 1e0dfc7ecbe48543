/** The curriculum scheduler of `SokobanEnv.reset`: a five-phase state
    machine driven by a rolling buffer of episode outcomes (1 solved, 0 not),
    and the map-index range each phase draws from. */
module Curriculum {

  const WINDOW: int := 30
  const LAST_PHASE: int := 4

  function Sum(s: seq<int>): int
  {
    if s == [] then 0 else s[0] + Sum(s[1..])
  }

  /** The success rate is at least 0.6, compared without division. */
  predicate RateAtLeastAdvance(buf: seq<int>)
  {
    5 * Sum(buf) >= 3 * |buf|
  }

  /** The success rate is below 0.25, compared without division. */
  predicate RateBelowRegress(buf: seq<int>)
  {
    4 * Sum(buf) < |buf|
  }

  /** The cross-multiplied comparisons are the rate comparisons of the source. */
  lemma RateComparisons(buf: seq<int>)
    requires |buf| > 0
    ensures RateAtLeastAdvance(buf) <==> Sum(buf) as real / |buf| as real >= 0.6
    ensures RateBelowRegress(buf) <==> Sum(buf) as real / |buf| as real < 0.25
  {
    var n := |buf| as real;
    var sum := Sum(buf) as real;
    assert RateAtLeastAdvance(buf) <==> 5.0 * sum >= 3.0 * n;
    assert RateBelowRegress(buf) <==> 4.0 * sum < n;
    DivideCompare(sum, n, 0.6);
    DivideCompare(sum, n, 0.25);
  }

  /** For a positive n, sum / n >= c exactly when sum >= c * n. */
  lemma DivideCompare(sum: real, n: real, c: real)
    requires n > 0.0
    ensures sum / n >= c <==> sum >= c * n
  {
    var q := sum / n;
    assert q * n == sum;
    assert sum - c * n == (q - c) * n;
    if q >= c {
      assert (q - c) * n >= 0.0;
    } else {
      assert (c - q) * n > 0.0;
    }
  }

  datatype Schedule = Schedule(phase: int, buffer: seq<int>)

  /** The curriculum step at the start of `reset`. Once the buffer holds a
      full window, a rate of at least 0.6 advances a phase below the last and
      a rate below 0.25 regresses a phase above the first, each clearing the
      buffer; a buffer longer than two windows then keeps its last window. */
  function Update(s: Schedule): Schedule
  {
    if |s.buffer| >= WINDOW then
      var moved :=
        if RateAtLeastAdvance(s.buffer) then
          (if s.phase < LAST_PHASE then Schedule(s.phase + 1, []) else s)
        else if RateBelowRegress(s.buffer) && s.phase > 0 then Schedule(s.phase - 1, [])
        else s;
      if |moved.buffer| > 2 * WINDOW then moved.(buffer := moved.buffer[|moved.buffer| - WINDOW..]) else moved
    else s
  }

  /** The phase stays within 0..4 and moves by at most one, a phase change
      clears the buffer, and the buffer is never longer than two windows
      afterwards. */
  lemma UpdateBounds(s: Schedule)
    requires 0 <= s.phase <= LAST_PHASE
    ensures var r := Update(s);
      && 0 <= r.phase <= LAST_PHASE
      && s.phase - 1 <= r.phase <= s.phase + 1
      && (r.phase != s.phase ==> r.buffer == [])
      && |r.buffer| <= 2 * WINDOW
  {
  }

  /** When the phase advances and when it regresses. */
  lemma UpdateTransitions(s: Schedule)
    requires 0 <= s.phase <= LAST_PHASE
    ensures Update(s).phase == s.phase + 1
        <==> |s.buffer| >= WINDOW && RateAtLeastAdvance(s.buffer) && s.phase < LAST_PHASE
    ensures Update(s).phase == s.phase - 1
        <==> |s.buffer| >= WINDOW && !RateAtLeastAdvance(s.buffer) && RateBelowRegress(s.buffer) && s.phase > 0
    ensures |s.buffer| < WINDOW ==> Update(s) == s
  {
  }

  function Repeat(v: int, n: nat): (r: seq<int>)
    ensures |r| == n && forall i :: 0 <= i < n ==> r[i] == v
  {
    if n == 0 then [] else [v] + Repeat(v, n - 1)
  }

  lemma {:induction false} SumAppend(a: seq<int>, b: seq<int>)
    ensures Sum(a + b) == Sum(a) + Sum(b)
  {
    if a != [] {
      assert (a + b)[1..] == a[1..] + b;
      SumAppend(a[1..], b);
    } else {
      assert a + b == b;
    }
  }

  lemma {:induction false} SumRepeat(v: int, n: nat)
    ensures Sum(Repeat(v, n)) == v * n
  {
    if n > 0 {
      assert Repeat(v, n)[1..] == Repeat(v, n - 1);
      SumRepeat(v, n - 1);
    }
  }

  /** Eighteen successes in a window of thirty are exactly the 0.6 rate and
      advance the first phase. */
  lemma AdvanceAtThreshold()
    ensures Update(Schedule(0, Repeat(1, 18) + Repeat(0, 12))) == Schedule(1, [])
  {
    SumAppend(Repeat(1, 18), Repeat(0, 12));
    SumRepeat(1, 18);
    SumRepeat(0, 12);
  }

  /** `max(0, min(phase, 4))`. */
  function ClampPhase(phase: int): (p: int)
    ensures 0 <= p <= LAST_PHASE
    ensures 0 <= phase <= LAST_PHASE ==> p == phase
  {
    if phase < 0 then 0 else if phase > LAST_PHASE then LAST_PHASE else phase
  }

  /** The half-open index range `reset` draws a map from, for `n` maps. */
  function MapRange(n: nat, phase: int): (int, int)
  {
    var ranges := [(0, 1), (1, 3), (3, 5), (5, 7), (7, n)];
    var r := ranges[ClampPhase(phase)];
    var hi := if r.0 >= r.1 then r.0 + 1 else r.1;
    (r.0, if hi < n then hi else n)
  }

  /** The draw has a map to choose exactly when the phase's first index is a
      map; the range never reaches past the map list. */
  lemma MapRangeNonEmpty(n: nat, phase: int)
    ensures MapRange(n, phase).0 < MapRange(n, phase).1 <==> MapRange(n, phase).0 < n
    ensures MapRange(n, phase).1 <= n
  {
  }

  /** With at least eight maps the five ranges are non-empty and tile 0 .. n-1
      in phase order. */
  lemma MapRangesTile(n: nat)
    requires n >= 8
    ensures MapRange(n, 0).0 == 0 && MapRange(n, LAST_PHASE).1 == n
    ensures forall p :: 0 <= p < LAST_PHASE ==> MapRange(n, p).1 == MapRange(n, p + 1).0
    ensures forall p :: 0 <= p <= LAST_PHASE ==> MapRange(n, p).0 < MapRange(n, p).1
  {
  }

  /** The step limit of an episode: 100, 150 in phases 2 and 3, 200 in phase 4. */
  function MaxSteps(phase: int): (m: int)
    ensures m == 100 || m == 150 || m == 200
    ensures m == 200 <==> phase == 4
  {
    if phase == 2 || phase == 3 then 150 else if phase == 4 then 200 else 100
  }
}
