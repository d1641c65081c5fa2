/** `OSUtils::now()` as scripts/patch-lwip-switch-thread.py injects it on Switch: a wall-clock reading taken
    once, advanced from then on by the hardware tick counter alone. */
module SwitchClock {

  const TWO64 := 0x1_0000_0000_0000_0000
  const NS_PER_MS := 1000000

  /** One call's view of the outside: the wall clock (seconds and microseconds) if it is read, and the two
      possible readings of the tick counter, in the order they are taken. */
  datatype Reading = Reading(sec: int, usec: int, tick0: int, tick1: int)

  function WallMs(r: Reading): int {
    1000 * r.sec + r.usec / 1000
  }

  /** `armTicksToNs` on a 64-bit unsigned argument: the product wraps before the division. */
  function TicksToNs(ticks: int): int {
    ((ticks * 625) % TWO64) / 12
  }

  /** Unsigned 64-bit difference of two tick readings. */
  function Elapsed(now: int, baseline: int): int {
    (now - baseline) % TWO64
  }

  datatype State = State(wallBase: int, tickBase: int)

  /** One call: the new static state and the result. A zero tick baseline counts as "not taken yet". */
  function Call(s: State, r: Reading): (State, int) {
    var s1 := if s.tickBase == 0 then State(WallMs(r), r.tick0) else s;
    (s1, s1.wallBase + TicksToNs(Elapsed(r.tick1, s1.tickBase)) / NS_PER_MS)
  }

  /** The function with its two static variables. */
  class Clock {
    var wallBase: int
    var tickBase: int

    constructor ()
      ensures Statics() == State(0, 0)
    {
      wallBase := 0;
      tickBase := 0;
    }

    ghost function Statics(): State
      reads this
    {
      State(wallBase, tickBase)
    }

    method Now(r: Reading) returns (ms: int)
      modifies this
      ensures (Statics(), ms) == Call(old(Statics()), r)
    {
      if tickBase == 0 {
        wallBase := 1000 * r.sec + r.usec / 1000;
        tickBase := r.tick0;
      }
      var monotonicNow := r.tick1;
      var elapsedMs := TicksToNs(Elapsed(monotonicNow, tickBase)) / NS_PER_MS;
      ms := wallBase + elapsedMs;
    }
  }

  // ---------------------------------------------------------------- the arithmetic

  /** The wall clock in whole milliseconds, rounded down. */
  lemma WallInMs(r: Reading)
    ensures 1000 * WallMs(r) <= 1000000 * r.sec + r.usec < 1000 * WallMs(r) + 1000
  {
  }

  /** Ticks of 19.2 MHz in whole nanoseconds, rounded down, while the product fits. */
  lemma TicksInNs(ticks: nat)
    requires ticks * 625 < TWO64
    ensures 19200000 * TicksToNs(ticks) <= 1000000000 * ticks < 19200000 * (TicksToNs(ticks) + 1)
  {
  }

  /** The two truncating divisions, and the product before them, come to one division by 19200 as long as
      the product does not wrap. */
  lemma OneDivision(delta: nat)
    requires delta * 625 < TWO64
    ensures TicksToNs(delta) / NS_PER_MS == delta / 19200
  {
    assert (delta * 625) % TWO64 == delta * 625;
  }

  // ---------------------------------------------------------------- runs

  /** The statics before call `k` of a run. */
  function Before(rs: seq<Reading>, k: nat): State
    requires k <= |rs|
  {
    if k == 0 then State(0, 0) else Call(Before(rs, k - 1), rs[k - 1]).0
  }

  function Returned(rs: seq<Reading>, k: nat): int
    requires k < |rs|
  {
    Call(Before(rs, k), rs[k]).1
  }

  /** The tick counter is a rising 64-bit counter; the wall clock may read anything at any call. */
  ghost predicate Ticking(rs: seq<Reading>) {
    && (forall k :: 0 <= k < |rs| ==> 0 <= rs[k].tick0 <= rs[k].tick1 < TWO64)
    && (forall j, k :: 0 <= j < k < |rs| ==> rs[j].tick1 <= rs[k].tick1)
  }

  /** Call `m` is the first that is offered a nonzero tick baseline. */
  predicate FirstNonzero(rs: seq<Reading>, m: nat) {
    m < |rs| && rs[m].tick0 != 0 && forall j :: 0 <= j < m ==> rs[j].tick0 == 0
  }

  lemma {:induction false} BaselineMissing(rs: seq<Reading>, k: nat)
    requires k <= |rs| && forall j :: 0 <= j < k ==> rs[j].tick0 == 0
    ensures Before(rs, k).tickBase == 0
  {
    if k > 0 {
      BaselineMissing(rs, k - 1);
    }
  }

  lemma {:induction false} BaselineStays(rs: seq<Reading>, m: nat, k: nat)
    requires FirstNonzero(rs, m) && m < k <= |rs|
    ensures Before(rs, k) == State(WallMs(rs[m]), rs[m].tick0)
  {
    if k == m + 1 {
      BaselineMissing(rs, m);
    } else {
      BaselineStays(rs, m, k - 1);
    }
  }

  /** From the first call with a nonzero tick baseline on, every call returns that call's wall-clock reading plus the
      ticks since then over 19200, rounded down, as long as that many ticks times 625 fit 64 bits: later
      wall-clock readings play no part. */
  lemma ClockValue(rs: seq<Reading>, m: nat, k: nat)
    requires Ticking(rs) && FirstNonzero(rs, m) && m <= k < |rs|
    requires (rs[k].tick1 - rs[m].tick0) * 625 < TWO64
    ensures Returned(rs, k) == WallMs(rs[m]) + (rs[k].tick1 - rs[m].tick0) / 19200
  {
    if k == m {
      BaselineMissing(rs, m);
    } else {
      BaselineStays(rs, m, k);
    }
    assert rs[m].tick0 <= rs[m].tick1 <= rs[k].tick1;
    var delta := rs[k].tick1 - rs[m].tick0;
    assert Elapsed(rs[k].tick1, rs[m].tick0) == delta;
    OneDivision(delta);
  }

  /** Every call before that follows the wall clock: it returns its own reading plus all ticks so far over 19200. */
  lemma ClockBefore(rs: seq<Reading>, k: nat)
    requires Ticking(rs) && k < |rs| && forall j :: 0 <= j <= k ==> rs[j].tick0 == 0
    requires rs[k].tick1 * 625 < TWO64
    ensures Returned(rs, k) == WallMs(rs[k]) + rs[k].tick1 / 19200
  {
    BaselineMissing(rs, k);
    ZeroBaseline(Before(rs, k), rs[k]);
  }

  lemma ZeroBaseline(s: State, r: Reading)
    requires s.tickBase == 0 == r.tick0 && 0 <= r.tick1 < TWO64 && r.tick1 * 625 < TWO64
    ensures Call(s, r).1 == WallMs(r) + r.tick1 / 19200
  {
    OneDivision(r.tick1);
    assert Elapsed(r.tick1, 0) == r.tick1;
  }

  /** From then on the clock never goes back, whatever the wall clock does. */
  lemma ClockIsMonotonic(rs: seq<Reading>, m: nat, j: nat, k: nat)
    requires Ticking(rs) && FirstNonzero(rs, m) && m <= j <= k < |rs|
    requires (rs[k].tick1 - rs[m].tick0) * 625 < TWO64
    ensures Returned(rs, j) <= Returned(rs, k)
  {
    assert j < k ==> rs[j].tick1 <= rs[k].tick1;
    ClockValue(rs, m, j);
    ClockValue(rs, m, k);
    Rises(rs[j].tick1 - rs[m].tick0, rs[k].tick1 - rs[m].tick0);
  }

  lemma Rises(a: int, b: int)
    requires a <= b
    ensures a / 19200 <= b / 19200
  {
  }

  ghost predicate NeverFalls(rs: seq<Reading>) {
    forall j, k :: 0 <= j <= k < |rs| ==> Returned(rs, j) <= Returned(rs, k)
  }

  /** The same ticks at every call; the wall clock may differ. */
  ghost predicate SameTicks(rs: seq<Reading>, ws: seq<Reading>) {
    |ws| == |rs| && forall k :: 0 <= k < |rs| ==> ws[k].tick0 == rs[k].tick0 && ws[k].tick1 == rs[k].tick1
  }

  /** `rs` with the wall clock set back by `ms` milliseconds at the second call. */
  function SetBack(rs: seq<Reading>, ms: nat): seq<Reading>
    requires |rs| >= 2
  {
    rs[1 := rs[1].(sec := (WallMs(rs[0]) - ms) / 1000 - 1, usec := 0)]
  }

  lemma SetBackReading(rs: seq<Reading>, ms: nat)
    requires |rs| >= 2
    ensures SameTicks(rs, SetBack(rs, ms)) && SetBack(rs, ms)[0] == rs[0]
    ensures WallMs(SetBack(rs, ms)[1]) < WallMs(rs[0]) - ms
  {
  }

  /** With a zero first tick reading the second call takes the wall clock again, and follows it back. */
  lemma ZeroTickFollowsWall(rs: seq<Reading>)
    requires Ticking(rs) && |rs| >= 2 && rs[0].tick0 == 0 && rs[|rs| - 1].tick1 * 625 < TWO64
    ensures !NeverFalls(SetBack(rs, rs[1].tick1))
  {
    var ws := SetBack(rs, rs[1].tick1);
    SetBackReading(rs, rs[1].tick1);
    assert rs[0].tick1 <= rs[1].tick1 <= rs[|rs| - 1].tick1;
    ClockBefore(ws, 0);
    if ws[1].tick0 == 0 {
      ClockBefore(ws, 1);
    } else {
      ClockValue(ws, 1, 1);
    }
    assert Returned(ws, 1) < Returned(ws, 0);
  }

  /** The exact condition: over a run of at least two calls whose ticks times 625 fit 64 bits, the clock never goes
      back whatever the wall clock reads, if and only if the very first tick reading is not zero. */
  lemma MonotonicIffFirstTick(rs: seq<Reading>)
    requires Ticking(rs) && |rs| >= 2 && (rs[|rs| - 1].tick1 - rs[0].tick0) * 625 < TWO64
    ensures (forall ws :: SameTicks(rs, ws) ==> NeverFalls(ws)) <==> rs[0].tick0 != 0
  {
    if rs[0].tick0 == 0 {
      ZeroTickFollowsWall(rs);
      SetBackReading(rs, rs[1].tick1);
    } else {
      forall ws, j, k | SameTicks(rs, ws) && 0 <= j <= k < |ws|
        ensures Returned(ws, j) <= Returned(ws, k)
      {
        assert k < |rs| - 1 ==> rs[k].tick1 <= rs[|rs| - 1].tick1;
        ClockIsMonotonic(ws, 0, j, k);
      }
    }
  }

  /** Milliseconds the counter adds for a given number of ticks. */
  function AddedMs(delta: nat): int {
    TicksToNs(delta) / NS_PER_MS
  }

  /** The bound is exact: the added time never falls over a span of `span` ticks if and only if the span
      times 625 fits 64 bits. */
  lemma MonotonicIffNoWrap(span: nat)
    requires span < TWO64
    ensures (forall a, b :: 0 <= a <= b <= span ==> AddedMs(a) <= AddedMs(b)) <==> span * 625 < TWO64
  {
    if span * 625 < TWO64 {
      forall a, b | 0 <= a <= b <= span
        ensures AddedMs(a) <= AddedMs(b)
      {
        OneDivision(a);
        OneDivision(b);
      }
    } else {
      WrapFalls();
      assert WRAP <= span;
    }
  }

  /** The first number of ticks whose product with 625 wraps. */
  const WRAP := 29514790517935283

  lemma WrapFalls()
    ensures AddedMs(WRAP - 1) == 1537228672809 && AddedMs(WRAP) == 0
  {
    OneDivision(WRAP - 1);
    assert WRAP * 625 == TWO64 + 259;
  }

  /** A run that has its tick baseline from the first call on and ends within `span` ticks of it. */
  ghost predicate Within(rs: seq<Reading>, span: nat) {
    Ticking(rs) && |rs| > 0 && rs[0].tick0 != 0 && rs[|rs| - 1].tick1 - rs[0].tick0 <= span
  }

  lemma ReturnedSince(rs: seq<Reading>, m: nat, k: nat, ticks: nat)
    requires FirstNonzero(rs, m) && m < k < |rs| && Elapsed(rs[k].tick1, rs[m].tick0) == ticks
    ensures Returned(rs, k) == WallMs(rs[m]) + AddedMs(ticks)
  {
    BaselineStays(rs, m, k);
  }

  lemma ElapsedSince(base: int, ticks: int)
    requires 0 <= ticks < TWO64
    ensures Elapsed(base + ticks, base) == ticks
  {
  }

  /** Three calls, at the baseline and `c - 1` and `c` ticks after it. */
  lemma ThreeCalls(c: nat) returns (rs: seq<Reading>)
    requires 0 < c < TWO64 - 1
    ensures Within(rs, c) && FirstNonzero(rs, 0) && |rs| == 3 && rs[2].tick1 == rs[1].tick1 + 1
    ensures Elapsed(rs[1].tick1, rs[0].tick0) == c - 1 && Elapsed(rs[2].tick1, rs[0].tick0) == c
  {
    rs := [Reading(0, 0, 1, 1), Reading(0, 0, 1, c), Reading(0, 0, 1, c + 1)];
    ElapsedSince(1, c - 1);
    ElapsedSince(1, c);
  }

  lemma Falls(rs: seq<Reading>)
    requires |rs| == 3 && FirstNonzero(rs, 0)
    requires Elapsed(rs[1].tick1, rs[0].tick0) == WRAP - 1 && Elapsed(rs[2].tick1, rs[0].tick0) == WRAP
    ensures Returned(rs, 1) == Returned(rs, 2) + 1537228672809
  {
    WrapFalls();
    ReturnedSince(rs, 0, 1, WRAP - 1);
    ReturnedSince(rs, 0, 2, WRAP);
  }

  /** Past the wrap there is a run that falls back by 1537228672809 milliseconds, some 48 years, from one tick to the
      next. */
  lemma PastTheWrapFalls() returns (rs: seq<Reading>)
    ensures Within(rs, WRAP) && |rs| == 3 && rs[2].tick1 == rs[1].tick1 + 1
    ensures Returned(rs, 1) == Returned(rs, 2) + 1537228672809
  {
    rs := ThreeCalls(WRAP);
    Falls(rs);
  }

  /** The clock never goes back in any run within `span` ticks of its baseline if and only if `span` times 625 fits
      64 bits. */
  lemma RunsMonotonicIffNoWrap(span: nat)
    requires span < TWO64
    ensures (forall rs :: Within(rs, span) ==> NeverFalls(rs)) <==> span * 625 < TWO64
  {
    if span * 625 < TWO64 {
      forall rs: seq<Reading>, j, k | Within(rs, span) && 0 <= j <= k < |rs|
        ensures Returned(rs, j) <= Returned(rs, k)
      {
        assert k < |rs| - 1 ==> rs[k].tick1 <= rs[|rs| - 1].tick1;
        ClockIsMonotonic(rs, 0, j, k);
      }
    } else {
      var rs := PastTheWrapFalls();
      assert WRAP <= span;
      assert Within(rs, span);
    }
  }

  /** Nothing overflows a signed 64-bit result while the wall clock stays below 2^62 milliseconds. */
  lemma ResultFitsInt64(s: State, r: Reading)
    requires -0x4000_0000_0000_0000 <= s.wallBase <= 0x4000_0000_0000_0000
    requires -0x4000_0000_0000_0000 <= WallMs(r) <= 0x4000_0000_0000_0000
    ensures -0x8000_0000_0000_0000 <= Call(s, r).1 < 0x8000_0000_0000_0000
  {
    var s1 := Call(s, r).0;
    var ns := TicksToNs(Elapsed(r.tick1, s1.tickBase));
    assert 0 <= ns < TWO64;
  }
}
