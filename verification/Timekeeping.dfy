/**
  Time values and slice statistics of the thread library (scheduler/gthr.c).

  A `timeval` is a pair of seconds and microseconds.  Seconds are unbounded and may be
  negative (the wall clock can be set back); microseconds are kept in [0, 1000000).
  `double` is modelled by `real`, so the running mean and variance are exact.
 */
module Timekeeping {
  import opened Welford

  const MICROS_PER_SECOND := 1_000_000

  datatype RawTimeval = RawTimeval(sec: int, usec: int)

  type Timeval = t: RawTimeval | 0 <= t.usec < MICROS_PER_SECOND witness RawTimeval(0, 0)

  const ZERO: Timeval := RawTimeval(0, 0)

  /** The number of microseconds a time value stands for. */
  function Micros(t: Timeval): int {
    t.sec * MICROS_PER_SECOND + t.usec
  }

  function Subtract(x: Timeval, y: Timeval): (r: Timeval)
    ensures Micros(r) == Micros(x) - Micros(y)
    ensures 1_000_000 * r.sec + r.usec == 1_000_000 * x.sec + x.usec - (1_000_000 * y.sec + y.usec)
    ensures 0 <= r.usec <= 999_999
  {
    var sec, usec := x.sec - y.sec, x.usec - y.usec;
    if usec < 0 then RawTimeval(sec - 1, usec + MICROS_PER_SECOND) else RawTimeval(sec, usec)
  }

  function Add(x: Timeval, y: Timeval): (r: Timeval)
    ensures Micros(r) == Micros(x) + Micros(y)
    ensures 1_000_000 * r.sec + r.usec == 1_000_000 * x.sec + x.usec + (1_000_000 * y.sec + y.usec)
    ensures 0 <= r.usec <= 999_999
  {
    var sec, usec := x.sec + y.sec, x.usec + y.usec;
    if usec >= MICROS_PER_SECOND then RawTimeval(sec + 1, usec - MICROS_PER_SECOND) else RawTimeval(sec, usec)
  }

  /** The lexicographic comparison the source writes out for both extremes. */
  predicate Shorter(x: Timeval, y: Timeval)
    ensures Shorter(x, y) <==> Micros(x) < Micros(y)
  {
    x.sec < y.sec || (x.sec == y.sec && x.usec < y.usec)
  }

  lemma MicrosInjective(x: Timeval, y: Timeval)
    ensures Micros(x) == Micros(y) <==> x == y
  {
    assert !Shorter(x, y) && !Shorter(y, x) ==> x == y;
  }

  // ----- slice statistics -------------------------------------------------------------

  /** One of the two statistics groups of a thread: its run slices or its wait slices. */
  datatype SliceStats = SliceStats(count: nat, least: Timeval, most: Timeval, last: Timeval, moments: Moments)

  const NO_SLICES := SliceStats(0, ZERO, ZERO, ZERO, Moments(0.0, 0.0))

  /** Counting one more slice: increment, remember it, then `update_running_stats`. */
  function RecordSlice(s: SliceStats, x: Timeval): SliceStats {
    SliceStats(
      s.count + 1,
      if s.least == ZERO || Shorter(x, s.least) then x else s.least,
      if s.most == ZERO || Shorter(s.most, x) then x else s.most,
      x,
      Update(s.moments, Micros(x) as real, s.count + 1))
  }

  /** The statistics after the slices `xs`, oldest first. */
  function Replay(xs: seq<Timeval>): (s: SliceStats)
    ensures s.count == |xs|
    ensures xs != [] ==> s.last == xs[|xs| - 1]
  {
    if xs == [] then NO_SLICES else RecordSlice(Replay(xs[..|xs| - 1]), xs[|xs| - 1])
  }

  lemma ReplayExtend(xs: seq<Timeval>, x: Timeval)
    ensures Replay(xs + [x]) == RecordSlice(Replay(xs), x)
  {
    assert (xs + [x])[..|xs|] == xs;
  }

  /** The total length of the slices, in microseconds. */
  function Sum(xs: seq<Timeval>): int {
    if xs == [] then 0 else Sum(xs[..|xs| - 1]) + Micros(xs[|xs| - 1])
  }

  lemma SumExtend(xs: seq<Timeval>, x: Timeval)
    ensures Sum(xs + [x]) == Sum(xs) + Micros(x)
  {
    assert (xs + [x])[..|xs|] == xs;
  }

  function Values(xs: seq<Timeval>): (vs: seq<real>)
    ensures |vs| == |xs| && forall k :: 0 <= k < |xs| ==> vs[k] == Micros(xs[k]) as real
  {
    seq(|xs|, k requires 0 <= k < |xs| => Micros(xs[k]) as real)
  }

  lemma {:induction false} ReplayAccumulates(xs: seq<Timeval>)
    ensures Replay(xs).moments == Accumulate(Values(xs))
    ensures Total(Values(xs)) == Sum(xs) as real
  {
    if xs != [] {
      var rest := xs[..|xs| - 1];
      ReplayAccumulates(rest);
      assert Values(xs)[..|xs| - 1] == Values(rest);
    }
  }

  // ----- the extremes -------------------------------------------------------------------
  // Zero doubles as the marker "no slice yet", so a recorded zero slice is forgotten as soon
  // as another slice arrives, unless a slice of the opposite sign had already displaced it.

  function MicrosOf(xs: seq<Timeval>): (ys: seq<int>)
    ensures |ys| == |xs| && forall k :: 0 <= k < |xs| ==> ys[k] == Micros(xs[k])
  {
    seq(|xs|, k requires 0 <= k < |xs| => Micros(xs[k]))
  }

  function Kept(ys: seq<int>): int {
    if ys == [] then 0
    else
      var m, y := Kept(ys[..|ys| - 1]), ys[|ys| - 1];
      if m == 0 || y < m then y else m
  }

  ghost predicate IsMinimum(m: int, ys: seq<int>) {
    m in ys && forall y :: y in ys ==> m <= y
  }

  ghost predicate IsMaximum(m: int, ys: seq<int>) {
    m in ys && forall y :: y in ys ==> y <= m
  }

  ghost predicate AnyNegative(ys: seq<int>) {
    exists y :: y in ys && y < 0
  }

  ghost predicate AnyPositive(ys: seq<int>) {
    exists y :: y in ys && y > 0
  }

  lemma KeptMember(ys: seq<int>)
    requires ys != []
    ensures Kept(ys) in ys
  {
    var rest := ys[..|ys| - 1];
    assert ys == rest + [ys[|ys| - 1]];
    if rest != [] {
      KeptMember(rest);
    }
  }

  /** A negative value, once seen, makes the kept value the true minimum. */
  lemma {:induction false} KeptNegative(ys: seq<int>)
    requires exists y :: y in ys && y < 0
    ensures IsMinimum(Kept(ys), ys)
  {
    var rest, last := ys[..|ys| - 1], ys[|ys| - 1];
    assert ys == rest + [last];
    if exists y :: y in rest && y < 0 {
      KeptNegative(rest);
    } else {
      assert last < 0;
      if rest != [] {
        KeptMember(rest);
      }
    }
  }

  /** Without negative values the kept value is zero exactly when the last value is. */
  lemma {:induction false} KeptZero(ys: seq<int>)
    requires ys != [] && forall y :: y in ys ==> y >= 0
    ensures Kept(ys) == 0 <==> ys[|ys| - 1] == 0
  {
    var rest, last := ys[..|ys| - 1], ys[|ys| - 1];
    assert ys == rest + [last];
    assert last in ys;
    if rest != [] {
      KeptMember(rest);
      assert Kept(rest) in ys;
    }
  }

  lemma {:induction false} KeptPositive(ys: seq<int>)
    requires ys != [] && forall y :: y in ys ==> y > 0
    ensures IsMinimum(Kept(ys), ys)
  {
    var rest, last := ys[..|ys| - 1], ys[|ys| - 1];
    assert ys == rest + [last];
    assert last in ys;
    if rest != [] {
      assert forall y :: y in rest ==> y in ys;
      KeptPositive(rest);
    }
  }

  /** When the kept value is the true minimum. */
  lemma KeptExactly(ys: seq<int>)
    requires ys != []
    ensures IsMinimum(Kept(ys), ys) <==> (0 !in ys || ys[|ys| - 1] == 0 || AnyNegative(ys))
  {
    if AnyNegative(ys) {
      KeptNegative(ys);
    } else if 0 !in ys {
      KeptPositive(ys);
    } else {
      KeptZero(ys);
    }
  }

  lemma {:induction false} LeastIsKept(xs: seq<Timeval>)
    ensures Micros(Replay(xs).least) == Kept(MicrosOf(xs))
  {
    if xs != [] {
      var rest := xs[..|xs| - 1];
      LeastIsKept(rest);
      MicrosInjective(Replay(rest).least, ZERO);
      assert MicrosOf(xs)[..|xs| - 1] == MicrosOf(rest);
    }
  }

  function Negated(ys: seq<int>): (zs: seq<int>)
    ensures |zs| == |ys| && forall k :: 0 <= k < |ys| ==> zs[k] == -ys[k]
  {
    seq(|ys|, k requires 0 <= k < |ys| => -ys[k])
  }

  lemma {:induction false} MostIsKept(xs: seq<Timeval>)
    ensures Micros(Replay(xs).most) == -Kept(Negated(MicrosOf(xs)))
  {
    if xs != [] {
      var rest := xs[..|xs| - 1];
      MostIsKept(rest);
      MicrosInjective(Replay(rest).most, ZERO);
      assert Negated(MicrosOf(xs))[..|xs| - 1] == Negated(MicrosOf(rest));
    }
  }

  /** The recorded minimum is the true minimum exactly when no slice is empty, or the last one is,
      or some slice is negative. */
  lemma LeastExactly(xs: seq<Timeval>)
    requires xs != []
    ensures IsMinimum(Micros(Replay(xs).least), MicrosOf(xs))
       <==> (ZERO !in xs || xs[|xs| - 1] == ZERO || exists k :: 0 <= k < |xs| && Micros(xs[k]) < 0)
  {
    var ys := MicrosOf(xs);
    LeastIsKept(xs);
    KeptExactly(ys);
    MicrosInjective(xs[|xs| - 1], ZERO);
    ZeroMembership(xs);
    SignMembership(xs);
  }

  lemma ZeroMembership(xs: seq<Timeval>)
    ensures 0 in MicrosOf(xs) <==> ZERO in xs
  {
    var ys := MicrosOf(xs);
    if 0 in ys {
      var k :| 0 <= k < |ys| && ys[k] == 0;
      MicrosInjective(xs[k], ZERO);
    }
    if ZERO in xs {
      var k :| 0 <= k < |xs| && xs[k] == ZERO;
      assert ys[k] == 0;
    }
  }

  lemma SignMembership(xs: seq<Timeval>)
    ensures AnyNegative(MicrosOf(xs)) <==> exists k :: 0 <= k < |xs| && Micros(xs[k]) < 0
    ensures AnyPositive(MicrosOf(xs)) <==> exists k :: 0 <= k < |xs| && Micros(xs[k]) > 0
  {
    var ys := MicrosOf(xs);
    assert forall k :: 0 <= k < |xs| ==> ys[k] == Micros(xs[k]) && ys[k] in ys;
    hide Micros, MicrosOf;
  }

  lemma NegatedMember(ys: seq<int>, y: int)
    ensures y in ys <==> -y in Negated(ys)
  {
    var zs := Negated(ys);
    if y in ys {
      var k :| 0 <= k < |ys| && ys[k] == y;
      assert zs[k] == -y;
    }
    if -y in zs {
      var k :| 0 <= k < |zs| && zs[k] == -y;
      assert ys[k] == y;
    }
  }

  lemma NegatedExtremes(ys: seq<int>, m: int)
    ensures IsMinimum(m, Negated(ys)) <==> IsMaximum(-m, ys)
    ensures 0 in Negated(ys) <==> 0 in ys
  {
    NegatedMember(ys, 0);
    NegatedMember(ys, -m);
    if IsMaximum(-m, ys) {
      forall z | z in Negated(ys)
        ensures m <= z
      {
        NegatedMember(ys, -z);
      }
    }
    if IsMinimum(m, Negated(ys)) {
      forall y | y in ys
        ensures y <= -m
      {
        NegatedMember(ys, y);
      }
    }
  }

  lemma NegatedSigns(ys: seq<int>)
    ensures AnyNegative(Negated(ys)) <==> AnyPositive(ys)
  {
    if y :| y in ys && y > 0 {
      NegatedMember(ys, y);
    }
    if z :| z in Negated(ys) && z < 0 {
      NegatedMember(ys, -z);
    }
  }

  /** When the value kept of the opposites is the opposite of the true maximum. */
  lemma KeptMaximumExactly(ys: seq<int>)
    requires ys != []
    ensures IsMaximum(-Kept(Negated(ys)), ys) <==> (0 !in ys || ys[|ys| - 1] == 0 || AnyPositive(ys))
  {
    var zs := Negated(ys);
    KeptExactly(zs);
    NegatedExtremes(ys, Kept(zs));
    NegatedSigns(ys);
    assert zs[|zs| - 1] == -ys[|ys| - 1];
    hide *;
  }

  lemma MostIsMaximumIff(xs: seq<Timeval>)
    requires xs != []
    ensures var ys := MicrosOf(xs);
            IsMaximum(Micros(Replay(xs).most), ys) <==> (0 !in ys || ys[|ys| - 1] == 0 || AnyPositive(ys))
  {
    hide *;
    MostIsKept(xs);
    KeptMaximumExactly(MicrosOf(xs));
  }

  /** The recorded maximum is the true maximum exactly when no slice is empty, or the last one is,
      or some slice is positive. */
  lemma MostExactly(xs: seq<Timeval>)
    requires xs != []
    ensures IsMaximum(Micros(Replay(xs).most), MicrosOf(xs))
       <==> (ZERO !in xs || xs[|xs| - 1] == ZERO || exists k :: 0 <= k < |xs| && Micros(xs[k]) > 0)
  {
    MostIsMaximumIff(xs);
    ZeroIsZero(xs[|xs| - 1]);
    ZeroMembership(xs);
    SignMembership(xs);
    hide IsMaximum, AnyPositive, Micros, Replay;
  }

  lemma ZeroIsZero(x: Timeval)
    ensures Micros(x) == 0 <==> x == ZERO
  {
    MicrosInjective(x, ZERO);
  }

  /** With a clock that never runs backwards the maximum is always right... */
  lemma MostForForwardClock(xs: seq<Timeval>)
    requires xs != [] && forall k :: 0 <= k < |xs| ==> Micros(xs[k]) >= 0
    ensures IsMaximum(Micros(Replay(xs).most), MicrosOf(xs))
  {
    MostExactly(xs);
    if forall k :: 0 <= k < |xs| ==> Micros(xs[k]) == 0 {
      MicrosInjective(xs[|xs| - 1], ZERO);
    }
  }

  /** ... while the minimum forgets an empty slice: after slices of 0 and 5 microseconds it reads 5. */
  lemma LeastForgetsEmptySlice()
    ensures var xs: seq<Timeval> := [ZERO, RawTimeval(0, 5)];
            Micros(Replay(xs).least) == 5 && !IsMinimum(Micros(Replay(xs).least), MicrosOf(xs))
  {
    var five: Timeval := RawTimeval(0, 5);
    var xs: seq<Timeval> := [ZERO, five];
    assert xs == ([] + [ZERO]) + [five];
    ReplayExtend([], ZERO);
    ReplayExtend([] + [ZERO], five);
    assert MicrosOf(xs)[0] == 0;
    assert 0 in MicrosOf(xs);
  }
}
