/** The application clock: an affine map from system time, in nanoseconds, to the time the
    modules see. Frequencies are real numbers of parts per billion. */
module AppClock {
  import opened Arithmetic

  const BILLION: real := 1_000_000_000.0

  datatype Clock = Clock(enabled: bool, baseSystem: int, baseApp: int, frequency: real, maxFrequency: real)

  /** Elapsed application time per elapsed system time. */
  function Rate(frequency: real): real { 1.0 + frequency / BILLION }

  function Exactly(elapsed: int, frequency: real): real { elapsed as real * Rate(frequency) }

  function Scaled(elapsed: int, frequency: real): int { Truncate(Exactly(elapsed, frequency)) }

  function Affine(c: Clock, t: int): int { c.baseApp + Scaled(t - c.baseSystem, c.frequency) }

  function FromSystem(c: Clock, t: int): int { if c.enabled then Affine(c, t) else t }

  function Clamp(x: real, limit: real): real {
    if x > limit then limit else if x < -limit then -limit else x
  }

  function Created(now: int, maxFrequency: real): Clock {
    Clock(false, now, now, 0.0, if maxFrequency <= 0.0 then 500_000.0 else maxFrequency)
  }

  function Enabled(c: Clock, now: int): Clock { Clock(true, now, now, 0.0, c.maxFrequency) }

  function Disabled(c: Clock): Clock { c.(enabled := false, frequency := 0.0) }

  function Stepped(c: Clock, now: int, offset: int): Clock {
    c.(baseSystem := now, baseApp := Affine(c, now) + offset)
  }

  function Adjusted(c: Clock, now: int, ppb: real): Clock {
    c.(baseSystem := now, baseApp := Affine(c, now), frequency := Clamp(ppb, c.maxFrequency))
  }

  class ApplicationClock {
    var ptpEnabled: bool
    var baseSystem: int
    var baseApp: int
    var frequencyPPB: real
    const maxFreqAdj: real

    function Value(): Clock
      reads this
    {
      Clock(ptpEnabled, baseSystem, baseApp, frequencyPPB, maxFreqAdj)
    }

    constructor (now: int, maxPPB: real)
      ensures Value() == Created(now, maxPPB) && 0.0 < maxFreqAdj
    {
      maxFreqAdj := if maxPPB <= 0.0 then 500_000.0 else maxPPB;
      ptpEnabled, baseSystem, baseApp, frequencyPPB := false, now, now, 0.0;
    }

    method EnablePTP(now: int)
      modifies this
      ensures Value() == Enabled(old(Value()), now)
    {
      ptpEnabled, baseSystem, baseApp, frequencyPPB := true, now, now, 0.0;
    }

    method DisablePTP()
      modifies this
      ensures Value() == Disabled(old(Value()))
    {
      ptpEnabled, frequencyPPB := false, 0.0;
    }

    method Read(t: int) returns (time: int)
      ensures time == FromSystem(Value(), t)
    {
      if !ptpEnabled { return t; }
      time := FromSystemLocked(t);
    }

    method FromSystemLocked(t: int) returns (time: int)
      ensures time == Affine(Value(), t)
    {
      var elapsed := t - baseSystem;
      return baseApp + Truncate(elapsed as real * (1.0 + frequencyPPB / BILLION));
    }

    method Step(now: int, offset: int)
      modifies this
      ensures Value() == Stepped(old(Value()), now, offset)
    {
      var current := FromSystemLocked(now);
      baseSystem, baseApp := now, current + offset;
    }

    method AdjustFrequency(now: int, ppb: real)
      modifies this
      ensures Value() == Adjusted(old(Value()), now, ppb)
    {
      var limited := ppb;
      if limited > maxFreqAdj {
        limited := maxFreqAdj;
      } else if limited < -maxFreqAdj {
        limited := -maxFreqAdj;
      }
      var current := FromSystemLocked(now);
      baseSystem, baseApp, frequencyPPB := now, current, limited;
    }
  }

  // ------------------------------------------------------------ truncation

  lemma TruncateSum(x: real, y: real)
    ensures -1 <= Truncate(x) + Truncate(y) - Truncate(x + y) <= 1
  {
  }

  lemma TruncateMonotone(x: real, y: real)
    requires x <= y
    ensures Truncate(x) <= Truncate(y)
  {
  }

  lemma RatePositive(frequency: real)
    requires -BILLION < frequency
    ensures 0.0 < Rate(frequency)
  {
    assert frequency / BILLION > -1.0;
  }

  lemma ScaledSum(m: int, n: int, frequency: real)
    ensures -1 <= Scaled(m, frequency) + Scaled(n, frequency) - Scaled(m + n, frequency) <= 1
  {
    hide Truncate, Exactly;
    TruncateSum(Exactly(m, frequency), Exactly(n, frequency));
    ExactSum(m, n, frequency);
  }

  lemma ExactSum(m: int, n: int, frequency: real)
    ensures Exactly(m + n, frequency) == Exactly(m, frequency) + Exactly(n, frequency)
  {
    Distribute(m, n, Rate(frequency));
  }

  lemma Distribute(m: int, n: int, r: real)
    ensures (m + n) as real * r == m as real * r + n as real * r
  {
    var x, y := m as real, n as real;
    assert (x + y) * r == x * r + y * r;
  }

  lemma NotNegative(n: nat, frequency: real)
    requires 0.0 < Rate(frequency)
    ensures 0.0 <= Exactly(n, frequency)
  {
    hide Rate;
  }

  lemma ScaledMonotone(m: int, n: int, frequency: real)
    requires -BILLION < frequency && m <= n
    ensures Scaled(m, frequency) <= Scaled(n, frequency)
  {
    RatePositive(frequency);
    ExactSum(m, n - m, frequency);
    NotNegative(n - m, frequency);
    hide Truncate, Exactly, Rate;
    assert m + (n - m) == n;
    TruncateMonotone(Exactly(m, frequency), Exactly(n, frequency));
  }

  /** What is elapsed is positive, and worth a nanosecond more by the second instant. */
  lemma ScaledStrict(m: nat, n: nat, frequency: real)
    requires -BILLION < frequency && 1.0 <= (n - m) as real * Rate(frequency)
    ensures Scaled(m, frequency) < Scaled(n, frequency)
  {
    RatePositive(frequency);
    ExactSum(m, n - m, frequency);
    NotNegative(m, frequency);
    assert 1.0 <= Exactly(n - m, frequency);
    hide Truncate, Exactly, Rate;
    assert m + (n - m) == n;
    TruncateStrict(Exactly(m, frequency), Exactly(n, frequency));
  }

  lemma TruncateStrict(x: real, y: real)
    requires 0.0 <= x && 1.0 <= y - x
    ensures Truncate(x) < Truncate(y)
  {
  }

  lemma ZeroElapsed(frequency: real)
    ensures Scaled(0, frequency) == 0
  {
  }

  // ---------------------------------------------------- one reading to the next

  /** A change of frequency is no jump: the reading at its instant stays. */
  lemma AdjustContinuous(c: Clock, now: int, ppb: real)
    requires c.enabled
    ensures FromSystem(Adjusted(c, now, ppb), now) == FromSystem(c, now)
  {
    ZeroElapsed(Clamp(ppb, c.maxFrequency));
    hide Scaled, Clamp;
  }

  /** Switched on, the clock starts from system time and follows it until it is steered; switched
      off, it is system time, whatever it was steered to. */
  lemma FollowsSystem(c: Clock, now: int, t: int)
    ensures FromSystem(Enabled(c, now), t) == t
    ensures FromSystem(Disabled(c), t) == t
  {
    FreeRunning(t - now);
  }

  /** A step shifts the reading at its instant by its offset, and every other reading by the
      offset give or take the nanosecond lost to rounding, none if the clock runs freely. */
  lemma StepShifts(c: Clock, now: int, offset: int, t: int)
    requires c.enabled
    ensures FromSystem(Stepped(c, now, offset), now) == FromSystem(c, now) + offset
    ensures -1 <= FromSystem(Stepped(c, now, offset), t) - (FromSystem(c, t) + offset) <= 1
    ensures c.frequency == 0.0 ==> FromSystem(Stepped(c, now, offset), t) == FromSystem(c, t) + offset
  {
    ZeroElapsed(c.frequency);
    hide Scaled;
    ScaledSum(now - c.baseSystem, t - now, c.frequency);
    assert now - c.baseSystem + (t - now) == t - c.baseSystem;
    if c.frequency == 0.0 {
      FreeRunning(now - c.baseSystem);
      FreeRunning(t - now);
      FreeRunning(t - c.baseSystem);
    }
  }

  lemma FreeRunning(elapsed: int)
    ensures Scaled(elapsed, 0.0) == elapsed
  {
    assert elapsed as real * Rate(0.0) == elapsed as real;
  }

  /** Between changes the clock never runs backward, and it is strictly increasing over every
      interval worth a nanosecond of application time. */
  lemma Increasing(c: Clock, t: int, u: int)
    requires -BILLION < c.frequency && t <= u
    ensures FromSystem(c, t) <= FromSystem(c, u)
    ensures c.enabled && c.baseSystem <= t && 1.0 <= (u - t) as real * Rate(c.frequency) ==>
      FromSystem(c, t) < FromSystem(c, u)
  {
    hide Scaled, Rate;
    var m, n := t - c.baseSystem, u - c.baseSystem;
    ScaledMonotone(m, n, c.frequency);
    if c.baseSystem <= t && 1.0 <= (u - t) as real * Rate(c.frequency) { ScaledStrict(m, n, c.frequency); }
  }

  predicate Later(c: Clock, t: int, u: int) { FromSystem(c, t) < FromSystem(c, u) }

  /** Different instants have different readings exactly while the clock is not slowed down:
      a slowed clock reads the same at its last change and a nanosecond later. */
  lemma StrictExactly(c: Clock)
    requires c.enabled && -BILLION < c.frequency
    ensures (forall t, u | t < u :: Later(c, t, u)) <==> 0.0 <= c.frequency
    ensures Later(c, c.baseSystem, c.baseSystem + 1) <==> 0.0 <= c.frequency
  {
    RatePositive(c.frequency);
    RateOne(c.frequency);
    if 0.0 <= c.frequency {
      forall t, u | t < u ensures Later(c, t, u) { FastStrict(t - c.baseSystem, u - c.baseSystem, c.frequency); }
    }
    ZeroElapsed(c.frequency);
    assert 0.0 <= c.frequency <==> Later(c, c.baseSystem, c.baseSystem + 1);
  }

  lemma RateOne(frequency: real)
    ensures Exactly(1, frequency) == Rate(frequency)
    ensures 0.0 <= frequency <==> 1.0 <= Rate(frequency)
  {
  }

  lemma FastStrict(m: int, n: int, frequency: real)
    requires 0.0 <= frequency && m < n
    ensures Scaled(m, frequency) < Scaled(n, frequency)
  {
    RateOne(frequency);
    ExactSum(m, n - m, frequency);
    AtLeast(n - m, Rate(frequency));
    if m < 0 {
      ExactSum(m, -m, frequency);
      AtLeast(-m, Rate(frequency));
    } else {
      AtLeast(m, Rate(frequency));
    }
    assert m + (n - m) == n;
    TruncateApart(Exactly(m, frequency), Exactly(n, frequency));
    hide Truncate, Rate;
  }

  lemma AtLeast(n: nat, rate: real)
    requires 1.0 <= rate
    ensures n as real <= n as real * rate
  {
  }

  lemma TruncateApart(x: real, y: real)
    requires 1.0 <= y - x && (0.0 <= x || x <= -1.0)
    ensures Truncate(x) < Truncate(y)
  {
  }

  // --------------------------------------------------- when a step is exact

  /** The reading at t is shifted by exactly the step's offset. */
  predicate ShiftedAt(c: Clock, now: int, offset: int, t: int) {
    FromSystem(Stepped(c, now, offset), t) == FromSystem(c, t) + offset
  }

  /** No fraction of a nanosecond is lost at the step. */
  predicate Whole(elapsed: int, frequency: real) { Exactly(elapsed, frequency) == Scaled(elapsed, frequency) as real }

  /** A step shifts every later reading by exactly its offset if and only if application time
      is a whole number of nanoseconds at its instant. */
  lemma StepExactly(c: Clock, now: int, offset: int)
    requires c.enabled && -BILLION < c.frequency && c.baseSystem <= now
    ensures (forall t | now <= t :: ShiftedAt(c, now, offset, t)) <==> Whole(now - c.baseSystem, c.frequency)
  {
    var e, f := now - c.baseSystem, c.frequency;
    RatePositive(f);
    NotNegative(e, f);
    forall t | now <= t
      ensures ShiftedAt(c, now, offset, t) <==> Scaled(e + (t - now), f) == Scaled(e, f) + Scaled(t - now, f)
    {
      assert e + (t - now) == t - c.baseSystem;
    }
    if Whole(e, f) {
      forall t | now <= t ensures ShiftedAt(c, now, offset, t) {
        NotNegative(t - now, f);
        ExactSum(e, t - now, f);
        TruncateCarry(Exactly(e, f), Exactly(t - now, f));
      }
    } else {
      var m := Multiple(e, f);
      assert !ShiftedAt(c, now, offset, now + m * e);
    }
    hide Truncate, Exactly, Rate, FromSystem, Stepped, ShiftedAt;
  }

  lemma TruncateCarry(x: real, y: real)
    requires 0.0 <= x && 0.0 <= y
    ensures Truncate(x + y) == Truncate(x) + Truncate(y) <==> Fraction(x) + Fraction(y) < 1.0
    ensures 0.0 <= Fraction(x) < 1.0 && 0.0 <= Fraction(y) < 1.0
  {
  }

  function Fraction(x: real): real { x - Truncate(x) as real }

  function Times(m: int, x: real): real { m as real * x }

  lemma TimesSucc(m: int, x: real)
    ensures Times(m + 1, x) == Times(m, x) + x
  {
  }

  /** The fractions of the multiples of x add up, until they make a whole. */
  lemma Multiple(e: nat, frequency: real) returns (m: nat)
    requires 0.0 <= Exactly(e, frequency) && !Whole(e, frequency)
    ensures Scaled(e + m * e, frequency) != Scaled(e, frequency) + Scaled(m * e, frequency)
  {
    var x := Exactly(e, frequency);
    m := LastBelow(Fraction(x));
    ExactMultiple(m, e, frequency);
    MultipleFraction(m, x);
    ExactSum(e, m * e, frequency);
    TruncateCarry(x, Times(m, x));
    TimesSucc(m, Fraction(x));
    hide Truncate, Exactly, Rate, Fraction, Times;
  }

  lemma ExactMultiple(m: nat, e: nat, frequency: real)
    ensures Exactly(m * e, frequency) == Times(m, Exactly(e, frequency))
  {
    assert (m * e) as real == m as real * e as real;
    Regroup(m as real, e as real, Rate(frequency));
    hide Rate;
  }

  lemma Regroup(m: real, e: real, rate: real)
    ensures m * e * rate == m * (e * rate)
  {
  }

  lemma MultipleFraction(m: nat, x: real)
    requires 0.0 <= x && Times(m, Fraction(x)) < 1.0
    ensures 0.0 <= Times(m, x) && Fraction(Times(m, x)) == Times(m, Fraction(x))
  {
    var n := Truncate(x);
    Split(m, n, Fraction(x));
    TruncateOf(m * n, Times(m, Fraction(x)));
    hide Times;
  }

  lemma Split(m: nat, n: nat, fraction: real)
    requires 0.0 <= fraction
    ensures Times(m, n as real + fraction) == (m * n) as real + Times(m, fraction)
    ensures 0 <= m * n && 0.0 <= Times(m, fraction)
  {
    assert (m * n) as real == m as real * n as real;
    Spread(m as real, n as real, fraction);
  }

  lemma Spread(m: real, n: real, x: real)
    ensures m * (n + x) == m * n + m * x
    ensures 0.0 <= m && 0.0 <= x ==> 0.0 <= m * x
  {
  }

  lemma TruncateOf(n: nat, fraction: real)
    requires 0.0 <= fraction < 1.0
    ensures Fraction(n as real + fraction) == fraction
  {
    var x := n as real + fraction;
    assert Truncate(x) == n by {
      assert x < n as real + 1.0;
      hide Truncate;
    }
    hide Truncate;
  }

  lemma LastBelow(fraction: real) returns (m: nat)
    requires 0.0 < fraction < 1.0
    ensures Times(m, fraction) < 1.0 <= Times(m + 1, fraction)
  {
    var n := (1.0 / fraction).Floor;
    Reciprocal(fraction, n);
    TimesSucc(n, fraction);
    TimesSucc(n - 1, fraction);
    m := if Times(n, fraction) == 1.0 then n - 1 else n;
    hide Times;
  }

  lemma Reciprocal(fraction: real, n: int)
    requires 0.0 < fraction < 1.0 && n == (1.0 / fraction).Floor
    ensures 0 < n && Times(n, fraction) <= 1.0 <= Times(n + 1, fraction)
  {
    var r := 1.0 / fraction;
    Inverse(r, fraction);
    ScaleUp(n as real, r, fraction);
    ScaleUp(r, (n + 1) as real, fraction);
  }

  lemma Inverse(r: real, fraction: real)
    requires 0.0 < fraction < 1.0 && r == 1.0 / fraction
    ensures r * fraction == 1.0 && 1.0 < r
  {
  }

  lemma ScaleUp(x: real, y: real, factor: real)
    requires x <= y && 0.0 < factor
    ensures x * factor <= y * factor
  {
  }

  /** At half a millisecond a second the reading shifts by a nanosecond less than the offset
      a microsecond after a step made a microsecond after the last change. */
  lemma StepInexact(offset: int)
    ensures var c := Clock(true, 0, 0, 500_000.0, 500_000.0); !ShiftedAt(c, 1000, offset, 2000)
  {
  }

  /** What a frequency can add to an interval. */
  function Allowance(elapsed: int, frequency: real): real { elapsed as real * frequency / BILLION }

  /** An interval of application time differs from the system's by no more than the frequency
      allows and a nanosecond of rounding. */
  lemma RateBound(elapsed: nat, frequency: real, limit: real)
    requires -limit <= frequency <= limit <= BILLION
    ensures var drift := (Scaled(elapsed, frequency) - elapsed) as real;
      -Allowance(elapsed, limit) - 1.0 <= drift <= Allowance(elapsed, limit) + 1.0
  {
    var e := elapsed as real;
    assert e * Rate(frequency) == e + e * frequency / BILLION;
    OrderedProducts(e, frequency, limit);
    OrderedProducts(e, -limit, frequency);
    assert e * -limit / BILLION == -(e * limit / BILLION);
  }

  lemma OrderedProducts(e: real, x: real, y: real)
    requires 0.0 <= e && x <= y
    ensures e * x / BILLION <= e * y / BILLION
  {
    assert e * x <= e * y;
  }

  // ------------------------------------------------------------------- runs

  datatype Op = Step(now: int, offset: int) | Adjust(now: int, ppb: real)

  function Apply(c: Clock, op: Op): Clock {
    match op
    case Step(now, offset) => Stepped(c, now, offset)
    case Adjust(now, ppb) => Adjusted(c, now, ppb)
  }

  function After(c: Clock, ops: seq<Op>): Clock {
    if ops == [] then c else Apply(After(c, ops[..|ops| - 1]), ops[|ops| - 1])
  }

  /** System time at which the last of some operations was done. */
  function LastChange(c: Clock, ops: seq<Op>): int {
    if ops == [] then c.baseSystem else ops[|ops| - 1].now
  }

  /** A system clock that does not go back. */
  predicate Ordered(c: Clock, ops: seq<Op>) {
    forall i | 0 <= i < |ops| :: LastChange(c, ops[..i]) <= ops[i].now
  }

  function Shift(ops: seq<Op>): int {
    if ops == [] then 0
    else Shift(ops[..|ops| - 1]) + match ops[|ops| - 1] case Step(_, offset) => offset case Adjust(_, _) => 0
  }

  predicate Running(c: Clock) {
    c.enabled && 0.0 < c.maxFrequency < BILLION && -c.maxFrequency <= c.frequency <= c.maxFrequency
  }

  lemma {:induction false} AfterRunning(c: Clock, ops: seq<Op>)
    requires Running(c)
    ensures Running(After(c, ops)) && After(c, ops).maxFrequency == c.maxFrequency
    ensures After(c, ops).baseSystem == LastChange(c, ops)
  {
    if ops != [] { AfterRunning(c, ops[..|ops| - 1]); }
    hide Affine;
  }

  /** Over a whole run, application time gains on system time what the steps add, up to the
      frequency limit and a nanosecond an operation. */
  lemma {:induction false} RunRate(c: Clock, ops: seq<Op>)
    requires Running(c) && Ordered(c, ops)
    ensures var n := After(c, ops);
      var elapsed := n.baseSystem - c.baseSystem;
      var error := (n.baseApp - c.baseApp - elapsed - Shift(ops)) as real;
      var bound := Allowance(elapsed, c.maxFrequency) + |ops| as real;
      0 <= elapsed && -bound <= error <= bound
  {
    if ops == [] {
      SumOfBounds(0, 0, c.maxFrequency);
    } else {
      var init, op := ops[..|ops| - 1], ops[|ops| - 1];
      assert forall i | 0 <= i < |init| :: init[..i] == ops[..i] && init[i] == ops[i];
      RunRate(c, init);
      AfterRunning(c, init);
      var m := After(c, init);
      assert LastChange(c, init) <= op.now;
      hide Ordered, After, LastChange, Shift, Running, Allowance, Apply;
      OneRate(m, op, c.maxFrequency);
      SumOfBounds(m.baseSystem - c.baseSystem, op.now - m.baseSystem, c.maxFrequency);
    }
  }

  lemma SumOfBounds(a: int, b: int, limit: real)
    ensures Allowance(a + b, limit) == Allowance(a, limit) + Allowance(b, limit)
    ensures Allowance(0, limit) == 0.0
  {
    Distribute(a, b, limit);
  }

  lemma OneRate(m: Clock, op: Op, limit: real)
    requires -limit <= m.frequency <= limit <= BILLION && m.baseSystem <= op.now
    ensures var n := Apply(m, op);
      var offset := match op case Step(_, offset) => offset case Adjust(_, _) => 0;
      var elapsed := op.now - m.baseSystem;
      var error := (n.baseApp - m.baseApp - elapsed - offset) as real;
      var bound := Allowance(elapsed, limit) + 1.0;
      n.baseSystem == op.now && -bound <= error <= bound
  {
    hide Scaled, Clamp, Allowance;
    RateBound(op.now - m.baseSystem, m.frequency, limit);
  }

  /** As long as nothing steps the clock back, time read later is no earlier, across any number
      of frequency changes and steps forward. */
  lemma {:induction false} RunMonotone(c: Clock, ops: seq<Op>, t: int, u: int)
    requires Running(c) && Ordered(c, ops)
    requires forall i | 0 <= i < |ops| :: ops[i].Step? ==> 0 <= ops[i].offset
    requires t <= (if ops == [] then u else ops[0].now) && LastChange(c, ops) <= u
    ensures FromSystem(c, t) <= FromSystem(After(c, ops), u)
  {
    AfterRunning(c, ops);
    if ops == [] {
      Increasing(c, t, u);
    } else {
      var init, op := ops[..|ops| - 1], ops[|ops| - 1];
      assert forall i | 0 <= i < |init| :: init[..i] == ops[..i] && init[i] == ops[i];
      assert LastChange(c, ops[..|ops| - 1]) <= op.now;
      RunMonotone(c, init, t, op.now);
      AfterRunning(c, init);
      var m := After(c, init);
      Changed(m, op);
      Increasing(After(c, ops), op.now, u);
      hide Ordered, FromSystem, Apply;
    }
  }

  lemma Changed(m: Clock, op: Op)
    requires m.enabled && (op.Step? ==> 0 <= op.offset)
    ensures FromSystem(m, op.now) <= FromSystem(Apply(m, op), op.now)
  {
    match op
    case Step(now, offset) => StepShifts(m, now, offset, now);
    case Adjust(now, ppb) => AdjustContinuous(m, now, ppb);
    hide Affine;
  }
}
