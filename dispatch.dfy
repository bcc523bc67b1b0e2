/**
  The cadence of the progress bars and the per-iteration dispatch rule.

  From the number of samples the factory derives how often a bar is advanced
  (the print rate) and what is left over to flush at the last iteration (the
  remainder). On every iteration the hook runs three independent checks and
  reports which host callbacks it taps, and with what amount.
 */
module Dispatch {

  /** The number of visible advances the factory aims at over one run. */
  const TargetUpdates: nat := 20

  /** print_rate and remainder, fixed once per call of the factory. */
  datatype Cadence = Cadence(numSamples: nat, printRate: nat, remainder: nat)

  /** The two host callbacks the hook can tap. */
  datatype Callback = UpdateTqdm | CloseTqdm

  /** One tap: which callback runs on the host, and the amount passed to it. */
  datatype Event = Event(callback: Callback, amount: nat)

  /**
    The print rate: every iteration for short runs, otherwise the number of
    samples divided by twenty, truncated.
   */
  function PrintRate(numSamples: nat): (rate: nat)
    ensures rate >= 1
    ensures numSamples <= TargetUpdates ==> rate == 1
    ensures numSamples > TargetUpdates ==>
      TargetUpdates * rate <= numSamples < TargetUpdates * (rate + 1)
  {
    if numSamples > TargetUpdates then numSamples / TargetUpdates else 1
  }

  /** What the cadence advances leave over, flushed at the last iteration. */
  function Remainder(numSamples: nat): (rem: nat)
    ensures rem < PrintRate(numSamples)
    ensures (numSamples / PrintRate(numSamples)) * PrintRate(numSamples) + rem == numSamples
  {
    numSamples % PrintRate(numSamples)
  }

  function MakeCadence(numSamples: nat): (c: Cadence)
    ensures c.numSamples == numSamples
    ensures c.printRate == PrintRate(numSamples) && c.remainder == Remainder(numSamples)
    ensures c.printRate >= 1 && c.remainder < c.printRate
    ensures c.remainder == numSamples % c.printRate
  {
    Cadence(numSamples, PrintRate(numSamples), Remainder(numSamples))
  }

  /**
    The taps of one iteration, in the order the hook checks them: the
    label-only update at iteration 1, the cadence update at every multiple of
    the print rate, the closing update at the last iteration. HookTaps states
    what it fires and when.
   */
  function Hook(c: Cadence, iterNum: int): seq<Event>
    requires c.printRate >= 1
  {
    Fire(iterNum == 1, Event(UpdateTqdm, 0))
    + Fire(iterNum % c.printRate == 0, Event(UpdateTqdm, c.printRate))
    + Fire(iterNum == c.numSamples, Event(CloseTqdm, c.remainder))
  }

  /**
    The three checks are independent and not exclusive: each tap is present
    exactly when its own condition holds, nothing else is tapped, at most
    three taps fire, and the closing tap comes last.
   */
  lemma HookTaps(c: Cadence, iterNum: int)
    requires c.printRate >= 1
    ensures var taps := Hook(c, iterNum);
      (Event(UpdateTqdm, 0) in taps <==> iterNum == 1)
      && (Event(UpdateTqdm, c.printRate) in taps <==> iterNum % c.printRate == 0)
      && (Event(CloseTqdm, c.remainder) in taps <==> iterNum == c.numSamples)
      && (forall e :: e in taps ==>
            e == Event(UpdateTqdm, 0) || e == Event(UpdateTqdm, c.printRate) || e == Event(CloseTqdm, c.remainder))
      && |taps| <= 3
      && (forall i :: 0 <= i < |taps| && taps[i].callback == CloseTqdm ==> i == |taps| - 1)
  {
  }

  /** One lax.cond: the tap happens when the condition holds, nothing otherwise. */
  function Fire(condition: bool, e: Event): (taps: seq<Event>)
  {
    if condition then [e] else []
  }

  /** The total amount a sequence of taps advances a bar by. */
  function Advance(taps: seq<Event>): nat
  {
    if |taps| == 0 then 0 else Advance(taps[..|taps| - 1]) + taps[|taps| - 1].amount
  }

  /** The number of taps of the closing callback. */
  function Closes(taps: seq<Event>): nat
  {
    if |taps| == 0 then 0
    else Closes(taps[..|taps| - 1]) + (if taps[|taps| - 1].callback == CloseTqdm then 1 else 0)
  }

  /** The number of label-only updates (amount 0) of the update callback. */
  function LabelUpdates(taps: seq<Event>): nat
  {
    if |taps| == 0 then 0
    else LabelUpdates(taps[..|taps| - 1]) + (if taps[|taps| - 1] == Event(UpdateTqdm, 0) then 1 else 0)
  }

  /** The number of cadence updates (amount printRate) of the update callback. */
  function RateUpdates(c: Cadence, taps: seq<Event>): nat
  {
    if |taps| == 0 then 0
    else RateUpdates(c, taps[..|taps| - 1]) + (if taps[|taps| - 1] == Event(UpdateTqdm, c.printRate) then 1 else 0)
  }

  /** The taps one chain produces over iterations 1..k, in order. */
  function Schedule(c: Cadence, k: nat): seq<Event>
    requires c.printRate >= 1
  {
    if k == 0 then [] else Schedule(c, k - 1) + Hook(c, k)
  }

  lemma {:induction false} AdvanceAppend(a: seq<Event>, b: seq<Event>)
    ensures Advance(a + b) == Advance(a) + Advance(b)
    decreases |b|
  {
    if |b| == 0 {
      assert a + b == a;
    } else {
      assert (a + b)[..|a + b| - 1] == a + b[..|b| - 1];
      AdvanceAppend(a, b[..|b| - 1]);
    }
  }

  lemma {:induction false} ClosesAppend(a: seq<Event>, b: seq<Event>)
    ensures Closes(a + b) == Closes(a) + Closes(b)
    decreases |b|
  {
    if |b| == 0 {
      assert a + b == a;
    } else {
      assert (a + b)[..|a + b| - 1] == a + b[..|b| - 1];
      ClosesAppend(a, b[..|b| - 1]);
    }
  }

  lemma {:induction false} LabelUpdatesAppend(a: seq<Event>, b: seq<Event>)
    ensures LabelUpdates(a + b) == LabelUpdates(a) + LabelUpdates(b)
    decreases |b|
  {
    if |b| == 0 {
      assert a + b == a;
    } else {
      assert (a + b)[..|a + b| - 1] == a + b[..|b| - 1];
      LabelUpdatesAppend(a, b[..|b| - 1]);
    }
  }

  lemma {:induction false} RateUpdatesAppend(c: Cadence, a: seq<Event>, b: seq<Event>)
    ensures RateUpdates(c, a + b) == RateUpdates(c, a) + RateUpdates(c, b)
    decreases |b|
  {
    if |b| == 0 {
      assert a + b == a;
    } else {
      assert (a + b)[..|a + b| - 1] == a + b[..|b| - 1];
      RateUpdatesAppend(c, a, b[..|b| - 1]);
    }
  }

  /** What one lax.cond contributes to each count. */
  lemma FireCounts(condition: bool, e: Event, c: Cadence)
    ensures Advance(Fire(condition, e)) == if condition then e.amount else 0
    ensures Closes(Fire(condition, e)) == if condition && e.callback == CloseTqdm then 1 else 0
    ensures LabelUpdates(Fire(condition, e)) == if condition && e == Event(UpdateTqdm, 0) then 1 else 0
    ensures RateUpdates(c, Fire(condition, e)) == if condition && e == Event(UpdateTqdm, c.printRate) then 1 else 0
  {
    if condition {
      assert [e][..0] == [];
    }
  }

  /** How far one iteration's taps advance a bar: the print rate on a multiple, the remainder at the end. */
  lemma HookAdvance(c: Cadence, i: int)
    requires c.printRate >= 1
    ensures Advance(Hook(c, i)) ==
      (if i % c.printRate == 0 then c.printRate else 0) + (if i == c.numSamples then c.remainder else 0)
  {
    var a := Fire(i == 1, Event(UpdateTqdm, 0));
    var b := Fire(i % c.printRate == 0, Event(UpdateTqdm, c.printRate));
    var d := Fire(i == c.numSamples, Event(CloseTqdm, c.remainder));
    FireCounts(i == 1, Event(UpdateTqdm, 0), c);
    FireCounts(i % c.printRate == 0, Event(UpdateTqdm, c.printRate), c);
    FireCounts(i == c.numSamples, Event(CloseTqdm, c.remainder), c);
    AdvanceAppend(a + b, d);
    AdvanceAppend(a, b);
  }

  /** One iteration taps the closing callback only when it is the last. */
  lemma HookCloses(c: Cadence, i: int)
    requires c.printRate >= 1
    ensures Closes(Hook(c, i)) == if i == c.numSamples then 1 else 0
  {
    var a := Fire(i == 1, Event(UpdateTqdm, 0));
    var b := Fire(i % c.printRate == 0, Event(UpdateTqdm, c.printRate));
    var d := Fire(i == c.numSamples, Event(CloseTqdm, c.remainder));
    FireCounts(i == 1, Event(UpdateTqdm, 0), c);
    FireCounts(i % c.printRate == 0, Event(UpdateTqdm, c.printRate), c);
    FireCounts(i == c.numSamples, Event(CloseTqdm, c.remainder), c);
    ClosesAppend(a + b, d);
    ClosesAppend(a, b);
  }

  /** One iteration taps the label-only update only when it is the first. */
  lemma HookLabels(c: Cadence, i: int)
    requires c.printRate >= 1
    ensures LabelUpdates(Hook(c, i)) == if i == 1 then 1 else 0
  {
    var a := Fire(i == 1, Event(UpdateTqdm, 0));
    var b := Fire(i % c.printRate == 0, Event(UpdateTqdm, c.printRate));
    var d := Fire(i == c.numSamples, Event(CloseTqdm, c.remainder));
    FireCounts(i == 1, Event(UpdateTqdm, 0), c);
    FireCounts(i % c.printRate == 0, Event(UpdateTqdm, c.printRate), c);
    FireCounts(i == c.numSamples, Event(CloseTqdm, c.remainder), c);
    LabelUpdatesAppend(a + b, d);
    LabelUpdatesAppend(a, b);
  }

  /** One iteration taps the cadence update exactly when it is a multiple of the print rate. */
  lemma HookRateUpdates(c: Cadence, i: int)
    requires c.printRate >= 1
    ensures RateUpdates(c, Hook(c, i)) == if i % c.printRate == 0 then 1 else 0
  {
    var a := Fire(i == 1, Event(UpdateTqdm, 0));
    var b := Fire(i % c.printRate == 0, Event(UpdateTqdm, c.printRate));
    var d := Fire(i == c.numSamples, Event(CloseTqdm, c.remainder));
    FireCounts(i == 1, Event(UpdateTqdm, 0), c);
    FireCounts(i % c.printRate == 0, Event(UpdateTqdm, c.printRate), c);
    FireCounts(i == c.numSamples, Event(CloseTqdm, c.remainder), c);
    RateUpdatesAppend(c, a + b, d);
    RateUpdatesAppend(c, a, b);
    assert Hook(c, i) == a + b + d;
  }

  /** Iterations 1..k advance by what iterations 1..k-1 and iteration k do. */
  lemma ScheduleAdvanceStep(c: Cadence, k: nat)
    requires c.printRate >= 1 && k >= 1
    ensures Advance(Schedule(c, k)) == Advance(Schedule(c, k - 1)) + Advance(Hook(c, k))
  {
    AdvanceAppend(Schedule(c, k - 1), Hook(c, k));
  }

  /** Iterations 1..k close as often as iterations 1..k-1 and iteration k do. */
  lemma ScheduleClosesStep(c: Cadence, k: nat)
    requires c.printRate >= 1 && k >= 1
    ensures Closes(Schedule(c, k)) == Closes(Schedule(c, k - 1)) + Closes(Hook(c, k))
  {
    ClosesAppend(Schedule(c, k - 1), Hook(c, k));
  }

  /** Iterations 1..k relabel as often as iterations 1..k-1 and iteration k do. */
  lemma ScheduleLabelsStep(c: Cadence, k: nat)
    requires c.printRate >= 1 && k >= 1
    ensures LabelUpdates(Schedule(c, k)) == LabelUpdates(Schedule(c, k - 1)) + LabelUpdates(Hook(c, k))
  {
    LabelUpdatesAppend(Schedule(c, k - 1), Hook(c, k));
  }

  /** Iterations 1..k tap the cadence update as often as iterations 1..k-1 and iteration k do. */
  lemma ScheduleRateStep(c: Cadence, k: nat)
    requires c.printRate >= 1 && k >= 1
    ensures RateUpdates(c, Schedule(c, k)) == RateUpdates(c, Schedule(c, k - 1)) + RateUpdates(c, Hook(c, k))
  {
    RateUpdatesAppend(c, Schedule(c, k - 1), Hook(c, k));
  }

  lemma MulMono(a: int, b: int, p: int)
    requires a <= b && p >= 0
    ensures a * p <= b * p
  {
    assert b * p - a * p == (b - a) * p;
  }

  /** Truncated division is determined by the quotient-remainder equation. */
  lemma DivModUnique(n: int, p: int, q: int, r: int)
    requires p > 0 && 0 <= r < p && n == q * p + r
    ensures n / p == q && n % p == r
  {
    var q', r' := n / p, n % p;
    assert n == q' * p + r';
    if q' < q {
      MulMono(q' + 1, q, p);
    } else if q < q' {
      MulMono(q + 1, q', p);
    }
  }

  lemma LeDiv(a: int, n: int, p: int)
    requires p > 0 && a * p <= n
    ensures a <= n / p
  {
    var q := n / p;
    if q < a {
      MulMono(q + 1, a, p);
    }
  }

  lemma DivLt(a: int, n: int, p: int)
    requires p > 0 && n < a * p
    ensures n / p < a
  {
    var q := n / p;
    if a <= q {
      MulMono(a, q, p);
    }
  }

  /**
    Passing from k - 1 to k, the quotient by p grows by one and k rounded
    down to a multiple of p grows by p, exactly when k is a multiple of p.
   */
  lemma DivStep(k: nat, p: nat)
    requires k >= 1 && p >= 1
    ensures k / p == (k - 1) / p + (if k % p == 0 then 1 else 0)
    ensures k - k % p == (k - 1) - (k - 1) % p + (if k % p == 0 then p else 0)
  {
    var q, r := (k - 1) / p, (k - 1) % p;
    if r + 1 < p {
      DivModUnique(k, p, q, r + 1);
    } else {
      assert k == (q + 1) * p + 0;
      DivModUnique(k, p, q + 1, 0);
    }
  }

  /** What the cadence updates of iterations 1..k release in total, on integers alone. */
  function Released(p: nat, k: nat): nat
    requires p >= 1
  {
    if k == 0 then 0 else Released(p, k - 1) + (if k % p == 0 then p else 0)
  }

  /** How many of iterations 1..k are multiples of p, on integers alone. */
  function Multiples(p: nat, k: nat): nat
    requires p >= 1
  {
    if k == 0 then 0 else Multiples(p, k - 1) + (if k % p == 0 then 1 else 0)
  }

  lemma {:induction false} ReleasedRoundsDown(p: nat, k: nat)
    requires p >= 1
    ensures Released(p, k) == k - k % p
  {
    if k > 0 {
      ReleasedRoundsDown(p, k - 1);
      DivStep(k, p);
      if k % p == 0 {
        assert Released(p, k) == Released(p, k - 1) + p;
      } else {
        assert Released(p, k) == Released(p, k - 1);
      }
    }
  }

  lemma {:induction false} MultiplesQuotient(p: nat, k: nat)
    requires p >= 1
    ensures Multiples(p, k) == k / p
  {
    if k > 0 {
      MultiplesQuotient(p, k - 1);
      DivStep(k, p);
      if k % p == 0 {
        assert Multiples(p, k) == Multiples(p, k - 1) + 1;
      } else {
        assert Multiples(p, k) == Multiples(p, k - 1);
      }
    }
  }

  /** Before the last iteration the taps advance a bar by what the cadence updates released. */
  lemma {:induction false} ScheduleReleased(c: Cadence, k: nat)
    requires c.printRate >= 1 && k < c.numSamples
    ensures Advance(Schedule(c, k)) == Released(c.printRate, k)
  {
    if k > 0 {
      ScheduleReleased(c, k - 1);
      ReleasedStep(c, k);
    }
  }

  /** Iteration k, before the last, advances a bar by what the cadence update releases at k. */
  lemma ReleasedStep(c: Cadence, k: nat)
    requires c.printRate >= 1 && 1 <= k < c.numSamples
    ensures Advance(Schedule(c, k)) == Advance(Schedule(c, k - 1)) + (Released(c.printRate, k) - Released(c.printRate, k - 1))
  {
    ScheduleAdvanceStep(c, k);
    HookAdvance(c, k);
  }

  /** The last iteration releases as any other and adds the remainder. */
  lemma ReleasedAtEnd(c: Cadence)
    requires c.printRate >= 1 && c.numSamples >= 1
    ensures Advance(Schedule(c, c.numSamples)) ==
      Advance(Schedule(c, c.numSamples - 1)) + (Released(c.printRate, c.numSamples) - Released(c.printRate, c.numSamples - 1)) + c.remainder
  {
    ScheduleAdvanceStep(c, c.numSamples);
    HookAdvance(c, c.numSamples);
  }

  lemma {:induction false} ScheduleMultiples(c: Cadence, k: nat)
    requires c.printRate >= 1
    ensures RateUpdates(c, Schedule(c, k)) == Multiples(c.printRate, k)
  {
    if k > 0 {
      ScheduleMultiples(c, k - 1);
      MultiplesStep(c, k);
    }
  }

  /** Iteration k adds to the cadence updates what it adds to the multiples of the print rate. */
  lemma MultiplesStep(c: Cadence, k: nat)
    requires c.printRate >= 1 && k >= 1
    ensures RateUpdates(c, Hook(c, k)) == Multiples(c.printRate, k) - Multiples(c.printRate, k - 1)
    ensures RateUpdates(c, Schedule(c, k)) == RateUpdates(c, Schedule(c, k - 1)) + RateUpdates(c, Hook(c, k))
  {
    ScheduleRateStep(c, k);
    HookRateUpdates(c, k);
  }

  /**
    Before the last iteration a chain's bar has been advanced by the whole
    print-rate multiples reached so far, that is k less its remainder.
   */
  lemma ScheduleAdvanceBeforeEnd(c: Cadence, k: nat)
    requires c.printRate >= 1 && k < c.numSamples
    ensures Advance(Schedule(c, k)) == k - k % c.printRate
  {
    ScheduleReleased(c, k);
    ReleasedRoundsDown(c.printRate, k);
  }

  /** Before the last iteration nothing has closed. */
  lemma {:induction false} ScheduleClosesBeforeEnd(c: Cadence, k: nat)
    requires c.printRate >= 1 && k < c.numSamples
    ensures Closes(Schedule(c, k)) == 0
  {
    if k > 0 {
      ScheduleClosesBeforeEnd(c, k - 1);
      ClosesStepBeforeEnd(c, k);
    }
  }

  /** An iteration before the last closes nothing. */
  lemma ClosesStepBeforeEnd(c: Cadence, k: nat)
    requires c.printRate >= 1 && 1 <= k < c.numSamples
    ensures Closes(Schedule(c, k)) == Closes(Schedule(c, k - 1))
  {
    ScheduleClosesStep(c, k);
    HookCloses(c, k);
  }

  /** The last iteration closes once. */
  lemma ClosesAtEnd(c: Cadence)
    requires c.printRate >= 1 && c.numSamples >= 1
    ensures Closes(Schedule(c, c.numSamples)) == Closes(Schedule(c, c.numSamples - 1)) + 1
  {
    ScheduleClosesStep(c, c.numSamples);
    HookCloses(c, c.numSamples);
  }

  /** The label-only update fires once, at the first iteration. */
  lemma {:induction false} ScheduleLabels(c: Cadence, k: nat)
    requires c.printRate >= 1
    ensures LabelUpdates(Schedule(c, k)) == if k >= 1 then 1 else 0
  {
    if k == 1 {
      ScheduleLabelsStep(c, 1);
      HookLabels(c, 1);
    } else if k > 1 {
      ScheduleLabels(c, k - 1);
      ScheduleLabelsStep(c, k);
      HookLabels(c, k);
    }
  }

  /** Over iterations 1..k the cadence update fires once per multiple of the print rate. */
  lemma ScheduleRateUpdates(c: Cadence, k: nat)
    requires c.printRate >= 1
    ensures RateUpdates(c, Schedule(c, k)) == k / c.printRate
  {
    ScheduleMultiples(c, k);
    MultiplesQuotient(c.printRate, k);
  }

  /**
    Over a whole run, one chain's advances add up to the number of samples:
    the cadence advances reach the last multiple of the print rate and the
    closing advance flushes the remainder.
   */
  lemma ScheduleComplete(c: Cadence)
    requires c.printRate >= 1 && c.numSamples >= 1
    requires c.remainder == c.numSamples % c.printRate
    ensures Advance(Schedule(c, c.numSamples)) == c.numSamples
  {
    var k, p := c.numSamples - 1, c.printRate;
    ScheduleReleased(c, k);
    ReleasedAtEnd(c);
    ReleasedRoundsDown(p, c.numSamples);
    var before, total := Advance(Schedule(c, k)), Advance(Schedule(c, c.numSamples));
    assert before == Released(p, k);
    assert total == before + (Released(p, c.numSamples) - Released(p, k)) + c.remainder;
  }

  /** Over a whole run the closing callback is tapped exactly once. */
  lemma ScheduleClosesOnce(c: Cadence)
    requires c.printRate >= 1 && c.numSamples >= 1
    ensures Closes(Schedule(c, c.numSamples)) == 1
  {
    var k := c.numSamples - 1;
    ScheduleClosesBeforeEnd(c, k);
    ClosesAtEnd(c);
    var before, total := Closes(Schedule(c, k)), Closes(Schedule(c, c.numSamples));
    assert before == 0;
    assert total == before + 1;
  }

  /** The cadence the factory builds meets what ScheduleComplete needs, so its runs add up. */
  lemma ScheduleTotal(numSamples: nat)
    requires numSamples >= 1
    ensures Advance(Schedule(MakeCadence(numSamples), numSamples)) == numSamples
    ensures Closes(Schedule(MakeCadence(numSamples), numSamples)) == 1
  {
    ScheduleComplete(MakeCadence(numSamples));
    ScheduleClosesOnce(MakeCadence(numSamples));
  }

  /** A run's last tap is the close of its last iteration. */
  lemma ScheduleEndsWithClose(c: Cadence)
    requires c.printRate >= 1 && c.numSamples >= 1
    ensures var taps := Schedule(c, c.numSamples);
      |taps| > 0 && taps[|taps| - 1] == Event(CloseTqdm, c.remainder)
  {
    var n := c.numSamples;
    var a := Fire(n == 1, Event(UpdateTqdm, 0));
    var b := Fire(n % c.printRate == 0, Event(UpdateTqdm, c.printRate));
    assert Hook(c, n) == a + b + [Event(CloseTqdm, c.remainder)];
  }

  /**
    The taps of iterations 0..k-1, the range np.arange(k) hands the wrapped
    body: iteration 0, then iterations 1..k-1.
   */
  function ZeroBasedSchedule(c: Cadence, k: nat): seq<Event>
    requires c.printRate >= 1
  {
    if k == 0 then [] else Hook(c, 0) + Schedule(c, k - 1)
  }

  /** A scan over 0..n-1 advances by iteration 0's rate more than iterations 1..n-1 do. */
  lemma ZeroBasedAdvanceStep(c: Cadence)
    requires c.printRate >= 1 && c.numSamples >= 1
    ensures Advance(ZeroBasedSchedule(c, c.numSamples)) == c.printRate + Advance(Schedule(c, c.numSamples - 1))
  {
    var first, rest := Hook(c, 0), Schedule(c, c.numSamples - 1);
    assert ZeroBasedSchedule(c, c.numSamples) == first + rest;
    HookAdvance(c, 0);
    AdvanceAppend(first, rest);
  }

  /** A scan over 0..n-1 closes as often as iterations 1..n-1 do. */
  lemma ZeroBasedClosesStep(c: Cadence)
    requires c.printRate >= 1 && c.numSamples >= 1
    ensures Closes(ZeroBasedSchedule(c, c.numSamples)) == Closes(Schedule(c, c.numSamples - 1))
  {
    var first, rest := Hook(c, 0), Schedule(c, c.numSamples - 1);
    assert ZeroBasedSchedule(c, c.numSamples) == first + rest;
    HookCloses(c, 0);
    ClosesAppend(first, rest);
  }

  /** A scan over 0..n-1 never reaches iteration n, so it never taps the closing callback. */
  lemma ZeroBasedCloses(c: Cadence)
    requires c.printRate >= 1 && c.numSamples >= 1
    ensures Closes(ZeroBasedSchedule(c, c.numSamples)) == 0
  {
    var k := c.numSamples - 1;
    ScheduleClosesBeforeEnd(c, k);
    ZeroBasedClosesStep(c);
    var zero, rest := Closes(ZeroBasedSchedule(c, c.numSamples)), Closes(Schedule(c, k));
    assert rest == 0;
    assert zero == rest;
  }

  /**
    A scan over 0..n-1 advances a bar by one print rate more than the
    iterations 1..n-1 do: iteration 0 is a multiple of every rate.
   */
  lemma ZeroBasedAdvance(c: Cadence)
    requires c.printRate >= 1 && c.numSamples >= 1
    ensures Advance(ZeroBasedSchedule(c, c.numSamples)) ==
      c.printRate + (c.numSamples - 1) - (c.numSamples - 1) % c.printRate
  {
    var k := c.numSamples - 1;
    ZeroBasedAdvanceStep(c);
    ScheduleAdvanceBeforeEnd(c, k);
    var total, rest := Advance(ZeroBasedSchedule(c, c.numSamples)), Advance(Schedule(c, k));
    assert total == c.printRate + rest;
    assert rest == k - k % c.printRate;
  }

  /** Forty-seven samples scanned over 0..46: the bar advances by 48 and is never closed. */
  lemma ZeroBasedExample()
    ensures Advance(ZeroBasedSchedule(MakeCadence(47), 47)) == 48
    ensures Closes(ZeroBasedSchedule(MakeCadence(47), 47)) == 0
  {
    var c := MakeCadence(47);
    assert c.printRate == 2;
    ZeroBasedCloses(c);
    ZeroBasedAdvance(c);
    assert 46 % 2 == 0;
  }

  /**
    The cadence aims at twenty visible advances: a run of more than twenty
    samples gets between 20 and 39 cadence updates, a shorter run one per
    iteration.
   */
  lemma CadenceUpdateCount(numSamples: nat)
    ensures var rate := PrintRate(numSamples);
      (numSamples <= TargetUpdates ==> numSamples / rate == numSamples)
      && (numSamples > TargetUpdates ==>
            TargetUpdates <= numSamples / rate < 2 * TargetUpdates)
  {
    var rate := PrintRate(numSamples);
    if numSamples > TargetUpdates {
      LeDiv(TargetUpdates, numSamples, rate);
      MulMono(TargetUpdates, 2 * TargetUpdates, rate);
      DivLt(2 * TargetUpdates, numSamples, rate);
    }
  }

  /**
    Two runs worked through: five samples advance by one on every iteration
    and flush nothing at the end; forty-seven samples advance by two on even
    iterations and flush one at the last.
   */
  lemma CadenceExamples()
    ensures MakeCadence(5) == Cadence(5, 1, 0)
    ensures Hook(MakeCadence(5), 1) == [Event(UpdateTqdm, 0), Event(UpdateTqdm, 1)]
    ensures Hook(MakeCadence(5), 5) == [Event(UpdateTqdm, 1), Event(CloseTqdm, 0)]
    ensures MakeCadence(47) == Cadence(47, 2, 1)
    ensures Hook(MakeCadence(47), 1) == [Event(UpdateTqdm, 0)]
    ensures Hook(MakeCadence(47), 46) == [Event(UpdateTqdm, 2)]
    ensures Hook(MakeCadence(47), 47) == [Event(CloseTqdm, 1)]
  {
  }
}
