/**
  The host-side state of the progress bars, as values.

  Each tqdm bar is abstracted to its position, its count, its description and
  whether it is closed; the bars are indexed by chain. The finished list grows
  by one chain per closing callback, and every bar is closed at the moment its
  length reaches the number of chains. The callbacks arrive as one sequential
  stream of taps, each addressed to a chain; this module says what any such
  stream does to the state.
 */
module ProgressState {
  import opened Dispatch
  import opened ChainId

  const CompilingLabel: string := "Compiling.. "

  /** The description a bar takes at its first update: f"Warmup {chain}". */
  function WarmupLabel(chain: nat): string
  {
    "Warmup " + DecimalString(chain)
  }

  /** A tqdm bar over range(num_samples): its screen line, its total, how far it is, its label. */
  datatype Bar = Bar(position: nat, total: nat, count: nat, description: string, closed: bool)

  /** tqdm_bars (keyed 0 .. num_chains - 1) and finished_chains. */
  datatype Reporter = Reporter(bars: seq<Bar>, finished: seq<nat>)

  /** One host callback: the chain whose device tapped it, and what it carries. */
  datatype Tap = Tap(chain: nat, event: Event)

  /** A fresh bar for one chain, labelled as compiling. */
  function FreshBar(chain: nat, numSamples: nat): Bar
  {
    Bar(chain, numSamples, 0, CompilingLabel, false)
  }

  /**
    The state right after the factory: one bar per chain, at its chain's
    position, over num_samples, with nothing counted, labelled as compiling,
    open; no chain finished.
   */
  function Initial(numSamples: nat, numChains: nat): (r: Reporter)
    ensures |r.bars| == numChains && r.finished == []
    ensures forall i :: 0 <= i < numChains ==>
      r.bars[i].position == i && r.bars[i].total == numSamples && r.bars[i].count == 0
      && r.bars[i].description == CompilingLabel && !r.bars[i].closed
  {
    Reporter(seq(numChains, i requires 0 <= i => FreshBar(i, numSamples)), [])
  }

  /** _update_tqdm on a resolved chain: relabel and advance that bar, nothing else. */
  function Updated(r: Reporter, chain: nat, amount: nat): (r': Reporter)
    requires chain < |r.bars|
    ensures |r'.bars| == |r.bars| && r'.finished == r.finished
    ensures r'.bars[chain].count == r.bars[chain].count + amount
    ensures r'.bars[chain].description == WarmupLabel(chain)
    ensures r'.bars[chain].position == r.bars[chain].position && r'.bars[chain].total == r.bars[chain].total
    ensures r'.bars[chain].closed == r.bars[chain].closed
    ensures forall i :: 0 <= i < |r.bars| && i != chain ==> r'.bars[i] == r.bars[i]
  {
    var bar := r.bars[chain];
    r.(bars := r.bars[chain := bar.(description := WarmupLabel(chain), count := bar.count + amount)])
  }

  /** Every bar closed, everything else about it kept. */
  function CloseAll(bars: seq<Bar>): (closed: seq<Bar>)
    ensures |closed| == |bars|
    ensures forall i :: 0 <= i < |bars| ==> closed[i] == bars[i].(closed := true)
  {
    seq(|bars|, i requires 0 <= i < |bars| => bars[i].(closed := true))
  }

  /**
    _close_tqdm on a resolved chain: advance that bar, append the chain to the
    finished list, and close every bar when the list's length has just become
    the number of chains.
   */
  function Closed(r: Reporter, chain: nat, amount: nat): (r': Reporter)
    requires chain < |r.bars|
    ensures |r'.bars| == |r.bars| && r'.finished == r.finished + [chain]
    ensures r'.bars[chain].count == r.bars[chain].count + amount
    ensures forall i :: 0 <= i < |r.bars| && i != chain ==> r'.bars[i].count == r.bars[i].count
    ensures forall i :: 0 <= i < |r.bars| ==>
      r'.bars[i].position == r.bars[i].position && r'.bars[i].total == r.bars[i].total
      && r'.bars[i].description == r.bars[i].description
    ensures forall i :: 0 <= i < |r.bars| ==>
      r'.bars[i].closed == (r.bars[i].closed || |r.finished| + 1 == |r.bars|)
  {
    var bar := r.bars[chain];
    var counted := r.bars[chain := bar.(count := bar.count + amount)];
    var finished := r.finished + [chain];
    Reporter(if |finished| == |r.bars| then CloseAll(counted) else counted, finished)
  }

  /** Whether a tap runs the loop that closes every bar. */
  predicate RunsClosingLoop(r: Reporter, t: Tap)
  {
    t.event.callback == CloseTqdm && |r.finished| + 1 == |r.bars|
  }

  /** One tap, run by the callback it names. */
  function Step(r: Reporter, t: Tap): (r': Reporter)
    requires t.chain < |r.bars|
    ensures |r'.bars| == |r.bars|
  {
    match t.event.callback
    case UpdateTqdm => Updated(r, t.chain, t.event.amount)
    case CloseTqdm => Closed(r, t.chain, t.event.amount)
  }

  /** Every tap of the stream names one of the n chains. */
  predicate Addressed(s: seq<Tap>, n: nat)
  {
    forall i :: 0 <= i < |s| ==> s[i].chain < n
  }

  /** A stream of taps run in order. */
  function Run(r: Reporter, s: seq<Tap>): (r': Reporter)
    requires Addressed(s, |r.bars|)
    ensures |r'.bars| == |r.bars|
  {
    if |s| == 0 then r else Step(Run(r, s[..|s| - 1]), s[|s| - 1])
  }

  /** The number of taps of the stream that run the loop closing every bar. */
  function Firings(r: Reporter, s: seq<Tap>): nat
    requires Addressed(s, |r.bars|)
  {
    if |s| == 0 then 0
    else
      var before := s[..|s| - 1];
      Firings(r, before) + (if RunsClosingLoop(Run(r, before), s[|s| - 1]) then 1 else 0)
  }

  /** What the stream carries for one chain, in order. */
  function Project(s: seq<Tap>, chain: nat): seq<Event>
  {
    if |s| == 0 then []
    else Project(s[..|s| - 1], chain) + (if s[|s| - 1].chain == chain then [s[|s| - 1].event] else [])
  }

  /** The chains of the closing taps, in order. */
  function ClosedChains(s: seq<Tap>): seq<nat>
  {
    if |s| == 0 then []
    else ClosedChains(s[..|s| - 1]) + (if s[|s| - 1].event.callback == CloseTqdm then [s[|s| - 1].chain] else [])
  }

  /** The number of taps of the update callback. */
  function Updates(taps: seq<Event>): nat
  {
    if |taps| == 0 then 0
    else Updates(taps[..|taps| - 1]) + (if taps[|taps| - 1].callback == UpdateTqdm then 1 else 0)
  }

  /** The number of closing taps whose chain is below k. */
  function ClosesBelow(s: seq<Tap>, k: nat): nat
  {
    if |s| == 0 then 0
    else ClosesBelow(s[..|s| - 1], k) + (if s[|s| - 1].event.callback == CloseTqdm && s[|s| - 1].chain < k then 1 else 0)
  }

  /** The closing taps of chains 0 .. k - 1, added up chain by chain. */
  function ClosesPerChain(s: seq<Tap>, k: nat): nat
  {
    if k == 0 then 0 else ClosesPerChain(s, k - 1) + Closes(Project(s, k - 1))
  }

  /** A bar's count is what it started with plus everything the stream carried for its chain. */
  lemma {:induction false} RunCount(r: Reporter, s: seq<Tap>, chain: nat)
    requires Addressed(s, |r.bars|) && chain < |r.bars|
    ensures Run(r, s).bars[chain].count == r.bars[chain].count + Advance(Project(s, chain))
    ensures Run(r, s).bars[chain].position == r.bars[chain].position
    ensures Run(r, s).bars[chain].total == r.bars[chain].total
  {
    if |s| > 0 {
      var before, t := s[..|s| - 1], s[|s| - 1];
      var tail: seq<Event> := if t.chain == chain then [t.event] else [];
      RunCount(r, before, chain);
      AdvanceAppend(Project(before, chain), tail);
      if t.chain == chain {
        assert [t.event][..0] == [];
      }
    }
  }

  /** A bar is relabelled "Warmup <chain>" once its chain has had an update, and keeps its label otherwise. */
  lemma {:induction false} RunDescription(r: Reporter, s: seq<Tap>, chain: nat)
    requires Addressed(s, |r.bars|) && chain < |r.bars|
    ensures Run(r, s).bars[chain].description ==
      if Updates(Project(s, chain)) > 0 then WarmupLabel(chain) else r.bars[chain].description
  {
    if |s| > 0 {
      var before, t := s[..|s| - 1], s[|s| - 1];
      RunDescription(r, before, chain);
      if t.chain == chain {
        var p := Project(before, chain) + [t.event];
        assert p[..|p| - 1] == Project(before, chain);
      } else {
        assert Project(s, chain) == Project(before, chain);
      }
    }
  }

  /** The finished list is the initial one followed by the chains of the closing taps, in order. */
  lemma {:induction false} RunFinished(r: Reporter, s: seq<Tap>)
    requires Addressed(s, |r.bars|)
    ensures Run(r, s).finished == r.finished + ClosedChains(s)
  {
    if |s| > 0 {
      RunFinished(r, s[..|s| - 1]);
    }
  }

  /**
    A bar is closed after the stream exactly when it was closed before, or
    the finished list has reached the number of chains during the stream.
   */
  lemma {:induction false} RunClosed(r: Reporter, s: seq<Tap>, chain: nat)
    requires Addressed(s, |r.bars|) && chain < |r.bars|
    ensures Run(r, s).bars[chain].closed ==
      (r.bars[chain].closed || |r.finished| < |r.bars| <= |r.finished| + |ClosedChains(s)|)
  {
    if |s| > 0 {
      var before := s[..|s| - 1];
      RunClosed(r, before, chain);
      RunFinished(r, before);
    }
  }

  /**
    The loop that closes every bar runs at most once over any stream: exactly
    when the finished list reaches the number of chains during the stream.
   */
  lemma {:induction false} RunFirings(r: Reporter, s: seq<Tap>)
    requires Addressed(s, |r.bars|)
    ensures Firings(r, s) ==
      if |r.finished| < |r.bars| <= |r.finished| + |ClosedChains(s)| then 1 else 0
  {
    if |s| > 0 {
      var before := s[..|s| - 1];
      RunFirings(r, before);
      RunFinished(r, before);
    }
  }

  /** How often a chain occurs in the closing chains is how often its own taps close. */
  lemma {:induction false} ClosedChainsCount(s: seq<Tap>, chain: nat)
    ensures multiset(ClosedChains(s))[chain] == Closes(Project(s, chain))
  {
    if |s| > 0 {
      var before, t := s[..|s| - 1], s[|s| - 1];
      ClosedChainsCount(before, chain);
      var added: seq<nat> := if t.event.callback == CloseTqdm then [t.chain] else [];
      assert ClosedChains(s) == ClosedChains(before) + added;
      assert multiset(ClosedChains(s))[chain] == multiset(ClosedChains(before))[chain] + multiset(added)[chain];
      if t.chain == chain {
        ClosesAppend(Project(before, chain), [t.event]);
        assert [t.event][..0] == [];
        assert Project(s, chain) == Project(before, chain) + [t.event];
      } else {
        assert Project(s, chain) == Project(before, chain) + [];
        assert Project(before, chain) + [] == Project(before, chain);
      }
    }
  }

  lemma {:induction false} ClosesBelowStep(s: seq<Tap>, k: nat)
    ensures ClosesBelow(s, k + 1) == ClosesBelow(s, k) + Closes(Project(s, k))
  {
    if |s| > 0 {
      var before, t := s[..|s| - 1], s[|s| - 1];
      ClosesBelowStep(before, k);
      if t.chain == k {
        ClosesAppend(Project(before, k), [t.event]);
        assert [t.event][..0] == [];
        assert Project(s, k) == Project(before, k) + [t.event];
      } else {
        assert Project(s, k) == Project(before, k) + [];
        assert Project(before, k) + [] == Project(before, k);
      }
    }
  }

  lemma {:induction false} ClosesBelowZero(s: seq<Tap>)
    ensures ClosesBelow(s, 0) == 0
  {
    if |s| > 0 {
      ClosesBelowZero(s[..|s| - 1]);
    }
  }

  lemma {:induction false} ClosesBelowAll(s: seq<Tap>, n: nat)
    requires Addressed(s, n)
    ensures ClosesBelow(s, n) == |ClosedChains(s)|
  {
    if |s| > 0 {
      ClosesBelowAll(s[..|s| - 1], n);
    }
  }

  /** The closing taps, counted chain by chain, are all the closing taps of a stream for n chains. */
  lemma {:induction false} ClosesPerChainTotal(s: seq<Tap>, n: nat)
    requires Addressed(s, n)
    ensures ClosesPerChain(s, n) == |ClosedChains(s)|
  {
    ClosesPerChainBelow(s, n);
    ClosesBelowAll(s, n);
  }

  lemma {:induction false} ClosesPerChainBelow(s: seq<Tap>, k: nat)
    ensures ClosesPerChain(s, k) == ClosesBelow(s, k)
  {
    if k == 0 {
      ClosesBelowZero(s);
    } else {
      ClosesPerChainBelow(s, k - 1);
      ClosesBelowStep(s, k - 1);
    }
  }

  lemma {:induction false} ClosesPerChainOnce(s: seq<Tap>, k: nat)
    requires forall c :: 0 <= c < k ==> Closes(Project(s, c)) == 1
    ensures ClosesPerChain(s, k) == k
  {
    if k > 0 {
      ClosesPerChainOnce(s, k - 1);
    }
  }

  lemma {:induction false} UpdatesAtLeastLabels(taps: seq<Event>)
    ensures Updates(taps) >= LabelUpdates(taps)
  {
    if |taps| > 0 {
      UpdatesAtLeastLabels(taps[..|taps| - 1]);
    }
  }

  lemma {:induction false} ClosesPerChainNone(s: seq<Tap>, k: nat)
    requires forall c :: 0 <= c < k ==> Closes(Project(s, c)) == 0
    ensures ClosesPerChain(s, k) == 0
  {
    if k > 0 {
      ClosesPerChainNone(s, k - 1);
    }
  }

  /** When every chain's taps are a whole run's schedule, the stream's last tap is a close. */
  lemma LastTapCloses(numSamples: nat, numChains: nat, s: seq<Tap>)
    requires numSamples >= 1 && |s| > 0
    requires Addressed(s, numChains)
    requires forall c :: 0 <= c < numChains ==>
      Project(s, c) == Schedule(MakeCadence(numSamples), numSamples)
    ensures s[|s| - 1].event.callback == CloseTqdm
  {
    var t := s[|s| - 1];
    var p := Project(s, t.chain);
    assert p == Project(s[..|s| - 1], t.chain) + [t.event];
    ScheduleEndsWithClose(MakeCadence(numSamples));
    assert p[|p| - 1] == t.event;
  }

  /**
    In a whole run the loop closing every bar has not run before the
    stream's last tap, so no tap reaches a closed bar.
   */
  lemma ClosingLoopAtLastTap(numSamples: nat, numChains: nat, s: seq<Tap>)
    requires numSamples >= 1 && numChains >= 1 && |s| > 0
    requires Addressed(s, numChains)
    requires forall c :: 0 <= c < numChains ==>
      Project(s, c) == Schedule(MakeCadence(numSamples), numSamples)
    ensures Firings(Initial(numSamples, numChains), s[..|s| - 1]) == 0
  {
    var before := s[..|s| - 1];
    ScheduleTotal(numSamples);
    ClosesPerChainOnce(s, numChains);
    ClosesPerChainTotal(s, numChains);
    LastTapCloses(numSamples, numChains, s);
    assert ClosedChains(s) == ClosedChains(before) + [s[|s| - 1].chain];
    assert Addressed(before, numChains);
    RunFirings(Initial(numSamples, numChains), before);
  }

  /**
    A whole run, however the chains' taps interleave: when every chain's own
    taps are the schedule of iterations 1 .. num_samples, every bar ends at
    its total num_samples, labelled "Warmup <chain>" and closed; every chain is on the
    finished list exactly once; and the loop closing the bars ran once, at the
    stream's last tap.
   */
  lemma FullRun(numSamples: nat, numChains: nat, s: seq<Tap>)
    requires numSamples >= 1 && numChains >= 1
    requires Addressed(s, numChains)
    requires forall c :: 0 <= c < numChains ==>
      Project(s, c) == Schedule(MakeCadence(numSamples), numSamples)
    ensures var r := Run(Initial(numSamples, numChains), s);
      (forall c :: 0 <= c < numChains ==> r.bars[c] == Bar(c, numSamples, numSamples, WarmupLabel(c), true))
      && |r.finished| == numChains
      && (forall c :: 0 <= c < numChains ==> multiset(r.finished)[c] == 1)
      && Firings(Initial(numSamples, numChains), s) == 1
    ensures |s| > 0 ==> Firings(Initial(numSamples, numChains), s[..|s| - 1]) == 0
  {
    var r0 := Initial(numSamples, numChains);
    var schedule := Schedule(MakeCadence(numSamples), numSamples);
    ScheduleTotal(numSamples);
    ScheduleLabels(MakeCadence(numSamples), numSamples);
    UpdatesAtLeastLabels(schedule);
    ClosesPerChainOnce(s, numChains);
    ClosesPerChainTotal(s, numChains);
    RunFinished(r0, s);
    RunFirings(r0, s);
    var r := Run(r0, s);
    forall c | 0 <= c < numChains
      ensures r.bars[c] == Bar(c, numSamples, numSamples, WarmupLabel(c), true)
      ensures multiset(r.finished)[c] == 1
    {
      RunCount(r0, s, c);
      RunDescription(r0, s, c);
      RunClosed(r0, s, c);
      ClosedChainsCount(s, c);
    }
    if |s| > 0 {
      ClosingLoopAtLastTap(numSamples, numChains, s);
    }
  }

  /**
    finished_chains is a list, not a set: with two chains, a chain that closes
    twice fills the list, and every bar is closed although the other chain
    never finished.
   */
  lemma RepeatedCloseClosesEarly(amount: nat)
    ensures var s := [Tap(0, Event(CloseTqdm, amount)), Tap(0, Event(CloseTqdm, amount))];
      var r := Run(Initial(1, 2), s);
      r.finished == [0, 0] && r.bars[1].closed && r.bars[1].count == 0
  {
    var s := [Tap(0, Event(CloseTqdm, amount)), Tap(0, Event(CloseTqdm, amount))];
    var r0 := Initial(1, 2);
    assert s[..1][..0] == [];
    assert s[..1] == [s[0]];
    RunFinished(r0, s);
    RunClosed(r0, s, 1);
    RunCount(r0, s, 1);
    assert ClosedChains(s[..1]) == [0];
    assert Project(s[..1], 1) == [];
  }

  /**
    A run whose chains scan iterations 0 .. num_samples - 1 never taps the
    closing callback: the finished list stays empty, the closing loop never
    runs and no bar is closed; each bar ends at what the scan over 0 ..
    num_samples - 1 advances it by (ZeroBasedAdvance), not at num_samples.
   */
  lemma ZeroBasedFullRun(numSamples: nat, numChains: nat, s: seq<Tap>)
    requires numSamples >= 1
    requires Addressed(s, numChains)
    requires forall c :: 0 <= c < numChains ==>
      Project(s, c) == ZeroBasedSchedule(MakeCadence(numSamples), numSamples)
    ensures var r := Run(Initial(numSamples, numChains), s);
      r.finished == [] && Firings(Initial(numSamples, numChains), s) == 0
      && forall c :: 0 <= c < numChains ==>
           !r.bars[c].closed && r.bars[c].count == Advance(ZeroBasedSchedule(MakeCadence(numSamples), numSamples))
  {
    var r0 := Initial(numSamples, numChains);
    ZeroBasedCloses(MakeCadence(numSamples));
    ClosesPerChainNone(s, numChains);
    ClosesPerChainTotal(s, numChains);
    RunFinished(r0, s);
    RunFirings(r0, s);
    forall c | 0 <= c < numChains
      ensures !Run(r0, s).bars[c].closed
      ensures Run(r0, s).bars[c].count == Advance(ZeroBasedSchedule(MakeCadence(numSamples), numSamples))
    {
      RunClosed(r0, s, c);
      RunCount(r0, s, c);
    }
  }
}
