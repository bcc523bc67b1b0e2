/**
  The state progress_bar_scan builds and the two host callbacks that mutate it.

  The factory derives the cadence, creates one bar per chain and an empty
  finished list. _update_tqdm and _close_tqdm resolve the chain from the
  device string, fail their assertion when there is none, and otherwise
  change the addressed bar (and, for the closing callback, the finished list
  and possibly every bar) in place. Each method is tied to the value-level
  transition of ProgressState, whose properties are proved there.
 */
module ProgressBar {
  import opened Dispatch
  import opened ChainId
  import opened ProgressState

  class ProgressBarScan {
    const numSamples: nat
    const numChains: nat
    const cadence: Cadence
    /** tqdm_bars: the bar of chain i is bars[i]. */
    const bars: array<Bar>
    /** finished_chains: a list, so a chain that closes twice appears twice. */
    var finished: seq<nat>

    /** One bar per chain. */
    ghost predicate Valid()
      reads this
    {
      bars.Length == numChains
    }

    /** The bars and the finished list as a value. */
    ghost function State(): Reporter
      reads this, bars
    {
      Reporter(bars[..], finished)
    }

    /** progress_bar_scan(num_samples, num_chains), up to the decorator it returns. */
    constructor (numSamples: nat, numChains: nat)
      ensures Valid() && fresh(bars)
      ensures this.numSamples == numSamples && this.numChains == numChains
      ensures cadence == MakeCadence(numSamples)
      ensures State() == Initial(numSamples, numChains)
    {
      this.numSamples := numSamples;
      this.numChains := numChains;
      cadence := MakeCadence(numSamples);
      var made := new Bar[numChains];
      for chain := 0 to numChains
        invariant forall i :: 0 <= i < chain ==> made[i] == FreshBar(i, numSamples)
      {
        made[chain] := Bar(chain, numSamples, 0, "", false);
        made[chain] := made[chain].(description := CompilingLabel);
      }
      bars := made;
      finished := [];
      new;
      assert bars[..] == Initial(numSamples, numChains).bars;
    }

    /**
      _update_tqdm(arg, transform, device). Returns false where the assertion
      on the chain match fails, and then nothing has changed.
     */
    method UpdateTqdm(arg: nat, device: string) returns (ok: bool)
      requires Valid()
      requires ParseChain(device).Some? ==> ParseChain(device).value < numChains
      modifies bars
      ensures Valid()
      ensures ok == ParseChain(device).Some?
      ensures ok ==> State() == Updated(old(State()), ParseChain(device).value, arg)
      ensures !ok ==> State() == old(State())
    {
      var chainMatch := ParseChain(device);
      if chainMatch.None? {
        return false;
      }
      UpdateChain(chainMatch.value, arg);
      ok := true;
    }

    /** _update_tqdm once the chain is resolved. */
    method UpdateChain(chain: nat, arg: nat)
      requires Valid() && chain < numChains
      modifies bars
      ensures State() == Updated(old(State()), chain, arg)
    {
      bars[chain] := bars[chain].(description := WarmupLabel(chain));
      bars[chain] := bars[chain].(count := bars[chain].count + arg);
    }

    /**
      _close_tqdm(arg, transform, device). Returns false where the assertion
      on the chain match fails, and then nothing has changed.
     */
    method CloseTqdm(arg: nat, device: string) returns (ok: bool)
      requires Valid()
      requires ParseChain(device).Some? ==> ParseChain(device).value < numChains
      modifies this, bars
      ensures Valid()
      ensures ok == ParseChain(device).Some?
      ensures ok ==> State() == Closed(old(State()), ParseChain(device).value, arg)
      ensures !ok ==> State() == old(State())
    {
      var chainMatch := ParseChain(device);
      if chainMatch.None? {
        return false;
      }
      CloseChain(chainMatch.value, arg);
      ok := true;
    }

    /** _close_tqdm once the chain is resolved. */
    method CloseChain(chain: nat, arg: nat)
      requires Valid() && chain < numChains
      modifies this, bars
      ensures Valid()
      ensures State() == Closed(old(State()), chain, arg)
    {
      bars[chain] := bars[chain].(count := bars[chain].count + arg);
      finished := finished + [chain];
      if |finished| == numChains {
        CloseAllBars();
      }
    }

    /** The loop over range(num_chains) that closes every bar. */
    method CloseAllBars()
      requires Valid()
      modifies bars
      ensures bars[..] == CloseAll(old(bars[..]))
    {
      for i := 0 to numChains
        invariant forall j :: 0 <= j < i ==> bars[j] == old(bars[j]).(closed := true)
        invariant forall j :: i <= j < numChains ==> bars[j] == old(bars[j])
      {
        var bar := bars[i];
        bars[i] := bar.(closed := true);
      }
    }
  }
}
