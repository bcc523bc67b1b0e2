# Progress bars for sampling loops (blackjax `progress_bar.py`)

A model of `progress_bar_scan`. This is the factory blackjax uses to attach one tqdm progress bar per chain to a
`lax.scan` sampling loop. Given the number of samples and the number of chains, it:

- derives a cadence: a *print rate* (how many iterations pass between two visible
  advances of a bar) and a *remainder* (what is flushed at the last iteration);
- creates one bar per chain, labelled `"Compiling.. "`, and an empty list of
  finished chains;
- returns a decorator. On every iteration of the scan, the wrapped body runs a hook that taps up to
  three host callbacks:
  - the update callback with amount 0 at iteration 1, which only relabels the bar;
  - the update callback with the print rate at every multiple of the print rate;
  - the closing callback with the remainder at the last iteration.

On the host, each callback recovers its chain from the device string it was
tapped on, by the trailing run of digits matched by `\d+$`.

- The update callback relabels that chain's bar `"Warmup <chain>"` and advances it.
- The closing callback advances the bar and appends the chain to the finished
  list. When the list's length reaches the number of chains, it closes every bar.

The project is organised in five modules:

- `dispatch.dfy` (`Dispatch`) holds three things:
  - the print rate and remainder;
  - the hook as the list of taps one iteration produces;
  - the taps one chain produces over a whole run, with the proof that they
    advance its bar by exactly the number of samples and close it exactly once.
- `chain_id.dfy` (`ChainId`) covers the `\d+$` search, including Python's `$`
  matching before a final newline. It also holds the decimal value read by
  `int()` and the decimal rendering of chain numbers.
- `progress_state.dfy` (`ProgressState`) holds the host-side state as values: the bars,
  each abstracted to position, total, count, description and closed flag, and
  the finished list. It also holds the two callbacks as transitions on that state, and
  what any sequential stream of taps does to it. This includes the end-to-end result for
  a full run under any interleaving of the chains.
- `progress_bar.dfy` (`ProgressBar`) is the factory's mutable state as a class.
  Its parts are:
  - the bars are an array indexed by chain;
  - the finished list is a sequence field;
  - the construction loop, `_update_tqdm`, `_close_tqdm` and the loop closing
    every bar are methods, each proved to perform the value-level transition
    of `ProgressState`.
- `decorator.dfy` (`Decorator`) is `wrapper_progress_bar`, with the wrapped body
  as a function parameter.

## Model

| member | source | states |
|---|---|---|
| Dispatch.PrintRate | blackjax/progress_bar.py:34-37 | the print rate is 1 for at most 20 samples; above that it is the truncated twentieth of the number of samples (20·rate ≤ n < 20·(rate+1)), so it is never 0 |
| Dispatch.Remainder | blackjax/progress_bar.py:39 | the remainder is below the print rate and completes the whole multiples of the print rate to the number of samples |
| Dispatch.MakeCadence | blackjax/progress_bar.py:34-39 | the cadence of the factory carries PrintRate(num_samples) and Remainder(num_samples): a rate of at least 1, and a remainder equal to num_samples modulo the rate and smaller than it |
| Dispatch.CadenceUpdateCount | blackjax/progress_bar.py:34-37 | the rate aims at twenty visible advances: one per iteration up to 20 samples, and between 20 and 39 cadence updates above that |
| Dispatch.HookTaps | blackjax/progress_bar.py:64-92 | the three checks are independent: the label update is tapped iff the iteration is 1, the rate update iff it is a multiple of the rate, the close iff it is the last iteration; nothing else is tapped, at most three taps fire, and the close comes last |
| Dispatch.HookAdvance | blackjax/progress_bar.py:69-92 | one iteration advances a bar by the rate on a multiple of it plus the remainder on the last iteration |
| Dispatch.HookCloses | blackjax/progress_bar.py:85-92 | one iteration taps the closing callback exactly when it is the last |
| Dispatch.HookLabels | blackjax/progress_bar.py:69-76 | one iteration taps the label-only update exactly when it is iteration 1 |
| Dispatch.HookRateUpdates | blackjax/progress_bar.py:77-84 | one iteration taps the rate update exactly when it is a multiple of the rate |
| Dispatch.ScheduleAdvanceBeforeEnd | blackjax/progress_bar.py:77-84 | before the last iteration, iterations 1..k have advanced a chain's bar by k rounded down to a multiple of the rate |
| Dispatch.ScheduleClosesBeforeEnd | blackjax/progress_bar.py:85-92 | before the last iteration a chain has not closed |
| Dispatch.ScheduleLabels | blackjax/progress_bar.py:69-76 | over iterations 1..k the label-only update fires once if k ≥ 1, never otherwise |
| Dispatch.ScheduleRateUpdates | blackjax/progress_bar.py:77-84 | over iterations 1..k the rate update fires k / rate times (truncated) |
| Dispatch.ScheduleComplete | blackjax/progress_bar.py:69-92 | for any cadence whose remainder is n modulo the rate, one chain's advances over iterations 1..n add up to exactly n |
| Dispatch.ScheduleClosesOnce | blackjax/progress_bar.py:85-92 | over a whole run each chain taps the closing callback exactly once |
| Dispatch.ScheduleTotal | blackjax/progress_bar.py:34-39 | for the factory's own cadence, a chain's taps over a run total num_samples and close once |
| Dispatch.ScheduleEndsWithClose | blackjax/progress_bar.py:85-92 | the last tap of a chain's run is the close of iteration num_samples, carrying the remainder |
| Dispatch.ZeroBasedCloses | blackjax/progress_bar.py:85-92 | a scan over 0..num_samples-1, the range the decorator's docstring (lines 96-99) describes, never taps the closing callback |
| Dispatch.ZeroBasedAdvance | blackjax/progress_bar.py:77-84 | a scan over 0..num_samples-1 advances a bar by rate + (n-1) - (n-1) mod rate, since iteration 0 is a multiple of every rate |
| Dispatch.ZeroBasedExample | blackjax/progress_bar.py:77-92 | 47 samples scanned over 0..46 advance a bar by 48 and never close it |
| Dispatch.CadenceExamples | blackjax/progress_bar.py:34-92 | 5 samples: rate 1, remainder 0, the taps at iterations 1 and 5; 47 samples: rate 2, remainder 1, the taps at iterations 1, 46 and 47 |
| ChainId.DecimalString | blackjax/progress_bar.py:51 | the rendering of a chain number is a non-empty run of digits without a leading zero |
| ChainId.DecimalRoundTrip | blackjax/progress_bar.py:50-51 | reading back a rendered chain number with `int()` gives that number |
| ChainId.LeadingZero | blackjax/progress_bar.py:50 | `int()` of the matched digits ignores a leading zero, so "TFRT_CPU_03" resolves to chain 3 |
| ChainId.TrailingDigits | blackjax/progress_bar.py:27 | the digits found are a suffix, all digits, and maximal (the character before them is not a digit) |
| ChainId.MatchSubject | blackjax/progress_bar.py:27 | the digits are sought at the end of the string less its final newline when it ends in one, and at the end of the whole string otherwise, as `$` allows |
| ChainId.ParseChain | blackjax/progress_bar.py:48-50 | a chain is found iff the device string ends in a digit, or in a digit followed by a newline; otherwise the assertion fails |
| ChainId.TrailingDigitsOf | blackjax/progress_bar.py:27 | after a prefix not ending in a digit, the trailing run found is exactly the digits that follow it |
| ChainId.ParseChainOf | blackjax/progress_bar.py:48-50 | a device string made of a prefix not ending in a digit and a run of digits (possibly followed by a newline) resolves to the value of that run |
| ChainId.ParseChainOfName | blackjax/progress_bar.py:55-57 | naming a device after its chain number recovers that chain |
| ChainId.ParseChainDeviceExample | blackjax/progress_bar.py:27 | "TFRT_CPU_3" resolves to chain 3 |
| ChainId.ParseChainNoDigitsExample | blackjax/progress_bar.py:48-49 | "cpu" resolves to no chain, so the assertion fails |
| ProgressState.Initial | blackjax/progress_bar.py:41-45 | one bar per chain, at its chain's position, over num_samples, count 0, labelled "Compiling.. ", open; no chain finished |
| ProgressState.Updated | blackjax/progress_bar.py:51-52 | the addressed bar is relabelled "Warmup <chain>" and advanced by the amount; everything else about it, every other bar and the finished list are unchanged |
| ProgressState.CloseAll | blackjax/progress_bar.py:61-62 | every bar is closed and nothing else about any bar changes |
| ProgressState.Closed | blackjax/progress_bar.py:58-62 | the addressed bar is advanced and no other count changes; the chain is appended to the finished list; every bar is closed iff it was or the list has just reached the number of chains; labels and positions are kept |
| ProgressState.RunCount | blackjax/progress_bar.py:52 | after any stream of taps a bar's count is its start plus the amounts of the taps addressed to its chain |
| ProgressState.RunDescription | blackjax/progress_bar.py:51 | a bar reads "Warmup <chain>" after a stream iff its chain received an update, and keeps its label otherwise |
| ProgressState.RunFinished | blackjax/progress_bar.py:59 | the finished list is the initial one followed by the chains of the closing taps, in order |
| ProgressState.RunClosed | blackjax/progress_bar.py:60-62 | a bar is closed after a stream iff it was before, or the finished list reached the number of chains during the stream |
| ProgressState.RunFirings | blackjax/progress_bar.py:60-62 | the loop closing every bar runs at most once over any stream, exactly when the finished list reaches the number of chains |
| ProgressState.ClosedChainsCount | blackjax/progress_bar.py:59 | each chain occurs on the finished list as often as its own taps close |
| ProgressState.ClosesPerChainTotal | blackjax/progress_bar.py:59 | the closing taps counted chain by chain are all the closing taps of a stream addressed to the chains |
| ProgressState.UpdatesAtLeastLabels | blackjax/progress_bar.py:69-76 | a chain that received the label-only update has received an update |
| ProgressState.LastTapCloses | blackjax/progress_bar.py:85-92 | when every chain's taps are a whole run's schedule, the last tap of the stream, whatever the interleaving, is a close |
| ProgressState.ClosingLoopAtLastTap | blackjax/progress_bar.py:58-62 | in a whole run the loop closing every bar has not run before the stream's last tap, so no update reaches a closed bar |
| ProgressState.FullRun | blackjax/progress_bar.py:41-92 | under any interleaving in which every chain's taps are the schedule of iterations 1..num_samples, every bar ends at count num_samples, labelled "Warmup <chain>", closed; every chain is on the finished list exactly once; the closing loop ran once, at the last tap |
| ProgressState.ZeroBasedFullRun | blackjax/progress_bar.py:58-62 | when the chains scan 0..num_samples-1 instead, under any interleaving the finished list stays empty, the closing loop never runs, no bar is closed, and each bar ends at the zero-based schedule's advance |
| ProgressState.RepeatedCloseClosesEarly | blackjax/progress_bar.py:59-62 | the finished list is a list, not a set: with two chains, chain 0 closing twice closes every bar although chain 1 never advanced |
| ProgressBar.ProgressBarScan.constructor | blackjax/progress_bar.py:41-45 | the construction loop leaves one fresh bar per chain in a new array, the factory's cadence, and an empty finished list (the state Initial) |
| ProgressBar.ProgressBarScan.UpdateTqdm | blackjax/progress_bar.py:47-52 | the assertion fails iff the device has no trailing chain number, and then nothing changes; otherwise the bars become Updated for the parsed chain |
| ProgressBar.ProgressBarScan.UpdateChain | blackjax/progress_bar.py:51-52 | relabelling and advancing in place yield the state Updated |
| ProgressBar.ProgressBarScan.CloseTqdm | blackjax/progress_bar.py:54-62 | the assertion fails iff the device has no trailing chain number, and then nothing changes; otherwise bars and finished list become Closed for the parsed chain |
| ProgressBar.ProgressBarScan.CloseChain | blackjax/progress_bar.py:58-62 | advancing, appending and the conditional closing loop in place yield the state Closed |
| ProgressBar.ProgressBarScan.CloseAllBars | blackjax/progress_bar.py:61-62 | the loop over range(num_chains) closes every bar in place and changes nothing else about them |
| Decorator.WrapperProgressBar | blackjax/progress_bar.py:102-109 | the iteration number is the first element of a tuple step argument or the argument itself; the hook's taps are those of that iteration; the result is exactly func(carry, x) |

## Left out

- tqdm itself is not part of this model. A bar is abstracted to its position, total, count, description and closed flag. Rendering, `refresh`, terminal positioning and tqdm's `": "` description suffix are not modelled.
- tqdm ignores `update` on a closed bar. The model adds the amount regardless, because tqdm's own code is not part of this model. In a full run no update reaches a closed bar (ClosingLoopAtLastTap). A stream that keeps tapping after the bars close, such as RepeatedCloseClosesEarly, is counted where tqdm would not count it.
- The runs of the model take the scan over iterations 1..num_samples, the range the hook's conditions at lines 70 and 86 assume. The decorator's docstring (lines 96-99) describes 0..num_samples-1 instead. Under that range the bars are never closed (see Findings).
- `host_callback.id_tap` with `tap_with_device=True` and the `lax.cond` tracing are not modelled. The hook returns the list of taps it would make, and the device reaches the callbacks as its string rendering (`str(device)`).
- The callbacks of different chains arriving concurrently is not modelled. The host sees one sequential stream of taps. FullRun holds for every interleaving whose per-chain projection is the schedule.
- PrintRate: computes `num_samples / 20` as exact integer division. The source truncates a floating-point quotient, and the two differ only for sample counts beyond double precision (about 2^53).
- ChainId.ParseChain: `\d` is taken as the ASCII digits. Python's `\d` on `str` also matches other Unicode decimal digits.
- ProgressBar.ProgressBarScan.UpdateTqdm: requires a parsed chain below num_chains. The source would raise `KeyError` at `tqdm_bars[chain]` instead.
- ProgressBar.ProgressBarScan.CloseTqdm: requires a parsed chain below num_chains. The source would raise `KeyError` at `tqdm_bars[chain]` instead.
- Decorator.WrapperProgressBar: a step argument that is an empty tuple has no first element and raises in the source. The model's tuple always carries one.
- The body `func` wrapped by the decorator is a function parameter and is not analysed.
- The `fastprogress` import and the repeated `jax` imports are unused, and are not modelled.

## Findings

| source | as written | input that shows it | evidently intended | confidence | as-written member | corrected member |
|---|---|---|---|---|---|---|
| blackjax/progress_bar.py:85-86, 96-99 | the docstring has the wrapped body loop over `np.arange(num_samples)`, so iter_num runs 0..num_samples-1, while the close fires only at `iter_num == num_samples` and the rate update also fires at iteration 0 | num_samples = 47, x = np.arange(47): each bar advances by 48 and no bar is ever closed; finished_chains stays empty | each chain's last iteration flushes the remainder and closes its bar, so every bar ends at num_samples, closed | medium: not executed, and the callers that build the scanned range are not part of this model | Dispatch.ZeroBasedExample, ProgressState.ZeroBasedFullRun | Dispatch.ScheduleTotal, ProgressState.FullRun |
