/** facebook/collection_runner.py: the bounded multi-round collection loop. The callbacks are functions of the round
    they are called in, so they may answer differently every time; None or false is a callback that raises. */
module CollectionLoop {
  import opened Options

  type Item = string

  const STAGNANT_STOP: nat := 3

  /** scroll_action: None is the empty dict, otherwise whether the page moved. */
  type Action = Option<bool>

  datatype Context = Context(
    index: nat, items: seq<Item>, count: nat, added: int, stagnant: nat, action: Action, rounds: nat)

  /** capture and restore are None when not provided. should_stop is asked before and after the scroll. */
  datatype Callbacks = Callbacks(
    capture: Option<bool>,
    restore: Option<bool>,
    collect: nat -> Option<seq<Item>>,
    merge: (nat, seq<Item>, seq<Item>) -> Option<(seq<Item>, int)>,
    metrics: nat -> bool,
    stopBefore: (nat, Context) -> Option<bool>,
    stopAfter: (nat, Context) -> Option<bool>,
    shouldScroll: (nat, Context) -> Option<bool>,
    scroll: nat -> Option<Action>,
    stats: (nat, Context) -> bool,
    wait: nat -> bool)

  datatype Event = Captured | Collected(round: nat) | Scrolled(round: nat) | Waited(round: nat) | Restored

  /** What a run has gathered: items, the length of the stagnant streak, one context per round, and the calls made. */
  datatype Progress = Progress(items: seq<Item>, stagnant: nat, stats: seq<Context>, trace: seq<Event>)

  const NOTHING := Progress([], 0, [], [])

  /** max(rounds, 0) */
  function ScrollRounds(rounds: int): nat {
    if rounds > 0 then rounds else 0
  }

  predicate DefaultStopRequested(c: Context, target: int) {
    || c.index >= c.rounds
    || c.count >= target
    || c.action == Some(false)
    || c.stagnant >= STAGNANT_STOP
  }

  predicate DefaultScrollAllowed(c: Context, target: int) {
    c.index < c.rounds && c.count < target
  }

  // ---- what one round and a whole run do ----

  datatype RoundEnd = Raised | Stopped | Continues

  function Log(p: Progress, e: Event): Progress {
    p.(trace := p.trace + [e])
  }

  /** Collecting and merging one round's items: the context the hooks see, unless a callback raises. */
  function Gather(cb: Callbacks, rounds: int, i: nat, p: Progress): Option<(Progress, Context)> {
    var items := cb.collect(i);
    if items == None then None
    else
      var merged := cb.merge(i, p.items, items.value);
      if merged == None || !cb.metrics(i) then None
      else
        var stagnant := if merged.value.1 == 0 then p.stagnant + 1 else 0;
        Some((p.(items := merged.value.0, stagnant := stagnant),
              Context(i, items.value, |merged.value.0|, merged.value.1, stagnant, None, ScrollRounds(rounds))))
  }

  /** Whether the round scrolls: the hooks are asked only as far as needed. */
  function ScrollWanted(cb: Callbacks, target: int, i: nat, c: Context, stop: bool): Option<bool> {
    if stop || !DefaultScrollAllowed(c, target) then Some(false) else cb.shouldScroll(i, c)
  }

  /** One round, from the collect callback to the wait. */
  function Round(cb: Callbacks, rounds: int, target: int, i: nat, p: Progress): (Progress, RoundEnd) {
    var started := Log(p, Collected(i));
    var gathered := Gather(cb, rounds, i, started);
    if gathered == None then (started, Raised)
    else Decide(cb, target, i, gathered.value.0, gathered.value.1)
  }

  function Decide(cb: Callbacks, target: int, i: nat, p: Progress, c: Context): (Progress, RoundEnd) {
    var stop := cb.stopBefore(i, c);
    if stop == None then (p, Raised)
    else
      var wanted := ScrollWanted(cb, target, i, c, stop.value);
      if wanted == None then (p, Raised)
      else if !wanted.value then Finish(cb, target, i, p, c, stop.value)
      else if cb.scroll(i) == None then (Log(p, Scrolled(i)), Raised)
      else Finish(cb, target, i, Log(p, Scrolled(i)), c.(action := cb.scroll(i).value), stop.value)
  }

  function Finish(cb: Callbacks, target: int, i: nat, p: Progress, c: Context, stop: bool): (Progress, RoundEnd) {
    if !cb.stats(i, c) then (p, Raised)
    else
      var counted := p.(stats := p.stats + [c]);
      if stop || DefaultStopRequested(c, target) then (counted, Stopped)
      else
        match cb.stopAfter(i, c)
        case None => (counted, Raised)
        case Some(true) => (counted, Stopped)
        case Some(false) => (Log(counted, Waited(i)), if cb.wait(i) then Continues else Raised)
  }

  /** The rounds from round i on; true when no callback raised. */
  function RoundsFrom(cb: Callbacks, rounds: int, target: int, i: nat, p: Progress): (Progress, bool)
    decreases ScrollRounds(rounds) + 1 - i
  {
    if i > ScrollRounds(rounds) then (p, true)
    else
      var (next, end) := Round(cb, rounds, target, i, p);
      if end == Continues then RoundsFrom(cb, rounds, target, i + 1, next) else (next, end == Stopped)
  }

  /** The whole run: snapshot, rounds, and the restore that also follows a raise. */
  function Run(cb: Callbacks, rounds: int, target: int): (Progress, bool) {
    if cb.capture == Some(false) then (Log(NOTHING, Captured), false)
    else if cb.capture == None then RoundsFrom(cb, rounds, target, 0, NOTHING)
    else
      var (p, ok) := RoundsFrom(cb, rounds, target, 0, Log(NOTHING, Captured));
      if cb.restore == None then (p, ok) else (Log(p, Restored), ok && cb.restore == Some(true))
  }

  // ---- the loop itself ----

  /** The body of the for loop, up to the decision whether to go on. */
  method CollectRound(cb: Callbacks, rounds: int, target: int, i: nat, p: Progress)
    returns (next: Progress, end: RoundEnd)
    ensures (next, end) == Round(cb, rounds, target, i, p)
  {
    next := Log(p, Collected(i));
    var items := cb.collect(i);
    if items == None {
      return next, Raised;
    }
    var merged := cb.merge(i, next.items, items.value);
    if merged == None || !cb.metrics(i) {
      return next, Raised;
    }
    var (collected, added) := merged.value;
    next := next.(items := collected, stagnant := if added == 0 then next.stagnant + 1 else 0);
    var context := Context(i, items.value, |collected|, added, next.stagnant, None, ScrollRounds(rounds));
    var stopBefore := cb.stopBefore(i, context);
    if stopBefore == None {
      return next, Raised;
    }
    if !stopBefore.value && DefaultScrollAllowed(context, target) {
      var scrolls := cb.shouldScroll(i, context);
      if scrolls == None {
        return next, Raised;
      }
      if scrolls.value {
        next := Log(next, Scrolled(i));
        var action := cb.scroll(i);
        if action == None {
          return next, Raised;
        }
        context := context.(action := action.value);
      }
    }
    if !cb.stats(i, context) {
      return next, Raised;
    }
    next := next.(stats := next.stats + [context]);
    if stopBefore.value || DefaultStopRequested(context, target) {
      return next, Stopped;
    }
    var stopAfter := cb.stopAfter(i, context);
    if stopAfter == None {
      return next, Raised;
    }
    if stopAfter.value {
      return next, Stopped;
    }
    next := Log(next, Waited(i));
    return next, if cb.wait(i) then Continues else Raised;
  }

  /** run_collection_loop and run_collection_loop_async. */
  method RunCollectionLoop(cb: Callbacks, rounds: int, target: int) returns (result: Progress, ok: bool)
    ensures (result, ok) == Run(cb, rounds, target)
  {
    result, ok := NOTHING, true;
    var snapshotCaptured := false;
    if cb.capture.Some? {
      result := Log(result, Captured);
      ok := cb.capture.value;
      snapshotCaptured := ok;
    }
    if ok {
      ghost var start := result;
      var i := 0;
      while i <= ScrollRounds(rounds)
        invariant RoundsFrom(cb, rounds, target, i, result) == RoundsFrom(cb, rounds, target, 0, start)
        invariant ok
      {
        var end;
        RoundsUnfold(cb, rounds, target, i, result);
        result, end := CollectRound(cb, rounds, target, i, result);
        if end != Continues {
          ok := end == Stopped;
          break;
        }
        i := i + 1;
      }
    }
    if snapshotCaptured && cb.restore.Some? {
      result := Log(result, Restored);
      ok := ok && cb.restore.value;
    }
  }

  // ---- properties of every run ----

  /** The collect and wait calls of a trace, in order. */
  function Beats(trace: seq<Event>): seq<Event> {
    if trace == [] then []
    else
      var init, last := Beats(trace[..|trace| - 1]), trace[|trace| - 1];
      if last.Collected? || last.Waited? then init + [last] else init
  }

  /** collect 0, wait 0, collect 1, wait 1, ..., collect n - 1 */
  function Alternation(n: nat): seq<Event>
    decreases n, 0
  {
    if n == 0 then [] else Waiting(n - 1) + [Collected(n - 1)]
  }

  /** The same with a wait after every collect. */
  function Waiting(n: nat): seq<Event>
    decreases n, 1
  {
    if n == 0 then [] else Alternation(n) + [Waited(n - 1)]
  }

  lemma BeatsLog(trace: seq<Event>, e: Event)
    ensures e.Collected? || e.Waited? ==> Beats(trace + [e]) == Beats(trace) + [e]
    ensures !e.Collected? && !e.Waited? ==> Beats(trace + [e]) == Beats(trace)
  {
    assert (trace + [e])[..|trace|] == trace;
  }

  /** merge_items never shrinks the collected list and reports growth only when there was some. */
  ghost predicate ReportsGrowth(cb: Callbacks) {
    forall i, old_, items :: cb.merge(i, old_, items).Some? ==>
      var (new_, added) := cb.merge(i, old_, items).value;
      |new_| >= |old_| && (added != 0 ==> |new_| > |old_|)
  }

  /** The calls of n rounds, the last of which ended this way. */
  ghost predicate EndedAfter(trace: seq<Event>, n: nat, end: RoundEnd) {
    && Restored !in trace
    && (Beats(trace) == Alternation(n) || Beats(trace) == Waiting(n))
    && (end == Stopped ==> Beats(trace) == Alternation(n))
    && (end == Continues ==> Beats(trace) == Waiting(n))
  }

  lemma FinishBeats(cb: Callbacks, target: int, i: nat, p: Progress, c: Context, stop: bool)
    requires EndedAfter(p.trace, i + 1, Stopped)
    ensures
      var (next, end) := Finish(cb, target, i, p, c, stop);
      EndedAfter(next.trace, i + 1, end)
  {
    BeatsLog(p.trace, Waited(i));
  }

  lemma DecideBeats(cb: Callbacks, target: int, i: nat, p: Progress, c: Context)
    requires EndedAfter(p.trace, i + 1, Stopped)
    ensures
      var (next, end) := Decide(cb, target, i, p, c);
      EndedAfter(next.trace, i + 1, end)
  {
    BeatsLog(p.trace, Scrolled(i));
    var stop := cb.stopBefore(i, c);
    if stop.Some? {
      FinishBeats(cb, target, i, p, c, stop.value);
      if cb.scroll(i).Some? {
        FinishBeats(cb, target, i, Log(p, Scrolled(i)), c.(action := cb.scroll(i).value), stop.value);
      }
    }
  }

  /** A round begins with its collect call and waits just when it lets the loop go on or the wait raises. */
  lemma RoundBeats(cb: Callbacks, rounds: int, target: int, i: nat, p: Progress)
    requires Restored !in p.trace && Beats(p.trace) == Waiting(i)
    ensures
      var (next, end) := Round(cb, rounds, target, i, p);
      EndedAfter(next.trace, i + 1, end)
  {
    BeatsLog(p.trace, Collected(i));
    var started := Log(p, Collected(i));
    assert EndedAfter(started.trace, i + 1, Stopped);
    var gathered := Gather(cb, rounds, i, started);
    if gathered.Some? {
      DecideBeats(cb, target, i, gathered.value.0, gathered.value.1);
    }
  }

  /** Before round i: every round that went on grew the list or lengthened the streak. */
  ghost predicate Paced(i: nat, target: int, p: Progress) {
    |p.items| < target && p.stagnant < STAGNANT_STOP && i <= STAGNANT_STOP * |p.items| + p.stagnant
  }

  lemma RoundKeepsPace(cb: Callbacks, rounds: int, target: int, i: nat, p: Progress)
    requires ReportsGrowth(cb) && Round(cb, rounds, target, i, p).1 == Continues
    requires target >= 1 ==> Paced(i, target, p)
    ensures target >= 1 && Paced(i + 1, target, Round(cb, rounds, target, i, p).0)
  {
  }

  lemma ContinuesBelowLimit(cb: Callbacks, rounds: int, target: int, i: nat, p: Progress)
    requires Round(cb, rounds, target, i, p).1 == Continues
    ensures i < ScrollRounds(rounds)
  {
  }

  /** A bound on the rounds that does not come from the rounds argument. */
  function PaceLimit(target: int): nat {
    if target >= 1 then STAGNANT_STOP * target else 1
  }

  /** The calls of a run of n rounds. */
  ghost predicate RanRounds(trace: seq<Event>, n: nat, ok: bool) {
    Beats(trace) == Alternation(n) || (!ok && Beats(trace) == Waiting(n))
  }

  /** How many rounds a run from round i on has altogether. */
  function RoundCount(cb: Callbacks, rounds: int, target: int, i: nat, p: Progress): nat
    decreases ScrollRounds(rounds) + 1 - i
  {
    if i > ScrollRounds(rounds) then i
    else
      var (next, end) := Round(cb, rounds, target, i, p);
      if end == Continues then RoundCount(cb, rounds, target, i + 1, next) else i + 1
  }

  lemma RoundsUnfold(cb: Callbacks, rounds: int, target: int, i: nat, p: Progress)
    requires i <= ScrollRounds(rounds)
    ensures
      var (next, end) := Round(cb, rounds, target, i, p);
      RoundsFrom(cb, rounds, target, i, p) ==
      if end == Continues then RoundsFrom(cb, rounds, target, i + 1, next) else (next, end == Stopped)
  {
  }

  lemma CountUnfold(cb: Callbacks, rounds: int, target: int, i: nat, p: Progress)
    requires i <= ScrollRounds(rounds)
    ensures
      var (next, end) := Round(cb, rounds, target, i, p);
      RoundCount(cb, rounds, target, i, p) ==
      if end == Continues then RoundCount(cb, rounds, target, i + 1, next) else i + 1
  {
  }

  lemma {:induction false} CountIsBounded(cb: Callbacks, rounds: int, target: int, i: nat, p: Progress)
    requires i <= ScrollRounds(rounds)
    requires ReportsGrowth(cb) ==> if target >= 1 then Paced(i, target, p) else i == 0
    ensures i < RoundCount(cb, rounds, target, i, p) <= ScrollRounds(rounds) + 1
    ensures ReportsGrowth(cb) ==> RoundCount(cb, rounds, target, i, p) <= PaceLimit(target)
    decreases ScrollRounds(rounds) - i
  {
    var (next, end) := Round(cb, rounds, target, i, p);
    CountUnfold(cb, rounds, target, i, p);
    if end == Continues {
      ContinuesBelowLimit(cb, rounds, target, i, p);
      if ReportsGrowth(cb) {
        RoundKeepsPace(cb, rounds, target, i, p);
      }
      CountIsBounded(cb, rounds, target, i + 1, next);
    }
  }

  lemma {:induction false} RoundsShape(cb: Callbacks, rounds: int, target: int, i: nat, p: Progress)
    requires i <= ScrollRounds(rounds) && Beats(p.trace) == Waiting(i) && Restored !in p.trace
    ensures
      var (result, ok) := RoundsFrom(cb, rounds, target, i, p);
      RanRounds(result.trace, RoundCount(cb, rounds, target, i, p), ok) && Restored !in result.trace
    decreases ScrollRounds(rounds) - i
  {
    RoundBeats(cb, rounds, target, i, p);
    var (next, end) := Round(cb, rounds, target, i, p);
    RoundsUnfold(cb, rounds, target, i, p);
    CountUnfold(cb, rounds, target, i, p);
    if end == Continues {
      ContinuesBelowLimit(cb, rounds, target, i, p);
      RoundsShape(cb, rounds, target, i + 1, next);
    }
  }

  /** Where the rounds of a run start, unless the snapshot raised. */
  function Begin(cb: Callbacks): Progress {
    if cb.capture.Some? then Log(NOTHING, Captured) else NOTHING
  }

  lemma BeginIsReady(cb: Callbacks)
    ensures Begin(cb).items == [] && Begin(cb).stagnant == 0
    ensures Beats(Begin(cb).trace) == Waiting(0) && Restored !in Begin(cb).trace
  {
    BeatsLog(NOTHING.trace, Captured);
  }

  lemma BeginRounds(cb: Callbacks, rounds: int, target: int) returns (n: nat)
    ensures 1 <= n <= ScrollRounds(rounds) + 1
    ensures ReportsGrowth(cb) ==> n <= PaceLimit(target)
    ensures
      var (result, ok) := RoundsFrom(cb, rounds, target, 0, Begin(cb));
      RanRounds(result.trace, n, ok) && Restored !in result.trace
  {
    BeginIsReady(cb);
    n := RoundCount(cb, rounds, target, 0, Begin(cb));
    CountIsBounded(cb, rounds, target, 0, Begin(cb));
    RoundsShape(cb, rounds, target, 0, Begin(cb));
  }

  /** Main result: a run has at most max(rounds, 0) + 1 rounds and, when the merge reports growth, at most three
      per wanted item; and it waits exactly once between rounds. */
  lemma RunIsBounded(cb: Callbacks, rounds: int, target: int) returns (n: nat)
    ensures n <= ScrollRounds(rounds) + 1
    ensures ReportsGrowth(cb) ==> n <= PaceLimit(target)
    ensures RanRounds(Run(cb, rounds, target).0.trace, n, Run(cb, rounds, target).1)
    ensures Run(cb, rounds, target).1 ==> n >= 1
  {
    n := BeginRounds(cb, rounds, target);
    BeatsLog(RoundsFrom(cb, rounds, target, 0, Begin(cb)).0.trace, Restored);
    if cb.capture == Some(false) {
      BeatsLog(NOTHING.trace, Captured);
      n := 0;
    }
  }

  /** Main result: a captured snapshot is restored exactly once, as the last call, whether or not a callback
      raised; nothing else restores. */
  lemma RestoresOnce(cb: Callbacks, rounds: int, target: int)
    ensures
      var trace := Run(cb, rounds, target).0.trace;
      if cb.capture == Some(true) && cb.restore.Some? then
        exists before :: Restored !in before && trace == before + [Restored]
      else Restored !in trace
  {
    var n := BeginRounds(cb, rounds, target);
    var before := RoundsFrom(cb, rounds, target, 0, Begin(cb)).0.trace;
    if cb.capture == Some(false) {
      assert Run(cb, rounds, target).0.trace == [Captured];
    } else if cb.capture == Some(true) && cb.restore.Some? {
      assert Restored !in before && Run(cb, rounds, target).0.trace == before + [Restored];
    } else if cb.capture == None {
      assert Begin(cb) == NOTHING;
      assert Run(cb, rounds, target).0.trace == before;
    } else {
      assert cb.capture.value && cb.restore == None;
      assert Run(cb, rounds, target).0.trace == before;
    }
  }

  /** Callbacks that never raise, stop or scroll, around a given merge. */
  function Quiet(merge: (nat, seq<Item>, seq<Item>) -> Option<(seq<Item>, int)>): Callbacks {
    Callbacks(None, None, (i: nat) => Some([]), merge, (i: nat) => true,
              (i: nat, c: Context) => Some(false), (i: nat, c: Context) => Some(false),
              (i: nat, c: Context) => Some(false), (i: nat) => Some(None), (i: nat, c: Context) => true,
              (i: nat) => true)
  }

  /** One new item every third round, truthfully reported. */
  function SlowMerge(i: nat, collected: seq<Item>, items: seq<Item>): Option<(seq<Item>, int)> {
    if i % 3 == 2 then Some((collected + ["item"], 1)) else Some((collected, 0))
  }

  /** Nothing is ever kept, yet each round reports a new item. */
  function EmptyMerge(i: nat, collected: seq<Item>, items: seq<Item>): Option<(seq<Item>, int)> {
    Some((collected, 1))
  }

  lemma SlowRound(rounds: int, target: int, i: nat, p: Progress)
    requires i < 3 * target && 3 * target - 1 <= rounds && |p.items| == i / 3 && p.stagnant == i % 3
    ensures
      var (next, end) := Round(Quiet(SlowMerge), rounds, target, i, p);
      && |next.items| == (i + 1) / 3 && next.stagnant == (i + 1) % 3
      && end == if i + 1 < 3 * target then Continues else Stopped
  {
  }

  lemma {:induction false} SlowRounds(rounds: int, target: int, i: nat, p: Progress)
    requires i < 3 * target && 3 * target - 1 <= rounds && |p.items| == i / 3 && p.stagnant == i % 3
    requires Beats(p.trace) == Waiting(i) && Restored !in p.trace
    ensures Beats(RoundsFrom(Quiet(SlowMerge), rounds, target, i, p).0.trace) == Alternation(3 * target)
    decreases 3 * target - i
  {
    RoundBeats(Quiet(SlowMerge), rounds, target, i, p);
    RoundsUnfold(Quiet(SlowMerge), rounds, target, i, p);
    SlowRound(rounds, target, i, p);
    if i + 1 < 3 * target {
      SlowRounds(rounds, target, i + 1, Round(Quiet(SlowMerge), rounds, target, i, p).0);
    }
  }

  lemma EmptyRound(rounds: int, target: int, i: nat, p: Progress)
    requires target >= 1 && i <= rounds && |p.items| == 0
    ensures
      var (next, end) := Round(Quiet(EmptyMerge), rounds, target, i, p);
      |next.items| == 0 && end == if i < rounds then Continues else Stopped
  {
  }

  lemma {:induction false} EmptyRounds(rounds: int, target: int, i: nat, p: Progress)
    requires target >= 1 && i <= rounds && |p.items| == 0 && Beats(p.trace) == Waiting(i) && Restored !in p.trace
    ensures Beats(RoundsFrom(Quiet(EmptyMerge), rounds, target, i, p).0.trace) == Alternation(rounds + 1)
    decreases rounds - i
  {
    RoundBeats(Quiet(EmptyMerge), rounds, target, i, p);
    RoundsUnfold(Quiet(EmptyMerge), rounds, target, i, p);
    EmptyRound(rounds, target, i, p);
    if i < rounds {
      EmptyRounds(rounds, target, i + 1, Round(Quiet(EmptyMerge), rounds, target, i, p).0);
    }
  }

  /** Both bounds are sharp: with room for them a truthful merge can take three rounds per wanted item, and a merge
      that reports growth it does not make runs all rounds there are. */
  lemma BoundsAreReached(rounds: nat, target: int)
    requires target >= 1
    ensures ReportsGrowth(Quiet(SlowMerge))
    ensures PaceLimit(target) <= rounds + 1 ==>
              Beats(Run(Quiet(SlowMerge), rounds, target).0.trace) == Alternation(PaceLimit(target))
    ensures Beats(Run(Quiet(EmptyMerge), rounds, target).0.trace) == Alternation(rounds + 1)
  {
    if PaceLimit(target) <= rounds + 1 {
      SlowRounds(rounds, target, 0, NOTHING);
    }
    EmptyRounds(rounds, target, 0, NOTHING);
  }
}