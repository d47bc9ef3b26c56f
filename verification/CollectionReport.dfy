/** What a collection run reports: every round's numbers, when it scrolled, why it went on and why it ended. */
module CollectionReport {
  import opened Options
  import opened CollectionLoop

  // ---- the rounds, from the callbacks alone ----

  /** The list after the merges of the first n rounds. */
  function ItemsAfter(cb: Callbacks, n: nat): seq<Item>
    decreases n, 0
  {
    if n == 0 then []
    else
      match Merge(cb, n - 1)
      case None => ItemsAfter(cb, n - 1)
      case Some(m) => m.0
  }

  /** What round i's merge answers: the new list and the growth it reports. */
  function Merge(cb: Callbacks, i: nat): Option<(seq<Item>, int)>
    decreases i, 1
  {
    if cb.collect(i).None? then None else cb.merge(i, ItemsAfter(cb, i), cb.collect(i).value)
  }

  /** How many rounds in a row, ending with round n - 1, reported no growth. */
  function StagnantAfter(cb: Callbacks, n: nat): nat {
    if n == 0 || Merge(cb, n - 1).None? || Merge(cb, n - 1).value.1 != 0 then 0 else StagnantAfter(cb, n - 1) + 1
  }

  /** The context round j must report, before any scroll. */
  ghost predicate Numbers(cb: Callbacks, rounds: int, c: Context, j: nat) {
    && c.index == j && c.rounds == (if rounds > 0 then rounds else 0)
    && cb.collect(j) == Some(c.items)
    && Merge(cb, j) == Some((ItemsAfter(cb, j + 1), c.added))
    && c.count == |ItemsAfter(cb, j + 1)|
    && c.stagnant == StagnantAfter(cb, j + 1)
  }

  /** The round may scroll: not at the last index, not with enough items, and neither hook against it. */
  ghost predicate MayScroll(cb: Callbacks, target: int, c: Context, j: nat) {
    && cb.stopBefore(j, c.(action := None)) == Some(false)
    && c.index < c.rounds && c.count < target
    && cb.shouldScroll(j, c.(action := None)) == Some(true)
  }

  /** The round scrolled exactly when it may, and reports what the scroll did. */
  ghost predicate ScrollTold(cb: Callbacks, target: int, c: Context, j: nat, trace: seq<Event>) {
    && (Scrolled(j) in trace <==> MayScroll(cb, target, c, j))
    && (if MayScroll(cb, target, c, j) then cb.scroll(j) == Some(c.action) else c.action == None)
  }

  /** Nothing stops the loop after this round: rounds left, items wanted, a scroll that moved if there was one, fewer
      than three stagnant rounds, and both stop hooks silent. */
  ghost predicate GoesOn(cb: Callbacks, target: int, c: Context, j: nat) {
    && c.index < c.rounds && c.count < target && c.action != Some(false) && c.stagnant < 3
    && cb.stopBefore(j, c.(action := None)) == Some(false)
    && cb.stopAfter(j, c) == Some(false)
  }

  /** The reason a run ends without a raise. */
  ghost predicate EndsHere(cb: Callbacks, target: int, c: Context, j: nat) {
    || c.index >= c.rounds || c.count >= target || c.action == Some(false) || c.stagnant >= 3
    || cb.stopBefore(j, c.(action := None)) == Some(true)
    || cb.stopAfter(j, c) == Some(true)
  }

  /** The reports of all rounds so far. */
  ghost predicate Told(cb: Callbacks, rounds: int, target: int, stats: seq<Context>, trace: seq<Event>) {
    forall j :: 0 <= j < |stats| ==> Numbers(cb, rounds, stats[j], j) && ScrollTold(cb, target, stats[j], j, trace)
  }

  ghost predicate WentOn(cb: Callbacks, target: int, stats: seq<Context>, n: nat) {
    forall j :: 0 <= j < n && j < |stats| ==> GoesOn(cb, target, stats[j], j)
  }

  /** Before round i. */
  ghost predicate Ready(cb: Callbacks, rounds: int, target: int, i: nat, p: Progress) {
    && |p.stats| == i && p.items == ItemsAfter(cb, i) && p.stagnant == StagnantAfter(cb, i)
    && Told(cb, rounds, target, p.stats, p.trace) && WentOn(cb, target, p.stats, i)
    && forall j :: j >= i ==> Scrolled(j) !in p.trace
  }

  /** After round i, however it ended. */
  ghost predicate Over(cb: Callbacks, rounds: int, target: int, i: nat, p: Progress, end: RoundEnd) {
    && i <= |p.stats| <= i + 1
    && Told(cb, rounds, target, p.stats, p.trace) && WentOn(cb, target, p.stats, i)
    && (end == Stopped ==>
          |p.stats| == i + 1 && p.items == ItemsAfter(cb, i + 1) && EndsHere(cb, target, p.stats[i], i))
  }

  /** Calls other than scrolls of the rounds reported leave the reports true. */
  lemma TraceGrows(cb: Callbacks, rounds: int, target: int, stats: seq<Context>, trace: seq<Event>, e: Event)
    requires Told(cb, rounds, target, stats, trace)
    requires e.Scrolled? ==> e.round >= |stats|
    ensures Told(cb, rounds, target, stats, trace + [e])
  {
    forall j | 0 <= j < |stats|
      ensures Numbers(cb, rounds, stats[j], j) && ScrollTold(cb, target, stats[j], j, trace + [e])
    {
      assert Scrolled(j) in trace + [e] <==> Scrolled(j) in trace;
    }
  }

  lemma ReportAdded(cb: Callbacks, rounds: int, target: int, stats: seq<Context>, trace: seq<Event>, c: Context)
    requires Told(cb, rounds, target, stats, trace)
    requires Numbers(cb, rounds, c, |stats|) && ScrollTold(cb, target, c, |stats|, trace)
    ensures Told(cb, rounds, target, stats + [c], trace)
  {
  }

  // ---- one round ----

  /** In round i with its context gathered, or further on. */
  ghost predicate Inside(cb: Callbacks, rounds: int, target: int, i: nat, p: Progress, c: Context) {
    && |p.stats| == i && p.items == ItemsAfter(cb, i + 1) && p.stagnant == StagnantAfter(cb, i + 1)
    && Told(cb, rounds, target, p.stats, p.trace) && WentOn(cb, target, p.stats, i)
    && Numbers(cb, rounds, c, i)
    && forall j :: j > i ==> Scrolled(j) !in p.trace
  }

  lemma FinishTells(cb: Callbacks, rounds: int, target: int, i: nat, p: Progress, c: Context, stop: bool)
    requires Inside(cb, rounds, target, i, p, c) && ScrollTold(cb, target, c, i, p.trace)
    requires cb.stopBefore(i, c.(action := None)) == Some(stop)
    ensures
      var (next, end) := Finish(cb, target, i, p, c, stop);
      Over(cb, rounds, target, i, next, end) && (end == Continues ==> Ready(cb, rounds, target, i + 1, next))
  {
    ReportAdded(cb, rounds, target, p.stats, p.trace, c);
    TraceGrows(cb, rounds, target, p.stats + [c], p.trace, Waited(i));
  }

  lemma DecideTells(cb: Callbacks, rounds: int, target: int, i: nat, p: Progress, c: Context)
    requires Inside(cb, rounds, target, i, p, c) && c.action == None && Scrolled(i) !in p.trace
    ensures
      var (next, end) := Decide(cb, target, i, p, c);
      Over(cb, rounds, target, i, next, end) && (end == Continues ==> Ready(cb, rounds, target, i + 1, next))
  {
    var stop := cb.stopBefore(i, c);
    assert c.(action := None) == c;
    if stop.Some? {
      var wanted := ScrollWanted(cb, target, i, c, stop.value);
      TraceGrows(cb, rounds, target, p.stats, p.trace, Scrolled(i));
      if wanted == Some(false) {
        FinishTells(cb, rounds, target, i, p, c, stop.value);
      } else if wanted == Some(true) && cb.scroll(i).Some? {
        var moved := c.(action := cb.scroll(i).value);
        assert moved.(action := None) == c;
        FinishTells(cb, rounds, target, i, Log(p, Scrolled(i)), moved, stop.value);
      }
    }
  }

  lemma RoundTells(cb: Callbacks, rounds: int, target: int, i: nat, p: Progress)
    requires Ready(cb, rounds, target, i, p)
    ensures
      var (next, end) := Round(cb, rounds, target, i, p);
      Over(cb, rounds, target, i, next, end) && (end == Continues ==> Ready(cb, rounds, target, i + 1, next))
  {
    TraceGrows(cb, rounds, target, p.stats, p.trace, Collected(i));
    var started := Log(p, Collected(i));
    var gathered := Gather(cb, rounds, i, started);
    if gathered.Some? {
      DecideTells(cb, rounds, target, i, gathered.value.0, gathered.value.1);
    }
  }

  // ---- a whole run ----

  /** What holds of the progress a run returns. */
  ghost predicate Truthful(cb: Callbacks, rounds: int, target: int, p: Progress, ok: bool) {
    && Told(cb, rounds, target, p.stats, p.trace)
    && WentOn(cb, target, p.stats, if p.stats == [] then 0 else |p.stats| - 1)
    && (ok ==>
          && p.stats != [] && p.items == ItemsAfter(cb, |p.stats|)
          && EndsHere(cb, target, p.stats[|p.stats| - 1], |p.stats| - 1))
  }

  lemma {:induction false} RoundsTell(cb: Callbacks, rounds: int, target: int, i: nat, p: Progress)
    requires i <= ScrollRounds(rounds) && Ready(cb, rounds, target, i, p)
    ensures
      var (result, ok) := RoundsFrom(cb, rounds, target, i, p);
      Truthful(cb, rounds, target, result, ok)
    decreases ScrollRounds(rounds) - i
  {
    RoundTells(cb, rounds, target, i, p);
    RoundsUnfold(cb, rounds, target, i, p);
    var (next, end) := Round(cb, rounds, target, i, p);
    if end == Continues {
      ContinuesBelowLimit(cb, rounds, target, i, p);
      RoundsTell(cb, rounds, target, i + 1, next);
    }
  }

  /** Main result: over every run, each reported round carries the numbers its callbacks gave and scrolled exactly
      when it might; each round but the last left nothing to stop the loop; and a run that ends without a raise
      returns the list of its last merge and had a reason to end. */
  lemma RunTells(cb: Callbacks, rounds: int, target: int)
    ensures
      var (p, ok) := Run(cb, rounds, target);
      Truthful(cb, rounds, target, p, ok)
  {
    var start := Begin(cb);
    RoundsTell(cb, rounds, target, 0, start);
    var (p, ok) := RoundsFrom(cb, rounds, target, 0, start);
    TraceGrows(cb, rounds, target, p.stats, p.trace, Restored);
  }

  // ---- raises ----

  /** No callback raises, in any round. */
  ghost predicate NeverRaises(cb: Callbacks) {
    && cb.capture.GetOr(true) && cb.restore.GetOr(true)
    && (forall i :: cb.collect(i).Some?)
    && (forall i, old_, items :: cb.merge(i, old_, items).Some?)
    && (forall i :: cb.metrics(i)) && (forall i, c :: cb.stats(i, c)) && (forall i :: cb.wait(i))
    && (forall i, c :: cb.stopBefore(i, c).Some?) && (forall i, c :: cb.stopAfter(i, c).Some?)
    && (forall i, c :: cb.shouldScroll(i, c).Some?) && (forall i :: cb.scroll(i).Some?)
  }

  lemma RoundDoesNotRaise(cb: Callbacks, rounds: int, target: int, i: nat, p: Progress)
    requires NeverRaises(cb)
    ensures Round(cb, rounds, target, i, p).1 != Raised
  {
  }

  lemma {:induction false} RoundsDoNotRaise(cb: Callbacks, rounds: int, target: int, i: nat, p: Progress)
    requires NeverRaises(cb) && i <= ScrollRounds(rounds)
    ensures RoundsFrom(cb, rounds, target, i, p).1
    decreases ScrollRounds(rounds) - i
  {
    RoundDoesNotRaise(cb, rounds, target, i, p);
    RoundsUnfold(cb, rounds, target, i, p);
    if Round(cb, rounds, target, i, p).1 == Continues {
      ContinuesBelowLimit(cb, rounds, target, i, p);
      RoundsDoNotRaise(cb, rounds, target, i + 1, Round(cb, rounds, target, i, p).0);
    }
  }

  /** Main result: a run fails only if some callback raises. */
  lemma FailsOnlyOnRaise(cb: Callbacks, rounds: int, target: int)
    requires NeverRaises(cb)
    ensures Run(cb, rounds, target).1
  {
    RoundsDoNotRaise(cb, rounds, target, 0, Begin(cb));
    assert cb.capture.Some? ==> cb.capture == Some(cb.capture.value);
    assert cb.restore.Some? ==> cb.restore == Some(cb.restore.value);
  }
}
