/** core/scan_failure_policy.py: what one failed scan does to the target. */
module ScanFailurePolicy {
  import Text

  const CONTENT_UNAVAILABLE := "content_unavailable"
  const FACEBOOK_TEMPORARY_BLOCK := "facebook_temporary_block"
  const FACEBOOK_PAGE_GUARD_INCONCLUSIVE := "facebook_page_guard_inconclusive"
  const PAGE_LOAD_TIMEOUT := "page_load_timeout"
  const SCHEDULER_RUNTIME := "scheduler_runtime"
  const STALE_RUNNING := "stale_running"
  const SORT_ADJUST_UNCONFIRMED := "sort_adjust_unconfirmed"
  const SCHEDULER_STOPPING := "scheduler_stopping"
  const TARGET_STOPPED := "target_stopped"
  const UNKNOWN := "unknown"

  const IDLE_REASONS: set<string> := {TARGET_STOPPED}
  const SCHEDULER_CANCEL_IDLE_REASONS: set<string> := {SCHEDULER_STOPPING}
  const IMMEDIATE_TERMINAL_REASONS: set<string> := {
    "checkpoint_required", FACEBOOK_TEMPORARY_BLOCK, "login_required", "profile_locked",
    "profile_missing", "session_invalid", "target_argument_conflict", "target_invalid",
    "target_kind_unsupported", "target_missing", "unsupported_in_fallback"
  }
  const DISCARD_PAGE_REASONS: set<string> := {
    CONTENT_UNAVAILABLE, FACEBOOK_PAGE_GUARD_INCONCLUSIVE, FACEBOOK_TEMPORARY_BLOCK
  }
  const RECOVERABLE_FAILURE_LIMIT := 3
  const RETRY_LIMITS: map<string, int> := map[
    CONTENT_UNAVAILABLE := 3, PAGE_LOAD_TIMEOUT := 3, STALE_RUNNING := 3,
    SCHEDULER_RUNTIME := 3, SORT_ADJUST_UNCONFIRMED := 3
  ]
  const RETRY_DELAY_SECONDS: map<string, int> := map[CONTENT_UNAVAILABLE := 30]
  const TARGET_PAGE_RESTART := "target_page_restart"
  const SCHEDULER_RUNTIME_RESTART := "scheduler_runtime_restart"
  const AUTO_RESTART_ACTIONS: map<string, string> := map[
    CONTENT_UNAVAILABLE := TARGET_PAGE_RESTART, PAGE_LOAD_TIMEOUT := TARGET_PAGE_RESTART,
    STALE_RUNNING := TARGET_PAGE_RESTART, SCHEDULER_RUNTIME := SCHEDULER_RUNTIME_RESTART,
    SORT_ADJUST_UNCONFIRMED := TARGET_PAGE_RESTART
  ]

  datatype Source = WorkerFailure | Playwright | UnknownException | SchedulerCancel | RuntimeRecovery
  datatype TargetAction = ToIdle | ToError
  datatype RuntimeAction = RunIdle | WillRetry | RunError

  datatype Decision = Decision(
    reason: string,
    retryable: bool,
    targetAction: TargetAction,
    runtimeAction: RuntimeAction,
    discardPage: bool,
    countsTowardStreak: bool,
    retryStreak: int,
    retryLimit: int,
    retryDelaySeconds: int,
    autoRestart: bool,
    recoveryAction: string
  ) {
    predicate Terminal() {
      targetAction.ToError?
    }

    /** The failure count stored with a notification. */
    function NotificationFailureCount(): int {
      if countsTowardStreak then retryStreak
      else if retryStreak > 1 then retryStreak else 1
    }
  }

  function NormalizeReason(reason: string): (r: string)
    ensures r != "" && Text.Trimmed(r)
  {
    var stripped := Text.Strip(if reason == "" then UNKNOWN else reason);
    if stripped == "" then UNKNOWN else stripped
  }

  function RetryLimit(reason: string): int {
    if reason in RETRY_LIMITS then RETRY_LIMITS[reason] else RECOVERABLE_FAILURE_LIMIT
  }

  function RetryDelay(reason: string): int {
    var key := NormalizeReason(reason);
    if key in RETRY_DELAY_SECONDS then RETRY_DELAY_SECONDS[key] else 0
  }

  function RecoveryFor(reason: string): string {
    if reason in AUTO_RESTART_ACTIONS then AUTO_RESTART_ACTIONS[reason] else TARGET_PAGE_RESTART
  }

  predicate DiscardsOutright(reason: string, source: Source) {
    source in {Playwright, UnknownException, RuntimeRecovery} || reason in DISCARD_PAGE_REASONS
  }

  function NextStreak(reason: string, previousReason: string, previousCount: int): int {
    if previousReason == reason then (if previousCount > 0 then previousCount else 0) + 1 else 1
  }

  function Uncounted(reason: string, action: TargetAction, discardPage: bool): Decision {
    Decision(reason, action.ToIdle?, action, if action.ToIdle? then RunIdle else RunError, discardPage,
             false, 0, 0, 0, false, "")
  }

  function Decide(reason: string, source: Source, previousReason: string, previousCount: int): Decision {
    var r := NormalizeReason(reason);
    var discardPage := DiscardsOutright(r, source);
    if source == SchedulerCancel && r in SCHEDULER_CANCEL_IDLE_REASONS then Uncounted(r, ToIdle, discardPage)
    else if r in IDLE_REASONS then Uncounted(r, ToIdle, discardPage)
    else if r in IMMEDIATE_TERMINAL_REASONS then Uncounted(r, ToError, discardPage)
    else
      var limit := RetryLimit(r);
      var streak := NextStreak(r, previousReason, previousCount);
      var willRetry := streak < limit;
      var delay := if willRetry then RetryDelay(r) else 0;
      var recovery := RecoveryFor(r);
      Decision(r, willRetry, if willRetry then ToIdle else ToError, if willRetry then WillRetry else RunError,
               discardPage || recovery == TARGET_PAGE_RESTART,
               true, streak, limit, delay, willRetry && delay <= 0, recovery)
  }

  /** Replays a stored (reason, count) pair through the policy. */
  predicate IsNotificationTerminal(reason: string, failureCount: int, source: Source) {
    var r := NormalizeReason(reason);
    if r in IDLE_REASONS + SCHEDULER_CANCEL_IDLE_REASONS then false
    else
      var count := if failureCount > 1 then failureCount else 1;
      Decide(r, source, r, count - 1).Terminal()
  }

  /** A counted decision extends the streak by one and is terminal exactly from its reason's limit on. */
  lemma CountedDecision(reason: string, source: Source, previousReason: string, previousCount: int)
    requires Decide(reason, source, previousReason, previousCount).countsTowardStreak
    ensures
      var d := Decide(reason, source, previousReason, previousCount);
      && d.reason == NormalizeReason(reason) != ""
      && d.retryStreak == NextStreak(d.reason, previousReason, previousCount) >= 1
      && (d.Terminal() <==> d.retryStreak >= RetryLimit(d.reason))
  {
  }

  /** Whatever source replays it, a stored count reproduces the live verdict, except for a scheduler stop
      that was not reported by the cancel path and had already failed twice in a row. */
  lemma ReplayAgrees(reason: string, source: Source, previousReason: string, previousCount: int, replay: Source)
    ensures
      var d := Decide(reason, source, previousReason, previousCount);
      IsNotificationTerminal(reason, d.NotificationFailureCount(), replay) == d.Terminal()
      <==>
      !(&& NormalizeReason(reason) == SCHEDULER_STOPPING
        && source != SchedulerCancel
        && previousReason == SCHEDULER_STOPPING
        && previousCount >= RECOVERABLE_FAILURE_LIMIT - 1)
  {
    var r := NormalizeReason(reason);
    var d := Decide(reason, source, previousReason, previousCount);
    var count := d.NotificationFailureCount();
    assert NormalizeReason(r) == r;
    assert |SCHEDULER_STOPPING| == 18 && SCHEDULER_STOPPING !in RETRY_LIMITS;
    TerminalMeans(reason, source, previousReason, previousCount);
    TerminalMeans(r, replay, r, (if count > 1 then count else 1) - 1);
  }

  /** When a decision is terminal: the reason is not an idle one, and it is either immediately terminal or its streak
      reaches the limit. */
  lemma TerminalMeans(reason: string, source: Source, previousReason: string, previousCount: int)
    ensures
      var r, d := NormalizeReason(reason), Decide(reason, source, previousReason, previousCount);
      && (d.countsTowardStreak <==> !(source == SchedulerCancel && r == SCHEDULER_STOPPING) && r != TARGET_STOPPED
                                    && r !in IMMEDIATE_TERMINAL_REASONS)
      && (d.countsTowardStreak ==>
            d.retryStreak == NextStreak(r, previousReason, previousCount)
            && (d.Terminal() <==> d.retryStreak >= RetryLimit(r)))
      && (!d.countsTowardStreak ==> (d.Terminal() <==> r in IMMEDIATE_TERMINAL_REASONS) && d.retryStreak == 0)
  {
  }

  // ---- the policy by the reasons' own names ----

  /** Stopping on purpose is not a failure. */
  predicate Quiet(reason: string, source: Source) {
    reason == "target_stopped" || (reason == "scheduler_stopping" && source == SchedulerCancel)
  }

  /** Reasons no retry can mend. */
  predicate Fatal(reason: string) {
    reason in {"checkpoint_required", "facebook_temporary_block", "login_required", "profile_locked",
               "profile_missing", "session_invalid", "target_argument_conflict", "target_invalid",
               "target_kind_unsupported", "target_missing", "unsupported_in_fallback"}
  }

  /** A blank reason is unknown; any other is trimmed. */
  lemma ReasonIsNormalized(reason: string)
    ensures NormalizeReason(reason) == if Text.Strip(reason) == "" then "unknown" else Text.Strip(reason)
  {
    assert |UNKNOWN| == 7;
  }

  lemma LimitIsThree(reason: string)
    ensures RetryLimit(reason) == 3
  {
  }

  /** Only unavailable content waits before its retry. */
  lemma DelayByReason(reason: string)
    requires NormalizeReason(reason) == reason
    ensures RetryDelay(reason) == if reason == "content_unavailable" then 30 else 0
  {
  }

  lemma ActionByReason(reason: string)
    ensures RecoveryFor(reason) ==
            if reason == "scheduler_runtime" then "scheduler_runtime_restart" else "target_page_restart"
  {
  }

  /** A quiet or fatal decision: no streak, no retry limit, no recovery. */
  predicate Plain(d: Decision) {
    && !d.countsTowardStreak && d.retryStreak == 0 && d.retryLimit == 0 && d.retryDelaySeconds == 0
    && !d.autoRestart && d.recoveryAction == "" && d.NotificationFailureCount() == 1
  }

  /** Main result: what is decided, for every reason, source and previous streak. */
  lemma DecisionIsAsNamed(reason: string, source: Source, previousReason: string, previousCount: int)
    ensures
      var r, d := NormalizeReason(reason), Decide(reason, source, previousReason, previousCount);
      && d.reason == r
      && (Quiet(r, source) ==>
            Plain(d) && d.retryable && d.targetAction == ToIdle && d.runtimeAction == RunIdle)
      && (!Quiet(r, source) && Fatal(r) ==>
            Plain(d) && !d.retryable && d.targetAction == ToError && d.runtimeAction == RunError)
  {
  }

  /** Main result: a counted failure is retried below the third in a row, at once unless the content is unavailable,
      and from the third on ends in error; its recovery restarts the page, or the runtime for a runtime failure. */
  lemma CountedIsAsNamed(reason: string, source: Source, previousReason: string, previousCount: int)
    requires !Quiet(NormalizeReason(reason), source) && !Fatal(NormalizeReason(reason))
    ensures
      var r, d := NormalizeReason(reason), Decide(reason, source, previousReason, previousCount);
      var k := if previousReason == r && previousCount > 0 then previousCount + 1 else 1;
      && d.countsTowardStreak && d.retryStreak == k == d.NotificationFailureCount() && d.retryLimit == 3
      && d.retryable == (k < 3)
      && d.targetAction == (if k < 3 then ToIdle else ToError)
      && d.runtimeAction == (if k < 3 then WillRetry else RunError)
      && d.retryDelaySeconds == (if k < 3 && r == "content_unavailable" then 30 else 0)
      && d.autoRestart == (k < 3 && r != "content_unavailable")
      && d.recoveryAction == (if r == "scheduler_runtime" then "scheduler_runtime_restart" else "target_page_restart")
  {
    var r := NormalizeReason(reason);
    LimitIsThree(r);
    DelayByReason(r);
    ActionByReason(r);
  }

  /** The sources and reasons that discard the page whatever is decided. */
  predicate DiscardsAnyway(reason: string, source: Source) {
    || source == Playwright || source == UnknownException || source == RuntimeRecovery
    || reason == "content_unavailable" || reason == "facebook_page_guard_inconclusive"
    || reason == "facebook_temporary_block"
  }

  lemma OutrightIsAnyway(reason: string, source: Source)
    ensures DiscardsOutright(reason, source) <==> DiscardsAnyway(reason, source)
  {
  }

  /** Main result: the page is discarded for browser-side sources, for the page reasons, and whenever the recovery is
      to restart the page. */
  lemma PageIsDiscarded(reason: string, source: Source, previousReason: string, previousCount: int)
    ensures
      var r := NormalizeReason(reason);
      Decide(reason, source, previousReason, previousCount).discardPage <==>
      DiscardsAnyway(r, source) || (!Quiet(r, source) && !Fatal(r) && r != "scheduler_runtime")
  {
    OutrightIsAnyway(NormalizeReason(reason), source);
    ActionByReason(NormalizeReason(reason));
  }
}
