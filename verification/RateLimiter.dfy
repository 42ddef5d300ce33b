/**
 The sliding-window rate limiter.  Time is counted in nanoseconds of a monotone clock; each
 call takes the readings it makes as parameters.

 The limiter keeps only recent timestamps, in two queues per rule.  It is specified by the
 whole history of recorded admissions, which the program itself never keeps.
 */
module RateLimiter {

  const SECOND := 1_000_000_000
  const MINUTE := 60_000_000_000

  datatype Config = Config(perSecond: int, perMinute: int, burstSize: int)
  {
    predicate IsEnabled()
    {
      perSecond > 0 || perMinute > 0
    }

    function Burst(): int
    {
      if burstSize > 0 then burstSize else perSecond
    }
  }

  /** How many of the timestamps are not older than `cutoff`. */
  function CountSince(history: seq<int>, cutoff: int): nat
  {
    if history == [] then 0
    else CountSince(history[..|history| - 1], cutoff) + if history[|history| - 1] >= cutoff then 1 else 0
  }

  /** The limit, stated on the whole history: fewer than a quota of admissions in each limited window. */
  predicate WithinLimits(config: Config, history: seq<int>, now: int)
  {
    && (config.perSecond > 0 ==> CountSince(history, now - SECOND) < config.Burst())
    && (config.perMinute > 0 ==> CountSince(history, now - MINUTE) < config.perMinute)
  }

  ghost predicate Ascending(s: seq<int>)
  {
    forall i, j :: 0 <= i < j < |s| ==> s[i] <= s[j]
  }

  lemma {:induction false} CountSplit(history: seq<int>, cutoff: int, j: nat)
    requires j <= |history|
    requires forall i :: 0 <= i < j ==> history[i] < cutoff
    requires forall i :: j <= i < |history| ==> history[i] >= cutoff
    ensures CountSince(history, cutoff) == |history| - j
  {
    if history != [] {
      var n := |history| - 1;
      CountSplit(history[..n], cutoff, if j <= n then j else n);
    }
  }

  /** The window is the recent end of the history; what was dropped is older than `age` before `clock`. */
  ghost predicate IsWindow(window: seq<int>, history: seq<int>, clock: int, age: int)
  {
    && |window| <= |history|
    && window == history[|history| - |window|..]
    && forall i :: 0 <= i < |history| - |window| ==> history[i] < clock - age
  }

  datatype RuleState = RuleState(config: Config, secondWindow: seq<int>, minuteWindow: seq<int>)

  ghost predicate StateOk(state: RuleState, history: seq<int>, clock: int)
  {
    && Ascending(history)
    && (forall i :: 0 <= i < |history| ==> history[i] <= clock)
    && IsWindow(state.secondWindow, history, clock, SECOND)
    && IsWindow(state.minuteWindow, history, clock, MINUTE)
  }

  /** Pops timestamps older than the cutoff off the front; on an ascending history the rest counts exactly. */
  method DropOlder(window: seq<int>, now: int, age: int, ghost history: seq<int>, ghost clock: int) returns (rest: seq<int>)
    requires Ascending(history) && clock <= now && IsWindow(window, history, clock, age)
    ensures IsWindow(rest, history, now, age)
    ensures |rest| == CountSince(history, now - age)
  {
    rest := window;
    while rest != [] && rest[0] < now - age
      invariant IsWindow(rest, history, now, age)
    {
      rest := rest[1..];
    }
    ghost var j := |history| - |rest|;
    forall i | j <= i < |history|
      ensures history[i] >= now - age
    {
      assert history[j] == rest[0];
    }
    CountSplit(history, now - age, j);
  }

  /** After the cleanup the two windows count exactly the recent admissions. */
  method CleanupOldEntries(state: RuleState, now: int, ghost history: seq<int>, ghost clock: int) returns (after: RuleState)
    requires StateOk(state, history, clock) && clock <= now
    ensures StateOk(after, history, now) && after.config == state.config
    ensures |after.secondWindow| == CountSince(history, now - SECOND)
    ensures |after.minuteWindow| == CountSince(history, now - MINUTE)
  {
    var second := DropOlder(state.secondWindow, now, SECOND, history, clock);
    var minute := DropOlder(state.minuteWindow, now, MINUTE, history, clock);
    after := RuleState(state.config, second, minute);
  }

  lemma Later(state: RuleState, history: seq<int>, clock: int, now: int)
    requires StateOk(state, history, clock) && clock <= now
    ensures StateOk(state, history, now)
  {
  }

  lemma Appended(window: seq<int>, history: seq<int>, now: int, age: int)
    requires IsWindow(window, history, now, age)
    ensures IsWindow(window + [now], history + [now], now, age)
  {
  }

  lemma Recorded(state: RuleState, history: seq<int>, now: int)
    requires StateOk(state, history, now)
    ensures StateOk(RuleState(state.config, state.secondWindow + [now], state.minuteWindow + [now]), history + [now], now)
  {
    Appended(state.secondWindow, history, now, SECOND);
    Appended(state.minuteWindow, history, now, MINUTE);
  }

  /** How a call changes the history: an admission under an enabled configuration is recorded. */
  ghost function After(config: Config, history: seq<int>, cleaned: int, now: int): seq<int>
  {
    if config.IsEnabled() && WithinLimits(config, history, cleaned) then history + [now] else history
  }

  /**
   One rule's decision.  `cleaned` is the clock reading of the cleanup, `now` the later one
   that is recorded.
   */
  method Decide(state: RuleState, cleaned: int, now: int, ghost history: seq<int>, ghost clock: int)
    returns (allowed: bool, after: RuleState)
    requires StateOk(state, history, clock) && clock <= cleaned <= now
    ensures after.config == state.config
    ensures allowed == (!state.config.IsEnabled() || WithinLimits(state.config, history, cleaned))
    ensures StateOk(after, After(state.config, history, cleaned, now), now)
  {
    after := CleanupOldEntries(state, cleaned, history, clock);
    Later(after, history, cleaned, now);
    var config := after.config;
    if !config.IsEnabled() {
      return true, after;
    }
    if config.perSecond > 0 {
      if |after.secondWindow| >= config.Burst() {
        return false, after;
      }
    }
    if config.perMinute > 0 {
      if |after.minuteWindow| >= config.perMinute {
        return false, after;
      }
    }
    Recorded(after, history, now);
    after := RuleState(config, after.secondWindow + [now], after.minuteWindow + [now]);
    allowed := true;
  }

  class Limiter {
    var states: map<string, RuleState>
    ghost var histories: map<string, seq<int>>
    ghost var clock: int

    ghost predicate Valid()
      reads this
    {
      && states.Keys == histories.Keys
      && forall name :: name in states ==> StateOk(states[name], histories[name], clock)
    }

    constructor (now: int)
      ensures Valid() && states == map[] && clock == now
    {
      states, histories, clock := map[], map[], now;
    }

    /** The clock moves on; every window stays a window. */
    ghost method Tick(now: int)
      requires Valid() && clock <= now
      modifies this`clock
      ensures Valid() && clock == now
    {
      forall name | name in states
        ensures StateOk(states[name], histories[name], now)
      {
        Later(states[name], histories[name], clock, now);
      }
      clock := now;
    }

    /** A rule is turned away exactly when its limits are used up by admissions really made. */
    method IsAllowed(name: string, cleaned: int, now: int) returns (allowed: bool)
      requires Valid() && clock <= cleaned <= now
      modifies this
      ensures Valid() && clock == now && states.Keys == old(states.Keys)
      ensures forall other :: other in states ==> states[other].config == old(states)[other].config
      ensures name !in old(states) ==> allowed && histories == old(histories)
      ensures name in old(states) ==>
        var config, history := old(states)[name].config, old(histories)[name];
        && allowed == (!config.IsEnabled() || WithinLimits(config, history, cleaned))
        && histories == old(histories)[name := After(config, history, cleaned, now)]
    {
      if name !in states {
        Tick(now);
        return true;
      }
      var state;
      ghost var history := After(states[name].config, histories[name], cleaned, now);
      allowed, state := Decide(states[name], cleaned, now, histories[name], clock);
      Put(name, state, history, now);
    }

    /** The clock moves on and one rule's state is replaced. */
    method Put(name: string, state: RuleState, ghost history: seq<int>, ghost now: int)
      requires Valid() && clock <= now && name in states && StateOk(state, history, now)
      modifies this
      ensures Valid() && clock == now
      ensures states == old(states)[name := state] && histories == old(histories)[name := history]
    {
      Tick(now);
      states := states[name := state];
      histories := histories[name := history];
    }

    /** A new configuration takes over the recorded windows; a new rule starts with empty ones. */
    method Configure(name: string, config: Config)
      requires Valid()
      modifies this
      ensures Valid() && clock == old(clock) && name in states && states[name].config == config
      ensures histories == if name in old(states) then old(histories) else old(histories)[name := []]
      ensures forall other :: other in old(states) && other != name ==> states[other] == old(states)[other]
    {
      if name in states {
        states := states[name := states[name].(config := config)];
      } else {
        states := states[name := RuleState(config, [], [])];
        histories := histories[name := []];
      }
    }

    /** The cleanup both counters make first: it changes no history and leaves exact windows. */
    method Cleaned(name: string, now: int) returns (state: RuleState)
      requires Valid() && clock <= now && name in states
      modifies this
      ensures Valid() && clock == now && histories == old(histories)
      ensures |state.secondWindow| == CountSince(old(histories)[name], now - SECOND)
      ensures |state.minuteWindow| == CountSince(old(histories)[name], now - MINUTE)
    {
      ghost var history := histories[name];
      state := CleanupOldEntries(states[name], now, history, clock);
      Put(name, state, history, now);
      assert histories == old(histories);
    }

    /** The current rate: admissions recorded within the last second. */
    method CurrentPerSecond(name: string, now: int) returns (count: nat)
      requires Valid() && clock <= now
      modifies this
      ensures Valid() && clock == now && histories == old(histories)
      ensures count == if name in old(states) then CountSince(old(histories)[name], now - SECOND) else 0
    {
      if name !in states {
        Tick(now);
        return 0;
      }
      var state := Cleaned(name, now);
      return |state.secondWindow|;
    }

    /** The sustained rate: admissions recorded within the last minute. */
    method CurrentPerMinute(name: string, now: int) returns (count: nat)
      requires Valid() && clock <= now
      modifies this
      ensures Valid() && clock == now && histories == old(histories)
      ensures count == if name in old(states) then CountSince(old(histories)[name], now - MINUTE) else 0
    {
      if name !in states {
        Tick(now);
        return 0;
      }
      var state := Cleaned(name, now);
      return |state.minuteWindow|;
    }
  }

  // ----- spacing of admissions over whole runs -----

  /** One call: the reading made for the cleanup and the one that is recorded. */
  datatype Call = Call(cleaned: int, now: int)

  ghost predicate Monotone(calls: seq<Call>)
  {
    && (forall i :: 0 <= i < |calls| ==> calls[i].cleaned <= calls[i].now)
    && (forall i, j :: 0 <= i < j < |calls| ==> calls[i].now <= calls[j].cleaned)
  }

  /** The history of a rule after a run of calls under a fixed configuration, as IsAllowed extends it. */
  ghost function Admissions(config: Config, calls: seq<Call>): seq<int>
  {
    if calls == [] then []
    else
      var n := |calls| - 1;
      After(config, Admissions(config, calls[..n]), calls[n].cleaned, calls[n].now)
  }

  /** Any `quota + 1` consecutive admissions span more than `age`. */
  ghost predicate Spaced(history: seq<int>, quota: nat, age: int)
  {
    forall k :: 0 <= k && k + quota < |history| ==> history[k + quota] - history[k] > age
  }

  /** The last reading of a run, or anything before the first call. */
  ghost predicate NoLaterThan(history: seq<int>, calls: seq<Call>)
  {
    if calls == [] then history == [] else forall i :: 0 <= i < |history| ==> history[i] <= calls[|calls| - 1].now
  }

  lemma {:induction false} AdmissionsAscend(config: Config, calls: seq<Call>)
    requires Monotone(calls)
    ensures Ascending(Admissions(config, calls)) && NoLaterThan(Admissions(config, calls), calls)
  {
    if calls != [] {
      var n := |calls| - 1;
      AdmissionsAscend(config, calls[..n]);
      var before := Admissions(config, calls[..n]);
      if n > 0 {
        assert calls[..n][n - 1] == calls[n - 1];
        assert calls[n - 1].now <= calls[n].cleaned;
      }
      assert forall i :: 0 <= i < |before| ==> before[i] <= calls[n].now;
    }
  }

  /** If fewer than `quota` admissions are recent, the one `quota` back is older than the window. */
  lemma {:induction false} QuotaBackIsOld(history: seq<int>, cutoff: int, quota: nat)
    requires Ascending(history) && CountSince(history, cutoff) < quota <= |history|
    ensures history[|history| - quota] < cutoff
  {
    var j := |history| - quota;
    if history[j] >= cutoff {
      AtLeast(history, cutoff, j);
    }
  }

  lemma {:induction false} AtLeast(history: seq<int>, cutoff: int, j: nat)
    requires j <= |history| && forall i :: j <= i < |history| ==> history[i] >= cutoff
    ensures CountSince(history, cutoff) >= |history| - j
  {
    if j < |history| {
      AtLeast(history[..|history| - 1], cutoff, j);
    }
  }

  lemma SpacedAppend(history: seq<int>, now: int, cleaned: int, quota: nat, age: int)
    requires Ascending(history) && Spaced(history, quota, age) && quota > 0 && cleaned <= now
    requires CountSince(history, cleaned - age) < quota
    ensures Spaced(history + [now], quota, age)
  {
    if quota <= |history| {
      QuotaBackIsOld(history, cleaned - age, quota);
    }
  }

  /** In every run, the k-th and the (k + quota)-th admission are more than a window apart, for the burst and for the minute limit. */
  lemma {:induction false} AdmissionsAreSpaced(config: Config, calls: seq<Call>)
    requires Monotone(calls)
    ensures config.perSecond > 0 ==> Spaced(Admissions(config, calls), config.Burst(), SECOND)
    ensures config.perMinute > 0 ==> Spaced(Admissions(config, calls), config.perMinute, MINUTE)
  {
    if calls != [] {
      var n := |calls| - 1;
      var before := Admissions(config, calls[..n]);
      AdmissionsAreSpaced(config, calls[..n]);
      AdmissionsAscend(config, calls[..n]);
      if WithinLimits(config, before, calls[n].cleaned) {
        if config.perSecond > 0 {
          SpacedAppend(before, calls[n].now, calls[n].cleaned, config.Burst(), SECOND);
        }
        if config.perMinute > 0 {
          SpacedAppend(before, calls[n].now, calls[n].cleaned, config.perMinute, MINUTE);
        }
      }
    }
  }

  /** A denial is justified: some limited window really holds a full quota of admissions. */
  lemma {:induction false} DenialIsJustified(config: Config, calls: seq<Call>)
    requires calls != [] && Monotone(calls) && config.IsEnabled()
    requires Admissions(config, calls) == Admissions(config, calls[..|calls| - 1])
    ensures var before, now := Admissions(config, calls), calls[|calls| - 1].cleaned;
            || (config.perSecond > 0 && FullWindow(before, config.Burst(), now - SECOND))
            || (config.perMinute > 0 && FullWindow(before, config.perMinute, now - MINUTE))
  {
    var n := |calls| - 1;
    var before := Admissions(config, calls[..n]);
    AdmissionsAscend(config, calls[..n]);
    if config.perSecond > 0 && CountSince(before, calls[n].cleaned - SECOND) >= config.Burst() {
      CountedAreRecent(before, calls[n].cleaned - SECOND);
    }
    if config.perMinute > 0 && CountSince(before, calls[n].cleaned - MINUTE) >= config.perMinute {
      CountedAreRecent(before, calls[n].cleaned - MINUTE);
    }
  }

  ghost predicate FullWindow(history: seq<int>, quota: int, cutoff: int)
  {
    0 < quota <= |history| && forall i :: |history| - quota <= i < |history| ==> history[i] >= cutoff
  }

  lemma {:induction false} CountedAreRecent(history: seq<int>, cutoff: int)
    requires Ascending(history)
    ensures CountSince(history, cutoff) <= |history|
    ensures forall i :: |history| - CountSince(history, cutoff) <= i < |history| ==> history[i] >= cutoff
  {
    if history != [] {
      var n := |history| - 1;
      CountedAreRecent(history[..n], cutoff);
      if history[n] < cutoff {
        NoneRecent(history[..n], cutoff);
      }
    }
  }

  lemma {:induction false} NoneRecent(history: seq<int>, cutoff: int)
    requires forall i :: 0 <= i < |history| ==> history[i] < cutoff
    ensures CountSince(history, cutoff) == 0
  {
    if history != [] {
      NoneRecent(history[..|history| - 1], cutoff);
    }
  }

  // ----- the same, over the answers the callers got -----

  /** When the calls answered "allowed" were recorded. */
  ghost function Allowed(calls: seq<Call>, answers: seq<bool>): seq<int>
    requires |calls| == |answers|
  {
    if calls == [] then []
    else
      var n := |calls| - 1;
      Allowed(calls[..n], answers[..n]) + if answers[n] then [calls[n].now] else []
  }

  /** Call `i` was refused: by then some limit was used up by allowed calls within its window. */
  ghost predicate RefusalJustified(config: Config, calls: seq<Call>, answers: seq<bool>, i: nat)
    requires i < |calls| && i <= |answers|
  {
    var before := Allowed(calls[..i], answers[..i]);
    || (config.perSecond > 0 &&
        FullWindow(before, if config.burstSize > 0 then config.burstSize else config.perSecond, calls[i].cleaned - 1_000_000_000))
    || (config.perMinute > 0 && FullWindow(before, config.perMinute, calls[i].cleaned - 60_000_000_000))
  }

  /**
   Any history of calls for one configured rule.  Allowed calls a quota apart are more than a
   window apart, for each limit that is set; a call is refused only if such a window was full;
   without limits every call is allowed.
   */
  method AnswerCalls(name: string, config: Config, calls: seq<Call>) returns (answers: seq<bool>)
    requires Monotone(calls)
    ensures |answers| == |calls|
    ensures config.perSecond > 0 ==>
      Spaced(Allowed(calls, answers), if config.burstSize > 0 then config.burstSize else config.perSecond, 1_000_000_000)
    ensures config.perMinute > 0 ==> Spaced(Allowed(calls, answers), config.perMinute, 60_000_000_000)
    ensures forall i :: 0 <= i < |calls| && !answers[i] ==> RefusalJustified(config, calls, answers, i)
  {
    var limiter := new Limiter(if calls == [] then 0 else calls[0].cleaned);
    limiter.Configure(name, config);
    answers := [];
    for i := 0 to |calls|
      invariant |answers| == i && limiter.Valid() && fresh(limiter)
      invariant i < |calls| ==> limiter.clock <= calls[i].cleaned
      invariant name in limiter.states && limiter.states[name].config == config
      invariant limiter.histories[name] == Admissions(config, calls[..i])
      invariant config.perSecond > 0 || config.perMinute > 0 ==> Admissions(config, calls[..i]) == Allowed(calls[..i], answers)
      invariant forall j :: 0 <= j < i && !answers[j] ==> RefusalJustified(config, calls, answers, j)
    {
      var allowed := limiter.IsAllowed(name, calls[i].cleaned, calls[i].now);
      AnswerStep(config, calls, answers, i, allowed);
      answers := answers + [allowed];
    }
    assert calls[..|calls|] == calls;
    AdmissionsAreSpaced(config, calls);
  }

  lemma AnswerStep(config: Config, calls: seq<Call>, answers: seq<bool>, i: nat, allowed: bool)
    requires Monotone(calls) && |answers| == i < |calls|
    requires config.perSecond > 0 || config.perMinute > 0 ==> Admissions(config, calls[..i]) == Allowed(calls[..i], answers)
    requires allowed == (!config.IsEnabled() || WithinLimits(config, Admissions(config, calls[..i]), calls[i].cleaned))
    requires forall j :: 0 <= j < i && !answers[j] ==> RefusalJustified(config, calls, answers, j)
    ensures Admissions(config, calls[..i + 1]) ==
            After(config, Admissions(config, calls[..i]), calls[i].cleaned, calls[i].now)
    ensures config.perSecond > 0 || config.perMinute > 0 ==>
      Admissions(config, calls[..i + 1]) == Allowed(calls[..i + 1], answers + [allowed])
    ensures forall j :: 0 <= j <= i && !(answers + [allowed])[j] ==> RefusalJustified(config, calls, answers + [allowed], j)
  {
    var now, all := calls[..i + 1], answers + [allowed];
    assert now[..i] == calls[..i] && all[..i] == answers;
    forall j | 0 <= j <= i && !all[j]
      ensures RefusalJustified(config, calls, all, j)
    {
      assert all[..j] == answers[..j];
      if j == i {
        assert answers[..i] == answers;
        DenialIsJustified(config, now);
      } else {
        assert RefusalJustified(config, calls, answers, j);
      }
    }
  }
}
