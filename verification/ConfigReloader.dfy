/** The rule classifier and the live config reloader. */
module ConfigReloader {
  import opened Options
  import opened ConfigTree
  import ConfigDiff
  import GlobRules
  import Text

  datatype Mode = Hot | Restart

  /** A rule; a hot rule without a handler is applied by doing nothing. */
  datatype Rule = Rule(pattern: string, mode: Mode, hasHandler: bool)

  datatype Entry = Entry(path: string, rule: Rule)

  datatype Plan = Plan(hot: seq<Entry>, restart: seq<Entry>, ignored: seq<string>)

  /** One invocation of a hot handler with its context. */
  datatype Call = Call(rule: Rule, path: string, oldConfig: Json, newConfig: Json, oldValue: Json, newValue: Json)

  // ---- classification ---------------------------------------------------------------------------

  predicate Accepts(rule: Rule, path: string) { GlobRules.Test(rule.pattern, path) }

  /** The index of the first rule whose pattern accepts the path, or the number of rules. */
  function Chosen(rules: seq<Rule>, path: string): (i: nat)
    ensures i <= |rules|
  {
    if rules == [] || Accepts(rules[0], path) then 0 else 1 + Chosen(rules[1..], path)
  }

  lemma {:induction false} ChosenIsFirstMatch(rules: seq<Rule>, path: string)
    ensures forall j :: 0 <= j < Chosen(rules, path) ==> !Accepts(rules[j], path)
    ensures Chosen(rules, path) < |rules| ==> Accepts(rules[Chosen(rules, path)], path)
  {
    if rules != [] && !Accepts(rules[0], path) {
      ChosenIsFirstMatch(rules[1..], path);
      assert forall j :: 0 < j < |rules| ==> rules[j] == rules[1..][j - 1];
    }
  }

  lemma {:induction false} FirstMatchIsChosen(rules: seq<Rule>, path: string, i: nat)
    requires i <= |rules| && forall j :: 0 <= j < i ==> !Accepts(rules[j], path)
    requires i < |rules| ==> Accepts(rules[i], path)
    ensures i == Chosen(rules, path)
  {
    if i > 0 {
      assert forall j :: 0 < j < |rules| ==> rules[j] == rules[1..][j - 1];
      FirstMatchIsChosen(rules[1..], path, i - 1);
    }
  }

  method FindRule(rules: seq<Rule>, path: string) returns (i: nat)
    ensures i == Chosen(rules, path)
  {
    i := 0;
    while i < |rules| && !Accepts(rules[i], path)
      invariant i <= |rules|
      invariant forall j :: 0 <= j < i ==> !Accepts(rules[j], path)
    {
      i := i + 1;
    }
    FirstMatchIsChosen(rules, path, i);
  }

  predicate DecidedBy(rules: seq<Rule>, path: string, rule: Rule) {
    Chosen(rules, path) < |rules| && rules[Chosen(rules, path)] == rule
  }

  predicate Undecided(rules: seq<Rule>, path: string) { Chosen(rules, path) == |rules| }

  predicate GoesTo(rules: seq<Rule>, path: string, mode: Mode) {
    Chosen(rules, path) < |rules| && rules[Chosen(rules, path)].mode == mode
  }

  function PathsOf(entries: seq<Entry>): seq<string> {
    seq(|entries|, i requires 0 <= i < |entries| => entries[i].path)
  }

  /** The given paths whose first matching rule has the mode, in the given order. */
  ghost function WithMode(rules: seq<Rule>, paths: seq<string>, mode: Mode): seq<string> {
    if paths == [] then []
    else
      var front := WithMode(rules, paths[..|paths| - 1], mode);
      if GoesTo(rules, paths[|paths| - 1], mode) then front + [paths[|paths| - 1]] else front
  }

  ghost function WithoutRule(rules: seq<Rule>, paths: seq<string>): seq<string> {
    if paths == [] then []
    else
      var front := WithoutRule(rules, paths[..|paths| - 1]);
      if Undecided(rules, paths[|paths| - 1]) then front + [paths[|paths| - 1]] else front
  }

  /** A plan sorts the paths by their first matching rule and keeps their order. */
  ghost predicate PlanOf(rules: seq<Rule>, paths: seq<string>, plan: Plan) {
    && PathsOf(plan.hot) == WithMode(rules, paths, Hot)
    && PathsOf(plan.restart) == WithMode(rules, paths, Restart)
    && plan.ignored == WithoutRule(rules, paths)
    && (forall k :: 0 <= k < |plan.hot| ==> DecidedBy(rules, plan.hot[k].path, plan.hot[k].rule))
    && (forall k :: 0 <= k < |plan.restart| ==> DecidedBy(rules, plan.restart[k].path, plan.restart[k].rule))
  }

  lemma PlanOfNone(rules: seq<Rule>)
    ensures PlanOf(rules, [], Plan([], [], []))
  {
  }

  /** Where the next path goes. */
  function Planned(rules: seq<Rule>, plan: Plan, path: string): Plan {
    var i := Chosen(rules, path);
    if i == |rules| then plan.(ignored := plan.ignored + [path])
    else if rules[i].mode == Hot then plan.(hot := plan.hot + [Entry(path, rules[i])])
    else plan.(restart := plan.restart + [Entry(path, rules[i])])
  }

  lemma PathsOfNext(entries: seq<Entry>, e: Entry)
    ensures PathsOf(entries + [e]) == PathsOf(entries) + [e.path]
  {
  }

  lemma PlanOfNext(rules: seq<Rule>, paths: seq<string>, n: nat, plan: Plan)
    requires n < |paths| && PlanOf(rules, paths[..n], plan)
    ensures PlanOf(rules, paths[..n + 1], Planned(rules, plan, paths[n]))
  {
    hide Chosen;
    var path, i := paths[n], Chosen(rules, paths[n]);
    assert paths[..n + 1][..n] == paths[..n];
    if i < |rules| {
      PathsOfNext(plan.hot, Entry(path, rules[i]));
      PathsOfNext(plan.restart, Entry(path, rules[i]));
    }
    hide PathsOf;
  }

  method BuildReloadPlan(changedPaths: seq<string>, rules: seq<Rule>) returns (plan: Plan)
    ensures PlanOf(rules, changedPaths, plan)
  {
    hide PlanOf, Chosen;
    var hot, restart, ignored := [], [], [];
    PlanOfNone(rules);
    for n := 0 to |changedPaths|
      invariant PlanOf(rules, changedPaths[..n], Plan(hot, restart, ignored))
    {
      var path := changedPaths[n];
      PlanOfNext(rules, changedPaths, n, Plan(hot, restart, ignored));
      var i := FindRule(rules, path);
      if i == |rules| {
        ignored := ignored + [path];
        continue;
      }
      if rules[i].mode == Hot {
        hot := hot + [Entry(path, rules[i])];
      } else {
        restart := restart + [Entry(path, rules[i])];
      }
    }
    assert changedPaths[..|changedPaths|] == changedPaths;
    plan := Plan(hot, restart, ignored);
  }

  /** Every changed path lands in exactly one of the three lists. */
  lemma {:induction false} PlanPartitions(rules: seq<Rule>, paths: seq<string>, plan: Plan)
    requires PlanOf(rules, paths, plan)
    ensures multiset(PathsOf(plan.hot)) + multiset(PathsOf(plan.restart)) + multiset(plan.ignored) == multiset(paths)
  {
    ListsPartition(rules, paths);
  }

  /** Each path goes to exactly one of the lists. */
  lemma OneListOnly(rules: seq<Rule>, path: string)
    ensures Undecided(rules, path) ==> !GoesTo(rules, path, Hot) && !GoesTo(rules, path, Restart)
    ensures !Undecided(rules, path) ==> (GoesTo(rules, path, Hot) <==> !GoesTo(rules, path, Restart))
  {
    hide Accepts;
  }

  lemma {:induction false} ListsPartition(rules: seq<Rule>, paths: seq<string>)
    ensures multiset(WithMode(rules, paths, Hot)) + multiset(WithMode(rules, paths, Restart))
          + multiset(WithoutRule(rules, paths)) == multiset(paths)
    decreases |paths|
  {
    if paths != [] {
      var front, last := paths[..|paths| - 1], paths[|paths| - 1];
      OneListOnly(rules, last);
      hide Undecided, GoesTo;
      ListsPartition(rules, front);
      assert paths == front + [last];
    }
  }

  /** The rule is the first one whose pattern accepts the path. */
  ghost predicate FirstFor(rules: seq<Rule>, path: string, rule: Rule) {
    exists i :: 0 <= i < |rules| && rules[i] == rule && GlobRules.Test(rules[i].pattern, path)
                && forall j :: 0 <= j < i ==> !GlobRules.Test(rules[j].pattern, path)
  }

  lemma DecidedByTheFirst(rules: seq<Rule>, path: string, rule: Rule)
    ensures DecidedBy(rules, path, rule) <==> FirstFor(rules, path, rule)
  {
    ChosenIsFirstMatch(rules, path);
    hide GlobRules.Test;
    if i :| 0 <= i < |rules| && rules[i] == rule && GlobRules.Test(rules[i].pattern, path)
            && forall j :: 0 <= j < i ==> !GlobRules.Test(rules[j].pattern, path) {
      forall j | 0 <= j < i ensures !Accepts(rules[j], path) {}
      FirstMatchIsChosen(rules, path, i);
    }
  }

  lemma UndecidedIff(rules: seq<Rule>, path: string)
    ensures Undecided(rules, path) <==> forall i :: 0 <= i < |rules| ==> !GlobRules.Test(rules[i].pattern, path)
  {
    ChosenIsFirstMatch(rules, path);
    hide GlobRules.Test;
    if forall i :: 0 <= i < |rules| ==> !GlobRules.Test(rules[i].pattern, path) {
      forall i | 0 <= i < |rules| ensures !Accepts(rules[i], path) {}
      FirstMatchIsChosen(rules, path, |rules|);
    } else {
      var i :| 0 <= i < |rules| && GlobRules.Test(rules[i].pattern, path);
      assert Accepts(rules[i], path);
    }
  }

  lemma {:induction false} WithModeHas(rules: seq<Rule>, paths: seq<string>, mode: Mode)
    ensures forall path :: path in WithMode(rules, paths, mode) ==> path in paths && GoesTo(rules, path, mode)
    ensures Text.Subsequence(WithMode(rules, paths, mode), paths)
    decreases |paths|
  {
    hide GoesTo;
    if paths != [] {
      var front, last := paths[..|paths| - 1], paths[|paths| - 1];
      WithModeHas(rules, front, mode);
      assert paths == front + [last];
      Text.SubsequenceNext(WithMode(rules, front, mode), front, last);
    }
  }

  lemma {:induction false} WithoutRuleHas(rules: seq<Rule>, paths: seq<string>)
    ensures forall path :: path in WithoutRule(rules, paths) ==> path in paths && Undecided(rules, path)
    ensures Text.Subsequence(WithoutRule(rules, paths), paths)
    decreases |paths|
  {
    hide Undecided;
    if paths != [] {
      var front, last := paths[..|paths| - 1], paths[|paths| - 1];
      WithoutRuleHas(rules, front);
      assert paths == front + [last];
      Text.SubsequenceNext(WithoutRule(rules, front), front, last);
    }
  }

  /** What a plan says: the first matching rule is a hot one, or a restart one, or there is none. */
  lemma PlanListsSay(rules: seq<Rule>, paths: seq<string>, plan: Plan)
    requires PlanOf(rules, paths, plan)
    ensures forall e :: e in plan.hot ==> FirstFor(rules, e.path, e.rule) && e.rule.mode == Hot
    ensures forall e :: e in plan.restart ==> FirstFor(rules, e.path, e.rule) && e.rule.mode == Restart
    ensures forall path, i :: path in plan.ignored && 0 <= i < |rules| ==> !GlobRules.Test(rules[i].pattern, path)
    ensures Text.Subsequence(PathsOf(plan.hot), paths) && Text.Subsequence(PathsOf(plan.restart), paths)
    ensures Text.Subsequence(plan.ignored, paths)
  {
    hide GlobRules.Test, Chosen, WithMode, WithoutRule, Undecided, FirstFor;
    WithModeHas(rules, paths, Hot);
    WithModeHas(rules, paths, Restart);
    WithoutRuleHas(rules, paths);
    forall k | 0 <= k < |plan.hot|
      ensures FirstFor(rules, plan.hot[k].path, plan.hot[k].rule) && plan.hot[k].rule.mode == Hot
    {
      DecidedByTheFirst(rules, plan.hot[k].path, plan.hot[k].rule);
      assert PathsOf(plan.hot)[k] == plan.hot[k].path;
      assert plan.hot[k].path in WithMode(rules, paths, Hot);
    }
    forall k | 0 <= k < |plan.restart|
      ensures FirstFor(rules, plan.restart[k].path, plan.restart[k].rule) && plan.restart[k].rule.mode == Restart
    {
      DecidedByTheFirst(rules, plan.restart[k].path, plan.restart[k].rule);
      assert PathsOf(plan.restart)[k] == plan.restart[k].path;
      assert plan.restart[k].path in WithMode(rules, paths, Restart);
    }
    forall path | path in plan.ignored ensures Undecided(rules, path) {}
    forall path, i | path in plan.ignored && 0 <= i < |rules|
      ensures !GlobRules.Test(rules[i].pattern, path)
    {
      UndecidedIff(rules, path);
    }
  }

  // ---- the reloader -----------------------------------------------------------------------------

  function CallAt(rule: Rule, path: string, before: Json, after: Json): Call {
    Call(rule, path, before, after, Get(before, Text.Split(path, '.')), Get(after, Text.Split(path, '.')))
  }

  /** The handler calls a plan makes: one for each hot entry whose rule has a handler. */
  function CallsOf(hot: seq<Entry>, before: Json, after: Json): seq<Call> {
    if hot == [] then []
    else
      var e := hot[|hot| - 1];
      CallsOf(hot[..|hot| - 1], before, after)
      + if e.rule.hasHandler then [CallAt(e.rule, e.path, before, after)] else []
  }

  lemma NextCall(hot: seq<Entry>, n: nat, before: Json, after: Json)
    requires n < |hot|
    ensures CallsOf(hot[..n + 1], before, after)
         == CallsOf(hot[..n], before, after)
            + if hot[n].rule.hasHandler then [CallAt(hot[n].rule, hot[n].path, before, after)] else []
  {
    hide CallAt;
    assert hot[..n + 1][..n] == hot[..n];
  }

  /** The first rule that matches the path is a hot one with a handler. */
  predicate HasHotHandler(rules: seq<Rule>, path: string) {
    GoesTo(rules, path, Hot) && rules[Chosen(rules, path)].hasHandler
  }

  function HotRule(rules: seq<Rule>, path: string): Rule
    requires HasHotHandler(rules, path)
  {
    rules[Chosen(rules, path)]
  }

  /** The same calls, read off the changed paths and the rules. */
  function CallsFor(rules: seq<Rule>, paths: seq<string>, before: Json, after: Json): seq<Call> {
    if paths == [] then []
    else
      var path := paths[|paths| - 1];
      CallsFor(rules, paths[..|paths| - 1], before, after)
      + if HasHotHandler(rules, path) then [CallAt(HotRule(rules, path), path, before, after)] else []
  }

  /** A plan's calls are determined by its paths. */
  lemma {:induction false} CallsOfPlan(rules: seq<Rule>, paths: seq<string>, hot: seq<Entry>, before: Json, after: Json)
    requires PathsOf(hot) == WithMode(rules, paths, Hot)
    requires forall k :: 0 <= k < |hot| ==> DecidedBy(rules, hot[k].path, hot[k].rule)
    ensures CallsOf(hot, before, after) == CallsFor(rules, paths, before, after)
    decreases |paths|
  {
    hide CallAt, Chosen;
    if paths != [] {
      var front, last := paths[..|paths| - 1], paths[|paths| - 1];
      if GoesTo(rules, last, Hot) {
        var n := |hot| - 1;
        assert PathsOf(hot)[n] == hot[n].path && PathsOf(hot[..n]) == PathsOf(hot)[..n];
        CallsOfPlan(rules, front, hot[..n], before, after);
      } else {
        CallsOfPlan(rules, front, hot, before, after);
        assert CallsFor(rules, front, before, after) + [] == CallsFor(rules, front, before, after);
      }
    }
  }

  /** The paths whose handler threw, in the order of the calls. */
  function Failed(calls: seq<Call>, failing: set<string>): seq<string> {
    if calls == [] then []
    else
      var path := calls[|calls| - 1].path;
      Failed(calls[..|calls| - 1], failing) + if path in failing then [path] else []
  }

  lemma NextFailed(hot: seq<Entry>, n: nat, before: Json, after: Json, failing: set<string>)
    requires n < |hot|
    ensures Failed(CallsOf(hot[..n + 1], before, after), failing)
         == Failed(CallsOf(hot[..n], before, after), failing)
            + if hot[n].rule.hasHandler && hot[n].path in failing then [hot[n].path] else []
  {
    NextCall(hot, n, before, after);
    hide CallsOf, Get, Text.Split;
    var calls := CallsOf(hot[..n], before, after);
    if hot[n].rule.hasHandler {
      var call := CallAt(hot[n].rule, hot[n].path, before, after);
      assert (calls + [call])[..|calls|] == calls;
    } else {
      assert calls + [] == calls;
    }
  }

  lemma NothingYet(rules: seq<Rule>, before: Json, after: Json, failing: set<string>)
    ensures CallsOf([], before, after) == [] && CallsFor(rules, [], before, after) == [] && Failed([], failing) == []
  {
  }

  datatype State = State(current: Json, calls: seq<Call>, running: bool, timer: bool)

  /** What one reload does to the state, given what loading the file yields, and the plan it may return. */
  ghost predicate Reloaded(rules: seq<Rule>, s: State, loaded: Option<Json>, s': State, plan: Option<Plan>) {
    match loaded
    case None => s' == s && plan == None
    case Some(next) =>
      var paths := ConfigDiff.Diff(s.current, next, "");
      && s' == s.(current := next, calls := s.calls + CallsFor(rules, paths, s.current, next))
      && (plan.Some? ==> paths != [] && PlanOf(rules, paths, plan.value))
  }

  lemma PlanMakes(rules: seq<Rule>, paths: seq<string>, plan: Plan, before: Json, after: Json)
    requires PlanOf(rules, paths, plan)
    ensures CallsOf(plan.hot, before, after) == CallsFor(rules, paths, before, after)
  {
    CallsOfPlan(rules, paths, plan.hot, before, after);
  }

  class Reloader {
    const rules: seq<Rule>
    var current: Json
    var calls: seq<Call>
    var running: bool
    var timer: bool
    /** The paths whose handler threw, in order; read by nothing. */
    var failures: seq<string>

    constructor (initial: Json, rules: seq<Rule>)
      ensures this.rules == rules && Now() == State(initial, [], false, false) && failures == []
    {
      this.rules := rules;
      current, calls, running, timer, failures := initial, [], false, false, [];
    }

    ghost function Now(): State
      reads this
    {
      State(current, calls, running, timer)
    }

    method Start()
      modifies this
      ensures Now() == old(Now()).(running := true)
    {
      if running { return; }
      running := true;
    }

    method Stop()
      modifies this
      ensures Now() == if old(running) then old(Now()).(running := false, timer := false) else old(Now())
    {
      if !running { return; }
      running := false;
      if timer { timer := false; }
    }

    /** The file watcher's callback; it is registered exactly while the reloader runs. */
    method ScheduleReload()
      requires running
      modifies this
      ensures Now() == old(Now()).(timer := true)
    {
      if timer { timer := false; }
      timer := true;
    }

    /**
     `failing` are the paths whose handler throws; `appliedThrows` says the same of `onApplied`.  Neither
     stops a later handler nor keeps the new config from being taken: `failing` is recorded, no more.
     */
    method DoReload(loaded: Option<Json>, failing: set<string>, appliedThrows: bool) returns (plan: Option<Plan>)
      modifies this
      ensures Reloaded(rules, old(Now()), loaded, Now(), plan)
      ensures appliedThrows ==> plan == None
      ensures !appliedThrows && loaded.Some? && ConfigDiff.Diff(old(current), loaded.value, "") != [] ==> plan.Some?
      ensures old(calls) <= calls && failures == old(failures) + Failed(calls[|old(calls)|..], failing)
    {
      hide ConfigDiff.Diff, PlanOf, CallsOf, CallsFor, CallAt, Failed;
      if loaded.None? {
        NothingYet(rules, current, current, failing);
        assert calls[|calls|..] == [] && failures + [] == failures;
        return None;
      }
      var next := loaded.value;
      NothingYet(rules, current, next, failing);
      var changes := ConfigDiff.DiffConfigPaths(current, next, "");
      if |changes| == 0 {
        assert changes == [] && calls + [] == calls && calls[|calls|..] == [] && failures + [] == failures;
        current := next;
        return None;
      }
      var p := BuildReloadPlan(changes, rules);
      for n := 0 to |p.hot|
        invariant current == old(current) && running == old(running) && timer == old(timer)
        invariant calls == old(calls) + CallsOf(p.hot[..n], current, next)
        invariant failures == old(failures) + Failed(CallsOf(p.hot[..n], current, next), failing)
      {
        NextCall(p.hot, n, current, next);
        NextFailed(p.hot, n, current, next, failing);
        CallHandler(p.hot[n], next, failing);
      }
      assert p.hot[..|p.hot|] == p.hot;
      PlanMakes(rules, changes, p, current, next);
      current := next;
      if appliedThrows { return None; }
      return Some(p);
    }

    method CallHandler(e: Entry, next: Json, failing: set<string>)
      modifies this`calls, this`failures
      ensures calls == old(calls) + if e.rule.hasHandler then [CallAt(e.rule, e.path, current, next)] else []
      ensures failures == old(failures) + if e.rule.hasHandler && e.path in failing then [e.path] else []
    {
      var oldValue := ConfigDiff.GetByPath(current, e.path);
      var newValue := ConfigDiff.GetByPath(next, e.path);
      if e.rule.hasHandler {
        calls := calls + [Call(e.rule, e.path, current, next, oldValue, newValue)];
        if e.path in failing {
          failures := failures + [e.path];
        }
      }
    }

    /** The debounce timer fires. */
    method OnTimer(loaded: Option<Json>, failing: set<string>, appliedThrows: bool)
      requires timer
      modifies this
      ensures Next(rules, old(Now()), TimerFires(loaded), Now())
    {
      timer := false;
      var plan := DoReload(loaded, failing, appliedThrows);
    }
  }

  // ---- main results -----------------------------------------------------------------------------

  datatype Event = StartUp | ShutDown | FileTouched | TimerFires(loaded: Option<Json>) | Reload(request: Option<Json>)

  /** One event of a run.  A timer fires only while it is set and the watcher calls only while running. */
  ghost predicate Next(rules: seq<Rule>, s: State, e: Event, s': State) {
    match e
    case StartUp => s' == s.(running := true)
    case ShutDown => s' == if s.running then s.(running := false, timer := false) else s
    case FileTouched => s.running && s' == s.(timer := true)
    case TimerFires(loaded) => s.timer && exists p :: Reloaded(rules, s.(timer := false), loaded, s', p)
    case Reload(loaded) => exists p :: Reloaded(rules, s, loaded, s', p)
  }

  ghost predicate Run(rules: seq<Rule>, states: seq<State>, events: seq<Event>) {
    && |states| == |events| + 1
    && forall n :: 0 <= n < |events| ==> Next(rules, states[n], events[n], states[n + 1])
  }

  lemma RunFront(rules: seq<Rule>, states: seq<State>, events: seq<Event>)
    requires Run(rules, states, events) && events != []
    ensures var n := |events| - 1;
            && Run(rules, states[..n + 1], events[..n]) && states[..n + 1][n] == states[n]
            && Next(rules, states[n], events[n], states[n + 1])
  {
    hide Next;
    var n := |events| - 1;
    forall i | 0 <= i < n
      ensures Next(rules, states[..n + 1][i], events[..n][i], states[..n + 1][i + 1])
    {
      assert Next(rules, states[i], events[i], states[i + 1]);
    }
  }

  function LoadedBy(e: Event): Option<Json> {
    match e
    case TimerFires(loaded) => loaded
    case Reload(loaded) => loaded
    case _ => None
  }

  /** The last config that loaded, or the initial one. */
  function LastLoaded(initial: Json, events: seq<Event>): Json {
    if events == [] then initial
    else
      var last := LoadedBy(events[|events| - 1]);
      if last.Some? then last.value else LastLoaded(initial, events[..|events| - 1])
  }

  lemma NextLoads(rules: seq<Rule>, s: State, e: Event, s': State)
    requires Next(rules, s, e, s')
    ensures s'.current == if LoadedBy(e).Some? then LoadedBy(e).value else s.current
    ensures (!s.running ==> !s.timer) ==> !s'.running ==> !s'.timer
  {
    hide PlanOf, CallsFor, ConfigDiff.Diff;
  }

  lemma {:induction false} CurrentIsLastLoaded(rules: seq<Rule>, states: seq<State>, events: seq<Event>)
    requires Run(rules, states, events)
    ensures states[|events|].current == LastLoaded(states[0].current, events)
    decreases |events|
  {
    hide Next;
    if events != [] {
      var n := |events| - 1;
      RunFront(rules, states, events);
      NextLoads(rules, states[n], events[n], states[n + 1]);
      CurrentIsLastLoaded(rules, states[..n + 1], events[..n]);
    }
  }

  /** A stopped reloader has no timer pending, so the watcher never reloads behind its back. */
  lemma {:induction false} NoTimerWhileStopped(rules: seq<Rule>, states: seq<State>, events: seq<Event>)
    requires Run(rules, states, events) && (!states[0].running ==> !states[0].timer)
    ensures !states[|events|].running ==> !states[|events|].timer
    decreases |events|
  {
    hide Next;
    if events != [] {
      var n := |events| - 1;
      RunFront(rules, states, events);
      NextLoads(rules, states[n], events[n], states[n + 1]);
      NoTimerWhileStopped(rules, states[..n + 1], events[..n]);
    }
  }

  /** Reloading a file that reads the same as the current config runs no handler and reports no plan. */
  lemma ReloadingTheSameRunsNothing(rules: seq<Rule>, s: State, next: Json, s': State, plan: Option<Plan>)
    requires ConfigDiff.IsRoot(s.current) && ConfigDiff.IsRoot(next)
    requires Reloaded(rules, s, Some(next), s', plan)
    ensures ConfigDiff.Same(s.current, next) ==> plan == None && s'.calls == s.calls
    ensures !ConfigDiff.Same(s.current, next) ==> ConfigDiff.Diff(s.current, next, "") != []
  {
    ConfigDiff.DiffEmptyIffSame(s.current, next);
  }

  function CallPaths(calls: seq<Call>): seq<string> {
    seq(|calls|, i requires 0 <= i < |calls| => calls[i].path)
  }

  lemma CountNext(calls: seq<Call>, call: Call, path: string)
    ensures multiset(CallPaths(calls + [call]))[path]
         == multiset(CallPaths(calls))[path] + if call.path == path then 1 else 0
  {
    assert CallPaths(calls + [call]) == CallPaths(calls) + [call.path];
  }

  lemma CallsForNext(rules: seq<Rule>, front: seq<string>, path: string, before: Json, after: Json)
    ensures CallsFor(rules, front + [path], before, after)
         == CallsFor(rules, front, before, after)
            + if HasHotHandler(rules, path) then [CallAt(HotRule(rules, path), path, before, after)] else []
  {
    hide HasHotHandler, CallAt;
    assert (front + [path])[..|front|] == front;
  }

  lemma CallAtIsAt(rule: Rule, path: string, before: Json, after: Json)
    ensures CallAt(rule, path, before, after).path == path
  {
  }

  lemma CountOfNone(rules: seq<Rule>, before: Json, after: Json, path: string)
    ensures multiset(CallPaths(CallsFor(rules, [], before, after)))[path] == 0
  {
  }

  lemma {:induction false} CallCount(rules: seq<Rule>, paths: seq<string>, before: Json, after: Json, path: string)
    requires Text.Distinct(paths)
    ensures multiset(CallPaths(CallsFor(rules, paths, before, after)))[path]
         == if path in paths && HasHotHandler(rules, path) then 1 else 0
    decreases |paths|
  {
    hide *;
    if paths == [] {
      CountOfNone(rules, before, after, path);
    } else {
      var front, last := paths[..|paths| - 1], paths[|paths| - 1];
      assert paths == front + [last];
      Text.DistinctFront(front, last);
      CallCount(rules, front, before, after, path);
      CallsForNext(rules, front, last, before, after);
      var c := CallsFor(rules, front, before, after);
      if HasHotHandler(rules, last) {
        var call := CallAt(HotRule(rules, last), last, before, after);
        CallAtIsAt(HotRule(rules, last), last, before, after);
        CountNext(c, call, path);
      } else {
        assert c + [] == c;
      }
    }
  }

  /** The first rule that accepts the path is a hot one with a handler. */
  ghost predicate IsHandledHot(rules: seq<Rule>, path: string) {
    exists rule :: FirstFor(rules, path, rule) && rule.mode == Hot && rule.hasHandler
  }

  lemma HotHandlerIff(rules: seq<Rule>, path: string)
    ensures HasHotHandler(rules, path) <==> IsHandledHot(rules, path)
    ensures HasHotHandler(rules, path) ==> FirstFor(rules, path, HotRule(rules, path))
    ensures HasHotHandler(rules, path) ==> HotRule(rules, path).mode == Hot && HotRule(rules, path).hasHandler
  {
    hide Chosen, FirstFor;
    if HasHotHandler(rules, path) {
      DecidedByTheFirst(rules, path, HotRule(rules, path));
    }
    if rule :| FirstFor(rules, path, rule) && rule.mode == Hot && rule.hasHandler {
      DecidedByTheFirst(rules, path, rule);
    }
  }

  /** A call made with the rule and the two readings of its path. */
  ghost predicate TellsOf(rules: seq<Rule>, before: Json, after: Json, call: Call) {
    && FirstFor(rules, call.path, call.rule) && call.rule.mode == Hot && call.rule.hasHandler
    && call.oldConfig == before && call.oldValue == Get(before, Text.Split(call.path, '.'))
    && call.newConfig == after && call.newValue == Get(after, Text.Split(call.path, '.'))
  }

  lemma CallPathsNext(calls: seq<Call>, call: Call)
    ensures CallPaths(calls + [call]) == CallPaths(calls) + [call.path]
  {
  }

  lemma CallAtTells(rules: seq<Rule>, path: string, before: Json, after: Json)
    requires HasHotHandler(rules, path)
    ensures TellsOf(rules, before, after, CallAt(HotRule(rules, path), path, before, after))
  {
    HotHandlerIff(rules, path);
    hide Get, Text.Split, HasHotHandler, HotRule, FirstFor;
  }

  lemma {:induction false} CallsForTell(rules: seq<Rule>, paths: seq<string>, before: Json, after: Json)
    ensures var calls := CallsFor(rules, paths, before, after);
            && (forall call :: call in calls ==> TellsOf(rules, before, after, call))
            && Text.Subsequence(CallPaths(calls), paths)
    decreases |paths|
  {
    hide *;
    if paths == [] {
      NoCalls(rules, before, after);
    } else {
      var front, last := paths[..|paths| - 1], paths[|paths| - 1];
      assert paths == front + [last];
      CallsForTell(rules, front, before, after);
      CallsForNext(rules, front, last, before, after);
      var c := CallsFor(rules, front, before, after);
      Text.SubsequenceNext(CallPaths(c), front, last);
      if HasHotHandler(rules, last) {
        var call := CallAt(HotRule(rules, last), last, before, after);
        CallAtIsAt(HotRule(rules, last), last, before, after);
        CallAtTells(rules, last, before, after);
        CallPathsNext(c, call);
      } else {
        assert c + [] == c;
      }
    }
  }

  lemma NoCalls(rules: seq<Rule>, before: Json, after: Json)
    ensures CallsFor(rules, [], before, after) == [] && Text.Subsequence(CallPaths([]), [])
  {
  }

  /**
   One reload calls the handler of a path exactly once if the path changed and its first matching rule
   is a hot one with a handler, and calls no other, whatever throws.  The calls come in the order of the
   changed paths, and each is given the config and the value from before and those from the file.
   */
  lemma EachHotHandlerOnce(rules: seq<Rule>, s: State, next: Json, s': State, plan: Option<Plan>, path: string)
    requires ConfigDiff.IsRoot(s.current) && ConfigDiff.IsRoot(next)
    requires Reloaded(rules, s, Some(next), s', plan)
    ensures s.calls <= s'.calls
    ensures var calls := s'.calls[|s.calls|..];
            && multiset(CallPaths(calls))[path]
               == (if path in ConfigDiff.Diff(s.current, next, "") && IsHandledHot(rules, path) then 1 else 0)
            && Text.Subsequence(CallPaths(calls), ConfigDiff.Diff(s.current, next, ""))
            && forall call :: call in calls ==> TellsOf(rules, s.current, next, call)
  {
    var d := ConfigDiff.Diff(s.current, next, "");
    DiffIsDistinct(s.current, next);
    HotHandlerIff(rules, path);
    hide ConfigDiff.Diff, CallsFor, HasHotHandler, IsHandledHot, TellsOf, Text.Subsequence;
    CallCount(rules, d, s.current, next, path);
    CallsForTell(rules, d, s.current, next);
    assert s'.calls[|s.calls|..] == CallsFor(rules, d, s.current, next);
  }

  /** What is recorded of the handlers that throw: their paths, each of them, and no others. */
  lemma {:induction false} FailedAreTheThrowing(calls: seq<Call>, failing: set<string>)
    ensures forall path :: path in Failed(calls, failing) <==> path in failing && path in CallPaths(calls)
    ensures Text.Subsequence(Failed(calls, failing), CallPaths(calls))
    decreases |calls|
  {
    if calls == [] {
      assert CallPaths(calls) == [];
    } else {
      var front, last := calls[..|calls| - 1], calls[|calls| - 1];
      FailedAreTheThrowing(front, failing);
      assert calls == front + [last];
      CallPathsNext(front, last);
      hide CallPaths;
      Text.SubsequenceNext(Failed(front, failing), CallPaths(front), last.path);
      assert Failed(front, failing) + [] == Failed(front, failing);
    }
  }

  /** The calls of a run, from nothing but what the reloads loaded. */
  function History(rules: seq<Rule>, initial: Json, events: seq<Event>): seq<Call> {
    if events == [] then []
    else
      var front := events[..|events| - 1];
      var before, loaded := LastLoaded(initial, front), LoadedBy(events[|events| - 1]);
      History(rules, initial, front)
      + if loaded.None? then []
        else CallsFor(rules, ConfigDiff.Diff(before, loaded.value, ""), before, loaded.value)
  }

  lemma NextCalls(rules: seq<Rule>, s: State, e: Event, s': State)
    requires Next(rules, s, e, s')
    ensures s'.calls == s.calls + if LoadedBy(e).None? then []
                                  else CallsFor(rules, ConfigDiff.Diff(s.current, LoadedBy(e).value, ""),
                                                s.current, LoadedBy(e).value)
  {
    hide CallsFor, ConfigDiff.Diff, PlanOf;
    assert s.calls + [] == s.calls;
  }

  /** Over every run the handler calls are those of its reloads, one after the other, and no others. */
  lemma {:induction false} CallsAreHistory(rules: seq<Rule>, states: seq<State>, events: seq<Event>)
    requires Run(rules, states, events)
    ensures states[|events|].calls == states[0].calls + History(rules, states[0].current, events)
    decreases |events|
  {
    hide Next, CallsFor, ConfigDiff.Diff;
    if events != [] {
      var n := |events| - 1;
      RunFront(rules, states, events);
      NextCalls(rules, states[n], events[n], states[n + 1]);
      CallsAreHistory(rules, states[..n + 1], events[..n]);
      CurrentIsLastLoaded(rules, states[..n + 1], events[..n]);
    }
  }

  lemma DiffIsDistinct(before: Json, after: Json)
    requires ConfigDiff.IsRoot(before) && ConfigDiff.IsRoot(after)
    ensures Text.Distinct(ConfigDiff.Diff(before, after, ""))
  {
    var d := ConfigDiff.Diff(before, after, "");
    forall i, j | 0 <= i < j < |d| ensures d[i] != d[j] { ConfigDiff.DiffPathsIncomparable(before, after, i, j); }
  }
}
