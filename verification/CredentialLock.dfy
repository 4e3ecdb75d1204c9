/**
 The credential lock and the double-checked refresh, as a step protocol.

 Any number of processes call `getValidCredential` or `refreshCredentialNow` for one provider.  They
 share one lock file, one credential file and one clock.  Every access to a file and every clock
 reading is a step of its own, so that any interleaving of them is a run; a refresh, from the request
 to the stored reply, is one step.
 */
module CredentialLock {
  import opened Options

  const LOCK_STALE_MS: int := 30_000
  const LOCK_POLL_MS: int := 100
  const LOCK_WAIT_TIMEOUT_MS: int := 20_000
  const REFRESH_BUFFER_MS: int := 5 * 60 * 1000

  datatype Credential = Credential(token: string, expiresAt: int)

  datatype Request =
    | GetValid(skipRefresh: bool, registered: bool)
    | RefreshNow(skipIfFresherThan: Option<int>, registered: bool)

  /** A call in flight: what was asked for and the credential it loaded before taking the lock. */
  datatype Call = Call(need: Option<int>, current: Credential)

  datatype Outcome = Returned(credential: Credential) | Failed

  /** Where a process stands; each constructor names the step it takes next. */
  datatype Phase =
    | Idle(last: Option<Outcome>)
    | Fetching(req: Request)                                // loadCredential before the lock
    | Weighing(current: Credential, registered: bool)       // Date.now() for the runway
    | Arriving(call: Call)                                  // Date.now() for the deadline
    | Opening(call: Call, deadline: int)                    // openSync(path, 'wx')
    | Reading(call: Call, deadline: int)                    // Date.now() for the age
    | Statting(call: Call, deadline: int, clock: int)       // statSync(path).mtimeMs
    | Breaking(call: Call, deadline: int)                   // rmSync(path) on a stale lock
    | Polling(call: Call, deadline: int)                    // Date.now() > deadline
    | Sleeping(call: Call, deadline: int, until: int)       // sleep(LOCK_POLL_MS)
    | Stamping(call: Call, since: int)                      // writeSync(fd, ...)
    | Loading(call: Call, since: int)                       // loadCredential inside the lock
    | Checking(call: Call, latest: Credential, since: int)  // is the runway long enough
    | Refreshing(latest: Credential, since: int, decided: int, need: Option<int>)
    | Releasing(outcome: Outcome, since: int)               // rmSync(path) in release()

  /** One refresh that was stored: the credential it started from and the one it produced. */
  datatype Mint = Mint(base: Credential, minted: Credential, decided: int, need: Option<int>)

  /** The file of one `openSync`: the process that made it and when it was last written. */
  datatype LockFile = LockFile(owner: nat, mtime: int)

  datatype State = State(
    now: int,
    lockFile: Option<LockFile>,
    stored: Option<Credential>,     // the credential file
    procs: seq<Phase>,
    mints: seq<Mint>)               // history, read by no step

  /** What the authorization server answers to a refresh, for the one step that asks it. */
  datatype Reply = Tokens(token: string, expiresIn: int) | Rejected

  datatype Action = Tick(to: int) | Start(p: nat, req: Request) | Go(p: nat, reply: Reply)

  /** The process has created the lock file and has not yet removed it. */
  predicate Holds(ph: Phase) {
    ph.Stamping? || ph.Loading? || ph.Checking? || ph.Refreshing? || ph.Releasing?
  }

  /** True runway test of the source: the credential outlives `now` by more than `need`. */
  predicate LongEnough(c: Credential, now: int, need: Option<int>) {
    need.Some? && c.expiresAt - now > need.value
  }

  /** What both entry points do with the credential they load before the lock is asked for. */
  function Fetched(stored: Option<Credential>, req: Request): Phase {
    if stored.None? then Idle(Some(Failed))
    else
      match req
      case GetValid(skip, registered) =>
        if skip then Idle(Some(Returned(stored.value))) else Weighing(stored.value, registered)
      case RefreshNow(need, registered) =>
        if registered then Arriving(Call(need, stored.value)) else Idle(Some(Failed))
  }

  function Weighed(current: Credential, registered: bool, now: int): Phase {
    if LongEnough(current, now, Some(REFRESH_BUFFER_MS)) || !registered then Idle(Some(Returned(current)))
    else Arriving(Call(Some(REFRESH_BUFFER_MS), current))
  }

  function Move(s: State, p: nat, ph: Phase): State
    requires p < |s.procs|
  {
    s.(procs := s.procs[p := ph])
  }

  /** The next step of process `p`; `None` when it has none. */
  function Advance(s: State, p: nat, reply: Reply): Option<State>
    requires p < |s.procs|
  {
    match s.procs[p]
    case Idle(_) => None
    case Fetching(req) => Some(Move(s, p, Fetched(s.stored, req)))
    case Weighing(current, registered) => Some(Move(s, p, Weighed(current, registered, s.now)))
    case Arriving(call) => Some(Move(s, p, Opening(call, s.now + LOCK_WAIT_TIMEOUT_MS)))
    case Opening(call, deadline) =>
      if s.lockFile.Some? then Some(Move(s, p, Reading(call, deadline)))
      else Some(Move(s, p, Stamping(call, s.now)).(lockFile := Some(LockFile(p, s.now))))
    case Reading(call, deadline) => Some(Move(s, p, Statting(call, deadline, s.now)))
    case Statting(call, deadline, clock) =>
      if s.lockFile.None? then Some(Move(s, p, Opening(call, deadline)))
      else if clock - s.lockFile.value.mtime > LOCK_STALE_MS then Some(Move(s, p, Breaking(call, deadline)))
      else Some(Move(s, p, Polling(call, deadline)))
    case Breaking(call, deadline) => Some(Move(s, p, Opening(call, deadline)).(lockFile := None))
    case Polling(call, deadline) =>
      if s.now > deadline then Some(Move(s, p, Idle(Some(Failed))))
      else Some(Move(s, p, Sleeping(call, deadline, s.now + LOCK_POLL_MS)))
    case Sleeping(call, deadline, until) =>
      if s.now >= until then Some(Move(s, p, Opening(call, deadline))) else None
    case Stamping(call, since) =>
      // The write goes to the open descriptor: a file that was removed stays removed, and a file that
      // someone else has made since is not touched.
      var mine := s.lockFile.Some? && s.lockFile.value.owner == p;
      Some(Move(s, p, Loading(call, since)).(lockFile := if mine then Some(LockFile(p, s.now)) else s.lockFile))
    case Loading(call, since) =>
      Some(Move(s, p, Checking(call, if s.stored.Some? then s.stored.value else call.current, since)))
    case Checking(call, latest, since) =>
      if LongEnough(latest, s.now, call.need) then Some(Move(s, p, Releasing(Returned(latest), since)))
      else Some(Move(s, p, Refreshing(latest, since, s.now, call.need)))
    case Refreshing(latest, since, decided, need) =>
      if reply.Rejected? then Some(Move(s, p, Releasing(Failed, since)))
      else
        var minted := Credential(reply.token, s.now + reply.expiresIn * 1000);
        Some(Move(s, p, Releasing(Returned(minted), since))
             .(stored := Some(minted), mints := s.mints + [Mint(latest, minted, decided, need)]))
    case Releasing(outcome, since) => Some(Move(s, p, Idle(Some(outcome))).(lockFile := None))
  }

  function Step(s: State, a: Action): Option<State> {
    match a
    case Tick(to) => if to >= s.now then Some(s.(now := to)) else None
    case Start(p, req) =>
      if p < |s.procs| && s.procs[p].Idle? then Some(Move(s, p, Fetching(req))) else None
    case Go(p, reply) => if p < |s.procs| then Advance(s, p, reply) else None
  }

  function Run(s: State, actions: seq<Action>): Option<State>
    decreases |actions|
  {
    if actions == [] then Some(s)
    else
      var before := Run(s, actions[..|actions| - 1]);
      if before.None? then None else Step(before.value, actions[|actions| - 1])
  }

  /** Before any call: no lock file, nobody busy, one stored credential. */
  predicate Initial(s: State) {
    s.lockFile.None? && s.mints == [] && s.stored.Some? && forall p :: 0 <= p < |s.procs| ==> s.procs[p].Idle?
  }

  // ---- the timing assumption --------------------------------------------------------------------

  /** No holder has crashed or overrun: each one has held the lock for at most 30 s. */
  ghost predicate Prompt(s: State) {
    forall p :: 0 <= p < |s.procs| && Holds(s.procs[p]) ==> s.now <= s.procs[p].since + 30_000
  }

  /** A run all of whose states are prompt. */
  ghost predicate PromptRun(s: State, actions: seq<Action>) {
    forall n :: 0 <= n <= |actions| ==> Run(s, actions[..n]).Some? && Prompt(Run(s, actions[..n]).value)
  }

  // ---- what every step keeps --------------------------------------------------------------------

  ghost predicate AtMostOneHolder(s: State) {
    forall p, q :: 0 <= p < |s.procs| && 0 <= q < |s.procs| && Holds(s.procs[p]) && Holds(s.procs[q]) ==> p == q
  }

  ghost predicate SomeoneHolds(s: State) {
    exists p :: 0 <= p < |s.procs| && Holds(s.procs[p])
  }

  /** What the lock is for: one holder at most, and the file is there exactly while someone holds it. */
  ghost predicate LockExact(s: State) {
    AtMostOneHolder(s) && (s.lockFile.Some? <==> SomeoneHolds(s))
  }

  ghost predicate StampedInHold(s: State) {
    forall p :: 0 <= p < |s.procs| && Holds(s.procs[p]) ==>
      s.lockFile.Some? && s.procs[p].since <= s.lockFile.value.mtime <= s.now
  }

  ghost predicate NoStaleBreak(s: State) {
    forall p :: 0 <= p < |s.procs| ==>
      !s.procs[p].Breaking? && (s.procs[p].Statting? ==> s.procs[p].clock <= s.now)
  }

  /** Every process past the load inside the lock still works on the stored credential. */
  ghost predicate BaseIsStored(s: State) {
    && s.stored.Some?
    && forall p :: 0 <= p < |s.procs| && (s.procs[p].Checking? || s.procs[p].Refreshing?) ==>
         s.stored == Some(s.procs[p].latest)
  }

  /** The stored credential after the first `k` refreshes. */
  function CredentialBefore(first: Credential, mints: seq<Mint>, k: nat): Credential
    requires k <= |mints|
  {
    if k == 0 then first else mints[k - 1].minted
  }

  /** Each refresh started from what the refresh before it stored; the last one is what is stored. */
  ghost predicate OneChain(first: Credential, s: State) {
    && (forall k :: 0 <= k < |s.mints| ==> s.mints[k].base == CredentialBefore(first, s.mints, k))
    && s.stored == Some(CredentialBefore(first, s.mints, |s.mints|))
  }

  /** A refresh is only decided on a credential that is short of the caller's runway. */
  ghost predicate RefreshedWhenShort(s: State) {
    && (forall k :: 0 <= k < |s.mints| ==>
          s.mints[k].decided <= s.now && !LongEnough(s.mints[k].base, s.mints[k].decided, s.mints[k].need))
    && (forall p :: 0 <= p < |s.procs| && s.procs[p].Refreshing? ==>
          s.procs[p].decided <= s.now
          && !LongEnough(s.procs[p].latest, s.procs[p].decided, s.procs[p].need))
  }

  ghost predicate Safe(first: Credential, s: State) {
    && LockExact(s) && StampedInHold(s) && NoStaleBreak(s)
    && BaseIsStored(s) && OneChain(first, s) && RefreshedWhenShort(s)
  }

  /** The one step that can hurt: removing a lock file that is there because its age was over 30 s. */
  predicate BreaksLock(s: State, a: Action) {
    a.Go? && a.p < |s.procs| && s.procs[a.p].Breaking? && s.lockFile.Some?
  }

  /** The process creates the lock file. */
  predicate Creates(s: State, a: Action) {
    a.Go? && a.p < |s.procs| && s.procs[a.p].Opening? && s.lockFile.None?
  }

  /** The process removes its own lock file, or what is there in its place. */
  predicate Releases(s: State, a: Action) {
    a.Go? && a.p < |s.procs| && s.procs[a.p].Releasing?
  }

  /** Who holds the lock after a step, and whether the file is there. */
  lemma HoldersAfter(s: State, a: Action, s': State)
    requires Step(s, a) == Some(s')
    ensures |s'.procs| == |s.procs|
    ensures forall q :: 0 <= q < |s.procs| ==>
              (Holds(s'.procs[q]) <==>
                 if !a.Tick? && q == a.p then Creates(s, a) || (Holds(s.procs[q]) && !Releases(s, a))
                 else Holds(s.procs[q]))
    ensures s'.lockFile.Some? <==> Creates(s, a) || (s.lockFile.Some? && !Releases(s, a) && !BreaksLock(s, a))
    ensures Creates(s, a) || BreaksLock(s, a) ==> !Holds(s.procs[a.p])
    ensures Releases(s, a) ==> Holds(s.procs[a.p])
  {
    if !a.Tick? {
      assert forall q :: 0 <= q < |s.procs| && q != a.p ==> s'.procs[q] == s.procs[q];
    }
  }

  /** Whatever the clock does, a step keeps the lock exact if and only if it is not a stale removal. */
  lemma StepKeepsLockExact(s: State, a: Action, s': State)
    requires Step(s, a) == Some(s') && LockExact(s)
    ensures LockExact(s') <==> !BreaksLock(s, a)
  {
    HoldersAfter(s, a, s');
    hide Step, Holds, Creates, Releases, BreaksLock;
    if q :| 0 <= q < |s.procs| && Holds(s.procs[q]) && (a.Tick? || q != a.p) {
      assert Holds(s'.procs[q]);
    }
    if Creates(s, a) {
      CreatorIsThere(s, a);
      assert Holds(s'.procs[a.p]);
    }
  }

  lemma CreatorIsThere(s: State, a: Action)
    ensures Creates(s, a) || BreaksLock(s, a) || Releases(s, a) ==> !a.Tick? && a.p < |s.procs|
    ensures Creates(s, a) ==> s.lockFile.None?
    ensures BreaksLock(s, a) ==> s.lockFile.Some?
    ensures Creates(s, a) ==> !BreaksLock(s, a) && !Releases(s, a)
    ensures BreaksLock(s, a) ==> !Releases(s, a)
  {
  }

  lemma AdvanceMovesOne(s: State, p: nat, reply: Reply, s': State)
    requires p < |s.procs| && Advance(s, p, reply) == Some(s')
    ensures |s'.procs| == |s.procs| && s'.now == s.now
    ensures forall q :: 0 <= q < |s.procs| && q != p ==> s'.procs[q] == s.procs[q]
  {
  }

  predicate Stamped(ph: Phase, file: Option<LockFile>, now: int) {
    Holds(ph) ==> file.Some? && ph.since <= file.value.mtime <= now
  }

  /** What one process does to its own stamp and to a file that another one holds. */
  lemma AdvanceStamps(s: State, p: nat, reply: Reply, s': State)
    requires p < |s.procs| && Advance(s, p, reply) == Some(s') && Stamped(s.procs[p], s.lockFile, s.now)
    ensures Stamped(s'.procs[p], s'.lockFile, s'.now)
    ensures !Holds(s.procs[p]) && s.lockFile.Some? && !s.procs[p].Breaking? ==> s'.lockFile == s.lockFile
  {
  }

  /** A step towards a stale removal sees a file that was last written more than 30 s ago. */
  lemma AdvanceLooks(s: State, p: nat, reply: Reply, s': State)
    requires p < |s.procs| && Advance(s, p, reply) == Some(s')
    requires s.procs[p].Statting? ==> s.procs[p].clock <= s.now
    ensures s'.procs[p].Statting? ==> s'.procs[p].clock <= s'.now
    ensures s'.procs[p].Breaking? ==> s.lockFile.Some? && s.now - s.lockFile.value.mtime > LOCK_STALE_MS
  {
  }

  /** While every hold is prompt the lock file is never stale. */
  lemma FileIsFresh(s: State)
    requires LockExact(s) && StampedInHold(s) && Prompt(s)
    ensures s.lockFile.Some? ==> s.now - s.lockFile.value.mtime <= LOCK_STALE_MS
  {
    if s.lockFile.Some? {
      var q :| 0 <= q < |s.procs| && Holds(s.procs[q]);
      assert s.procs[q].since <= s.lockFile.value.mtime;
    }
  }

  lemma AdvanceKeepsStamp(s: State, p: nat, reply: Reply, s': State)
    requires p < |s.procs| && Advance(s, p, reply) == Some(s')
    requires LockExact(s) && StampedInHold(s) && NoStaleBreak(s) && Prompt(s)
    ensures StampedInHold(s') && NoStaleBreak(s')
  {
    assert forall q :: 0 <= q < |s.procs| ==> Stamped(s.procs[q], s.lockFile, s.now);
    AdvanceMovesOne(s, p, reply, s');
    AdvanceStamps(s, p, reply, s');
    AdvanceLooks(s, p, reply, s');
    FileIsFresh(s);
    hide Advance, Holds;
    forall q | 0 <= q < |s'.procs| ensures Stamped(s'.procs[q], s'.lockFile, s'.now) {
      if q != p && Holds(s.procs[q]) {
        assert !Holds(s.procs[p]) && Stamped(s.procs[q], s.lockFile, s.now);
      }
    }
  }

  lemma AdvanceKeepsBase(s: State, p: nat, reply: Reply, s': State)
    requires p < |s.procs| && Advance(s, p, reply) == Some(s')
    requires AtMostOneHolder(s) && BaseIsStored(s)
    ensures BaseIsStored(s')
  {
    forall q | 0 <= q < |s'.procs| && (s'.procs[q].Checking? || s'.procs[q].Refreshing?)
      ensures s'.stored == Some(s'.procs[q].latest)
    {
      if q != p {
        assert s'.procs[q] == s.procs[q] && Holds(s.procs[q]);
        assert !Holds(s.procs[p]);
      }
    }
  }

  /** Only a refresh that is answered stores anything, and what it stores goes on the history. */
  lemma AdvanceMints(s: State, p: nat, reply: Reply, s': State)
    requires p < |s.procs| && Advance(s, p, reply) == Some(s')
    ensures if s.procs[p].Refreshing? && reply.Tokens? then
              var was := s.procs[p];
              var minted := Credential(reply.token, s.now + reply.expiresIn * 1000);
              s'.stored == Some(minted) && s'.mints == s.mints + [Mint(was.latest, minted, was.decided, was.need)]
            else s'.mints == s.mints && s'.stored == s.stored
  {
  }

  lemma AdvanceKeepsChain(first: Credential, s: State, p: nat, reply: Reply, s': State)
    requires p < |s.procs| && Advance(s, p, reply) == Some(s')
    requires BaseIsStored(s) && OneChain(first, s)
    ensures OneChain(first, s')
  {
    AdvanceMints(s, p, reply, s');
    hide Advance;
    if s.procs[p].Refreshing? && reply.Tokens? {
      assert s.stored == Some(s.procs[p].latest);
      forall k | 0 <= k < |s'.mints|
        ensures s'.mints[k].base == CredentialBefore(first, s'.mints, k)
      {
        if k < |s.mints| {
          assert s'.mints[k] == s.mints[k];
        }
        assert CredentialBefore(first, s'.mints, k) == CredentialBefore(first, s.mints, k);
      }
    }
  }

  lemma AdvanceKeepsShort(s: State, p: nat, reply: Reply, s': State)
    requires p < |s.procs| && Advance(s, p, reply) == Some(s')
    requires RefreshedWhenShort(s)
    ensures RefreshedWhenShort(s')
  {
    assert forall q :: 0 <= q < |s.procs| && q != p ==> s'.procs[q] == s.procs[q];
    assert s'.now == s.now;
  }

  lemma StepKeepsSafe(first: Credential, s: State, a: Action, s': State)
    requires Step(s, a) == Some(s')
    requires Safe(first, s) && Prompt(s)
    ensures Safe(first, s')
  {
    StepKeepsLockExact(s, a, s');
    match a
    case Tick(to) =>
      assert s'.procs == s.procs;
    case Start(p, req) =>
      assert forall q :: 0 <= q < |s.procs| && q != p ==> s'.procs[q] == s.procs[q];
    case Go(p, reply) =>
      AdvanceKeepsStamp(s, p, reply, s');
      AdvanceKeepsBase(s, p, reply, s');
      AdvanceKeepsChain(first, s, p, reply, s');
      AdvanceKeepsShort(s, p, reply, s');
  }

  lemma {:induction false} PromptRunIsSafe(s: State, actions: seq<Action>)
    requires Initial(s) && PromptRun(s, actions)
    ensures Run(s, actions).Some? && Safe(s.stored.value, Run(s, actions).value)
    decreases |actions|
  {
    assert actions[..|actions|] == actions;
    if actions != [] {
      var front := actions[..|actions| - 1];
      forall n | 0 <= n <= |front|
        ensures front[..n] == actions[..n]
      {
      }
      PromptRunIsSafe(s, front);
      StepKeepsSafe(s.stored.value, Run(s, front).value, actions[|actions| - 1], Run(s, actions).value);
    }
  }

  // ---- main results -----------------------------------------------------------------------------

  /** Any number of processes, any interleaving: one holder at most, and the file is there exactly then. */
  lemma MutualExclusion(s: State, actions: seq<Action>)
    requires Initial(s) && PromptRun(s, actions)
    ensures Run(s, actions).Some? && LockExact(Run(s, actions).value)
  {
    PromptRunIsSafe(s, actions);
  }

  ghost predicate AlwaysExact(s: State, actions: seq<Action>) {
    forall n :: 0 <= n <= |actions| ==> Run(s, actions[..n]).Some? && LockExact(Run(s, actions[..n]).value)
  }

  ghost predicate NeverBreaks(s: State, actions: seq<Action>) {
    forall n :: 0 <= n < |actions| ==>
      Run(s, actions[..n]).Some? && !BreaksLock(Run(s, actions[..n]).value, actions[n])
  }

  lemma {:induction false} ExactThenNeverBreaks(s: State, actions: seq<Action>)
    requires AlwaysExact(s, actions)
    ensures NeverBreaks(s, actions)
  {
    forall n | 0 <= n < |actions|
      ensures Run(s, actions[..n]).Some? && !BreaksLock(Run(s, actions[..n]).value, actions[n])
    {
      RunUnrolled(s, actions, n);
      StepKeepsLockExact(Run(s, actions[..n]).value, actions[n], Run(s, actions[..n + 1]).value);
    }
  }

  lemma {:induction false} NeverBreaksThenExact(s: State, actions: seq<Action>, n: nat)
    requires Initial(s) && Run(s, actions).Some? && NeverBreaks(s, actions) && n <= |actions|
    ensures Run(s, actions[..n]).Some? && LockExact(Run(s, actions[..n]).value)
  {
    if n > 0 {
      NeverBreaksThenExact(s, actions, n - 1);
      RunUnrolled(s, actions, n - 1);
      PrefixRuns(s, actions, n);
      StepKeepsLockExact(Run(s, actions[..n - 1]).value, actions[n - 1], Run(s, actions[..n]).value);
    }
  }

  lemma {:induction false} PrefixRuns(s: State, actions: seq<Action>, n: nat)
    requires Run(s, actions).Some? && n <= |actions|
    ensures Run(s, actions[..n]).Some?
    decreases |actions|
  {
    if n < |actions| {
      PrefixRuns(s, actions[..|actions| - 1], n);
      assert actions[..|actions| - 1][..n] == actions[..n];
    } else {
      assert actions[..n] == actions;
    }
  }

  lemma RunUnrolled(s: State, actions: seq<Action>, n: nat)
    requires n < |actions| && Run(s, actions[..n]).Some?
    ensures Run(s, actions[..n + 1]) == Step(Run(s, actions[..n]).value, actions[n])
  {
    assert actions[..n + 1][..n] == actions[..n];
  }

  /**
   Without any timing assumption: a run keeps the lock exact from beginning to end if and only if
   no process takes the stale-removal branch on an existing file.
   */
  lemma LockExactIffNoStaleRemoval(s: State, actions: seq<Action>)
    requires Initial(s) && Run(s, actions).Some?
    ensures AlwaysExact(s, actions) <==> NeverBreaks(s, actions)
  {
    if AlwaysExact(s, actions) {
      ExactThenNeverBreaks(s, actions);
    }
    if NeverBreaks(s, actions) {
      forall n | 0 <= n <= |actions|
        ensures Run(s, actions[..n]).Some? && LockExact(Run(s, actions[..n]).value)
      {
        NeverBreaksThenExact(s, actions, n);
      }
    }
  }

  ghost predicate AlwaysExclusive(s: State, actions: seq<Action>) {
    forall n :: 0 <= n <= |actions| ==> Run(s, actions[..n]).Some? && AtMostOneHolder(Run(s, actions[..n]).value)
  }

  /** No stale removal, no second holder: again without any timing assumption. */
  lemma NoStaleRemovalExcludes(s: State, actions: seq<Action>)
    requires Initial(s) && Run(s, actions).Some? && NeverBreaks(s, actions)
    ensures AlwaysExclusive(s, actions)
  {
    LockExactIffNoStaleRemoval(s, actions);
    forall n | 0 <= n <= |actions|
      ensures Run(s, actions[..n]).Some? && AtMostOneHolder(Run(s, actions[..n]).value)
    {
      assert LockExact(Run(s, actions[..n]).value);
    }
  }

  /** A process creates the lock file while another one still holds the lock. */
  ghost predicate EntersHeld(s: State, a: Action) {
    Creates(s, a) && SomeoneHolds(s)
  }

  lemma StepKeepsExclusion(s: State, a: Action, s': State)
    requires Step(s, a) == Some(s') && AtMostOneHolder(s)
    ensures AtMostOneHolder(s') <==> !EntersHeld(s, a)
  {
    HoldersAfter(s, a, s');
    CreatorIsThere(s, a);
    hide Step, Holds, Creates, Releases, BreaksLock;
    if EntersHeld(s, a) {
      var q :| 0 <= q < |s.procs| && Holds(s.procs[q]);
      assert Holds(s'.procs[q]) && Holds(s'.procs[a.p]);
    }
  }

  ghost predicate NeverEntersHeld(s: State, actions: seq<Action>) {
    forall n :: 0 <= n < |actions| ==>
      Run(s, actions[..n]).Some? && !EntersHeld(Run(s, actions[..n]).value, actions[n])
  }

  lemma {:induction false} NeverEntersHeldThenExclusive(s: State, actions: seq<Action>, n: nat)
    requires Initial(s) && Run(s, actions).Some? && NeverEntersHeld(s, actions) && n <= |actions|
    ensures Run(s, actions[..n]).Some? && AtMostOneHolder(Run(s, actions[..n]).value)
  {
    if n > 0 {
      NeverEntersHeldThenExclusive(s, actions, n - 1);
      RunUnrolled(s, actions, n - 1);
      PrefixRuns(s, actions, n);
      StepKeepsExclusion(Run(s, actions[..n - 1]).value, actions[n - 1], Run(s, actions[..n]).value);
    }
  }

  /**
   Mutual exclusion alone, without any timing assumption: it holds throughout a run if and only if no
   process finds the file gone, and creates it, while another one is still inside.
   */
  lemma ExclusionIffNoSecondEntry(s: State, actions: seq<Action>)
    requires Initial(s) && Run(s, actions).Some?
    ensures AlwaysExclusive(s, actions) <==> NeverEntersHeld(s, actions)
  {
    if AlwaysExclusive(s, actions) {
      forall n | 0 <= n < |actions|
        ensures Run(s, actions[..n]).Some? && !EntersHeld(Run(s, actions[..n]).value, actions[n])
      {
        RunUnrolled(s, actions, n);
        StepKeepsExclusion(Run(s, actions[..n]).value, actions[n], Run(s, actions[..n + 1]).value);
      }
    }
    if NeverEntersHeld(s, actions) {
      forall n | 0 <= n <= |actions|
        ensures Run(s, actions[..n]).Some? && AtMostOneHolder(Run(s, actions[..n]).value)
      {
        NeverEntersHeldThenExclusive(s, actions, n);
      }
    }
  }

  lemma RunSnoc(s: State, actions: seq<Action>, a: Action, t: State, t': State)
    requires Run(s, actions) == Some(t)
    requires Step(t, a).Some? && Step(t, a).value.procs == t'.procs && Step(t, a) == Some(t')
    ensures Run(s, actions + [a]) == Some(t')
  {
    assert (actions + [a])[..|actions|] == actions;
  }

  /** The second of two processes goes from asking for the lock to breaking it, 30 s after it was made. */
  lemma WaiterGetsToBreak(s: State, front: seq<Action>, call: Call) returns (actions: seq<Action>)
    requires s.procs == [Idle(None), Idle(None)] && s.now == 0 && s.stored == Some(call.current)
    requires call.need == None
    requires Run(s, front) == Some(s.(procs := [Loading(call, 0), Idle(None)], lockFile := Some(LockFile(0, 0))))
    ensures Run(s, actions) == Some(s.(now := 30_001, lockFile := Some(LockFile(0, 0)),
                                       procs := [Loading(call, 0), Breaking(call, 50_001)]))
  {
    hide Run;
    var h, req, go := Loading(call, 0), RefreshNow(None, true), Go(1, Rejected);
    var t0 := s.(procs := [h, Idle(None)], lockFile := Some(LockFile(0, 0)));
    var t := t0.(now := 30_001);
    actions := front + [Tick(30_001)];
    RunSnoc(s, front, Tick(30_001), t0, t);
    RunSnoc(s, actions, Start(1, req), t, t.(procs := [h, Fetching(req)]));
    actions := actions + [Start(1, req)];
    RunSnoc(s, actions, go, t.(procs := [h, Fetching(req)]), t.(procs := [h, Arriving(call)]));
    actions := actions + [go];
    RunSnoc(s, actions, go, t.(procs := [h, Arriving(call)]), t.(procs := [h, Opening(call, 50_001)]));
    actions := actions + [go];
    RunSnoc(s, actions, go, t.(procs := [h, Opening(call, 50_001)]), t.(procs := [h, Reading(call, 50_001)]));
    actions := actions + [go];
    RunSnoc(s, actions, go, t.(procs := [h, Reading(call, 50_001)]), t.(procs := [h, Statting(call, 50_001, 30_001)]));
    actions := actions + [go];
    RunSnoc(s, actions, go, t.(procs := [h, Statting(call, 50_001, 30_001)]),
            t.(procs := [h, Breaking(call, 50_001)]));
    actions := actions + [go];
  }

  /** A run to the point where a process is about to remove the lock file of another that is still inside. */
  lemma OverlongHoldIsBroken() returns (s: State, call: Call, actions: seq<Action>)
    ensures Initial(s) && s == State(0, None, Some(call.current), [Idle(None), Idle(None)], [])
    ensures Run(s, actions) == Some(s.(now := 30_001, lockFile := Some(LockFile(0, 0)),
                                       procs := [Loading(call, 0), Breaking(call, 50_001)]))
  {
    call := Call(None, Credential("t", 0));
    s := State(0, None, Some(call.current), [Idle(None), Idle(None)], []);
    var req, go := RefreshNow(None, true), Go(0, Rejected);
    var s1, s2 := s.(procs := [Fetching(req), Idle(None)]), s.(procs := [Arriving(call), Idle(None)]);
    var s3 := s.(procs := [Opening(call, 20_000), Idle(None)]);
    var s4 := s.(procs := [Stamping(call, 0), Idle(None)], lockFile := Some(LockFile(0, 0)));
    RunSnoc(s, [], Start(0, req), s, s1);
    var front := [] + [Start(0, req)];
    RunSnoc(s, front, go, s1, s2);
    front := front + [go];
    RunSnoc(s, front, go, s2, s3);
    front := front + [go];
    RunSnoc(s, front, go, s3, s4);
    front := front + [go];
    RunSnoc(s, front, go, s4, s4.(procs := [Loading(call, 0), Idle(None)]));
    front := front + [go];
    actions := WaiterGetsToBreak(s, front, call);
  }

  /** A stale removal by itself admits no second holder: the converse of `NoStaleRemovalExcludes` fails. */
  lemma RemovalAloneAdmitsNoSecond() returns (s: State, actions: seq<Action>, a: Action)
    ensures Initial(s) && Run(s, actions).Some? && BreaksLock(Run(s, actions).value, a)
    ensures Run(s, actions + [a]).Some? && AtMostOneHolder(Run(s, actions + [a]).value)
  {
    var call;
    s, call, actions := OverlongHoldIsBroken();
    a := Go(1, Rejected);
    var t := Run(s, actions).value;
    var t1 := t.(procs := [Loading(call, 0), Opening(call, 50_001)], lockFile := None);
    RunSnoc(s, actions, a, t, t1);
    assert !Holds(t1.procs[1]);
  }

  /** The timing assumption is needed: a holder past 30 s has its lock broken and a second one enters. */
  lemma OverlongHoldAdmitsTwo() returns (s: State, actions: seq<Action>)
    ensures Initial(s) && Run(s, actions).Some? && !AtMostOneHolder(Run(s, actions).value)
  {
    var call;
    s, call, actions := OverlongHoldIsBroken();
    var t := Run(s, actions).value;
    var t1 := t.(procs := [Loading(call, 0), Opening(call, 50_001)], lockFile := None);
    var t2 := t.(procs := [Loading(call, 0), Stamping(call, 30_001)], lockFile := Some(LockFile(1, 30_001)));
    RunSnoc(s, actions, Go(1, Rejected), t, t1);
    actions := actions + [Go(1, Rejected)];
    RunSnoc(s, actions, Go(1, Rejected), t1, t2);
    actions := actions + [Go(1, Rejected)];
    assert Holds(t2.procs[0]) && Holds(t2.procs[1]);
  }

  // ---- how long a waiter waits ------------------------------------------------------------------

  predicate Waits(ph: Phase) {
    ph.Opening? || ph.Reading? || ph.Statting? || ph.Breaking? || ph.Polling? || ph.Sleeping?
  }

  /** The steps from here to giving up when every look finds a fresh lock file. */
  function StepsLeft(ph: Phase): nat {
    match ph
    case Breaking(_, _) => 6
    case Sleeping(_, _, _) => 5
    case Opening(_, _) => 4
    case Reading(_, _) => 3
    case Statting(_, _, _) => 2
    case Polling(_, _) => 1
    case _ => 0
  }

  /** The look at the lock file finds it gone or stale, after which `acquire` starts over. */
  predicate StartsOver(s: State, p: nat, a: Action) {
    && a.Go? && a.p == p && p < |s.procs| && s.procs[p].Statting?
    && (s.lockFile.None? || s.procs[p].clock - s.lockFile.value.mtime > LOCK_STALE_MS)
  }

  function OwnSteps(actions: seq<Action>, p: nat): nat {
    if actions == [] then 0
    else
      var a := actions[|actions| - 1];
      OwnSteps(actions[..|actions| - 1], p) + if a.Go? && a.p == p then 1 else 0
  }

  /** In no run is a waiter's sleep due to end later than one poll interval after its deadline. */
  lemma {:induction false} SleepIsDueByDeadline(s: State, actions: seq<Action>, p: nat)
    requires Initial(s) && Run(s, actions).Some? && p < |s.procs| == |Run(s, actions).value.procs|
    ensures var ph := Run(s, actions).value.procs[p]; ph.Sleeping? ==> ph.until <= ph.deadline + 100
    decreases |actions|
  {
    if actions != [] {
      var front := actions[..|actions| - 1];
      RunKeepsProcesses(s, front);
      SleepIsDueByDeadline(s, front, p);
    }
  }

  /** Not on its way to the lock. */
  predicate HasArrived(ph: Phase) { !ph.Fetching? && !ph.Weighing? && !ph.Arriving? }

  lemma LateStep(s: State, p: nat, a: Action, s': State)
    requires Step(s, a) == Some(s') && p < |s.procs| && !(a.Start? && a.p == p) && HasArrived(s.procs[p])
    ensures p < |s'.procs| && HasArrived(s'.procs[p]) && s'.now >= s.now
    ensures Waits(s'.procs[p]) ==> Waits(s.procs[p]) && s'.procs[p].deadline == s.procs[p].deadline
    ensures Waits(s'.procs[p]) && !StartsOver(s, p, a) && s.now > s.procs[p].deadline ==>
              StepsLeft(s'.procs[p]) + (if a.Go? && a.p == p then 1 else 0) <= StepsLeft(s.procs[p])
  {
  }

  /**
   A waiter past its deadline gives up within a handful of its own steps, however the others are
   scheduled, unless a look finds the lock file gone or stale: only then does `acquire` start over
   without looking at its deadline.
   */
  lemma {:induction false} LateWaiterGivesUp(s: State, actions: seq<Action>, p: nat)
    requires Run(s, actions).Some? && p < |s.procs| == |Run(s, actions).value.procs|
    requires Waits(s.procs[p]) && s.now > s.procs[p].deadline
    requires forall n :: 0 <= n < |actions| ==> !(actions[n].Start? && actions[n].p == p)
    requires forall n :: 0 <= n < |actions| && Run(s, actions[..n]).Some? ==>
               !StartsOver(Run(s, actions[..n]).value, p, actions[n])
    ensures HasArrived(Run(s, actions).value.procs[p]) && Run(s, actions).value.now >= s.now
    ensures var ph := Run(s, actions).value.procs[p];
            Waits(ph) ==>
              ph.deadline == s.procs[p].deadline
              && OwnSteps(actions, p) + StepsLeft(ph) <= StepsLeft(s.procs[p]) <= 6
    decreases |actions|
  {
    if actions != [] {
      var front := actions[..|actions| - 1];
      RunKeepsProcesses(s, front);
      assert forall n :: 0 <= n < |front| ==> front[..n] == actions[..n] && front[n] == actions[n];
      LateWaiterGivesUp(s, front, p);
      LateStep(Run(s, front).value, p, actions[|actions| - 1], Run(s, actions).value);
    }
  }

  /** No rotation is lost: the stored credentials form one chain and a refresh in flight extends its end. */
  lemma NoLostRotation(s: State, actions: seq<Action>, p: nat)
    requires Initial(s) && PromptRun(s, actions) && p < |s.procs|
    ensures Run(s, actions).Some? && |Run(s, actions).value.procs| == |s.procs|
    ensures OneChain(s.stored.value, Run(s, actions).value)
    ensures var end := Run(s, actions).value;
            end.procs[p].Refreshing? ==> end.stored == Some(end.procs[p].latest)
  {
    PromptRunIsSafe(s, actions);
    RunKeepsProcesses(s, actions);
  }

  lemma {:induction false} RunKeepsProcesses(s: State, actions: seq<Action>)
    requires Run(s, actions).Some?
    ensures |Run(s, actions).value.procs| == |s.procs|
    decreases |actions|
  {
    if actions != [] {
      RunKeepsProcesses(s, actions[..|actions| - 1]);
    }
  }

  /** A caller that needs some runway refreshes again only when the previous refresh no longer gives it. */
  lemma SecondRefreshOnlyWhenShort(s: State, actions: seq<Action>, k: nat)
    requires Initial(s) && PromptRun(s, actions)
    requires Run(s, actions).Some? ==> k + 1 < |Run(s, actions).value.mints|
    ensures Run(s, actions).Some?
    ensures var m := Run(s, actions).value.mints;
            m[k + 1].need.Some? ==> m[k].minted.expiresAt - m[k + 1].decided <= m[k + 1].need.value
  {
    PromptRunIsSafe(s, actions);
    var m := Run(s, actions).value.mints;
    assert m[k + 1].base == m[k].minted;
  }

  /** All calls of the run are `getValidCredential`. */
  predicate OnlyGetValid(actions: seq<Action>) {
    forall n :: 0 <= n < |actions| && actions[n].Start? ==> actions[n].req.GetValid?
  }

  predicate NeedsBuffer(ph: Phase) {
    match ph
    case Idle(_) => true
    case Fetching(req) => req.GetValid?
    case Weighing(_, _) => true
    case Refreshing(_, _, _, need) => need == Some(REFRESH_BUFFER_MS)
    case Releasing(_, _) => true
    case _ => ph.call.need == Some(REFRESH_BUFFER_MS)
  }

  ghost predicate AllNeedBuffer(s: State) {
    && (forall k :: 0 <= k < |s.mints| ==> s.mints[k].need == Some(REFRESH_BUFFER_MS))
    && (forall p :: 0 <= p < |s.procs| ==> NeedsBuffer(s.procs[p]))
  }

  lemma OwnNeedsBuffer(s: State, p: nat, reply: Reply, s': State)
    requires p < |s.procs| && Advance(s, p, reply) == Some(s') && NeedsBuffer(s.procs[p])
    ensures |s'.procs| == |s.procs| && NeedsBuffer(s'.procs[p])
  {
  }

  /** What one step does to the process that takes it, to the others and to the history. */
  lemma StepNeedsBuffer(s: State, a: Action, s': State)
    requires Step(s, a) == Some(s') && (a.Start? ==> a.req.GetValid?)
    ensures |s'.procs| == |s.procs|
    ensures forall q :: 0 <= q < |s.procs| && (a.Tick? || q != a.p) ==> s'.procs[q] == s.procs[q]
    ensures !a.Tick? && NeedsBuffer(s.procs[a.p]) ==> NeedsBuffer(s'.procs[a.p])
    ensures s'.mints == s.mints
         || (a.Go? && s.procs[a.p].Refreshing? && |s'.mints| == |s.mints| + 1
             && s'.mints[..|s.mints|] == s.mints && s'.mints[|s.mints|].need == s.procs[a.p].need)
  {
    hide Advance;
    if a.Go? {
      AdvanceMovesOne(s, a.p, a.reply, s');
      AdvanceMints(s, a.p, a.reply, s');
      hide NeedsBuffer;
      if NeedsBuffer(s.procs[a.p]) {
        OwnNeedsBuffer(s, a.p, a.reply, s');
      }
    }
  }

  lemma {:induction false} OnlyGetValidNeedsBuffer(s: State, actions: seq<Action>)
    requires Initial(s) && OnlyGetValid(actions) && Run(s, actions).Some?
    ensures AllNeedBuffer(Run(s, actions).value)
    decreases |actions|
  {
    if actions != [] {
      var front, a := actions[..|actions| - 1], actions[|actions| - 1];
      OnlyGetValidNeedsBuffer(s, front);
      var t, t' := Run(s, front).value, Run(s, actions).value;
      StepNeedsBuffer(t, a, t');
      hide Step, Run;
      forall k | 0 <= k < |t'.mints| ensures t'.mints[k].need == Some(REFRESH_BUFFER_MS) {
        if k < |t.mints| {
          assert t'.mints[..|t.mints|][k] == t.mints[k];
        } else {
          assert NeedsBuffer(t.procs[a.p]);
        }
      }
    }
  }

  /**
   However many `getValidCredential` callers run at once, they refresh at most once as long as the
   credential minted first still has more than five minutes of runway.
   */
  lemma AtMostOneRefresh(s: State, actions: seq<Action>)
    requires Initial(s) && PromptRun(s, actions) && OnlyGetValid(actions)
    ensures Run(s, actions).Some?
    ensures var end := Run(s, actions).value;
            |end.mints| > 0 && end.mints[0].minted.expiresAt - end.now > 300_000 ==> |end.mints| == 1
  {
    PromptRunIsSafe(s, actions);
    OnlyGetValidNeedsBuffer(s, actions);
    var end := Run(s, actions).value;
    if |end.mints| > 1 {
      SecondRefreshOnlyWhenShort(s, actions, 0);
      assert end.mints[1].decided <= end.now;
    }
  }

  // ---- what a call answers ----------------------------------------------------------------------

  /** Something that a process met at a step of its own. */
  datatype Sight =
    | Clock(at: int)                           // it read this time
    | Found(credential: Credential)            // it read the credential file and this was in it
    | FoundNothing                             // it read the credential file and there was none
    | Runway(credential: Credential, ms: int)  // at that time the credential had more than `ms` left
    | Minted(credential: Credential)           // the server answered with it, and it was stored
    | Refused                                  // the server rejected the refresh
    | LockInForce(clock: int)                  // a lock file at most 30 s old by that clock

  predicate Shows(s: State, p: nat, reply: Reply, sight: Sight)
    requires p < |s.procs|
  {
    match sight
    case Clock(at) => s.now == at
    case Found(credential) => s.stored == Some(credential)
    case FoundNothing => s.stored == None
    case Runway(credential, ms) => credential.expiresAt - s.now > ms
    case Minted(credential) =>
      var after := Advance(s, p, reply);
      && s.procs[p].Refreshing? && reply.Tokens?
      && credential == Credential(reply.token, s.now + reply.expiresIn * 1000)
      && after.Some? && after.value.stored == Some(credential)
    case Refused => s.procs[p].Refreshing? && reply.Rejected?
    case LockInForce(clock) => s.lockFile.Some? && clock - s.lockFile.value.mtime <= 30_000
  }

  /** All that `p` has met since it last started a call. */
  ghost function Sights(s: State, actions: seq<Action>, p: nat): iset<Sight>
    decreases |actions|
  {
    if actions == [] then iset{}
    else
      var front, a := actions[..|actions| - 1], actions[|actions| - 1];
      var t := Run(s, front);
      if a.Start? && a.p == p then iset{}
      else if a.Go? && a.p == p && t.Some? && p < |t.value.procs| then
        Sights(s, front, p) + iset sight | Shows(t.value, p, a.reply, sight)
      else Sights(s, front, p)
  }

  /** What `p` last asked for. */
  function Asked(actions: seq<Action>, p: nat): Option<Request>
    decreases |actions|
  {
    if actions == [] then None
    else
      var a := actions[|actions| - 1];
      if a.Start? && a.p == p then Some(a.req) else Asked(actions[..|actions| - 1], p)
  }

  /** The wait for the lock was over: more than 20 s by the process's own clock, with the lock in force. */
  ghost predicate WaitedInVain(seen: iset<Sight>) {
    && (exists from, to :: Clock(from) in seen && Clock(to) in seen && to - from > 20_000)
    && (exists clock :: Clock(clock) in seen && LockInForce(clock) in seen)
  }

  /** The answers that a call may give, by what it met on its way. */
  ghost predicate Answers(seen: iset<Sight>, req: Request, outcome: Outcome) {
    match outcome
    case Returned(c) =>
      (match req
       case GetValid(skipRefresh, registered) =>
         if skipRefresh || !registered then Found(c) in seen
         else (Found(c) in seen && Runway(c, 300_000) in seen) || Minted(c) in seen
       case RefreshNow(need, registered) =>
         && registered
         && ((need.Some? && Found(c) in seen && Runway(c, need.value) in seen) || Minted(c) in seen))
    case Failed =>
      || FoundNothing in seen
      || (req.RefreshNow? && !req.registered)
      || (req.registered && (req.GetValid? ==> !req.skipRefresh) && (WaitedInVain(seen) || Refused in seen))
  }

  /** The request gets as far as the lock, and has to find this much runway inside it. */
  predicate AsksForLock(req: Request, need: Option<int>) {
    match req
    case GetValid(skipRefresh, registered) => !skipRefresh && registered && need == Some(300_000)
    case RefreshNow(ms, registered) => registered && need == ms
  }

  ghost predicate Underway(seen: iset<Sight>, req: Request, call: Call) {
    AsksForLock(req, call.need) && Found(call.current) in seen
  }

  ghost predicate Waiting(seen: iset<Sight>, req: Request, call: Call, deadline: int) {
    Underway(seen, req, call) && Clock(deadline - 20_000) in seen
  }

  /** Where a process can stand after what it has met. */
  ghost predicate Accounts(seen: iset<Sight>, req: Request, ph: Phase) {
    match ph
    case Idle(last) => last.Some? && Answers(seen, req, last.value)
    case Fetching(asked) => asked == req
    case Weighing(current, registered) => req == GetValid(false, registered) && Found(current) in seen
    case Arriving(call) => Underway(seen, req, call)
    case Opening(call, deadline) => Waiting(seen, req, call, deadline)
    case Reading(call, deadline) => Waiting(seen, req, call, deadline)
    case Statting(call, deadline, clock) => Waiting(seen, req, call, deadline) && Clock(clock) in seen
    case Breaking(call, deadline) => Waiting(seen, req, call, deadline)
    case Polling(call, deadline) =>
      && Waiting(seen, req, call, deadline)
      && (exists clock :: Clock(clock) in seen && LockInForce(clock) in seen)
    case Sleeping(call, deadline, until) => Waiting(seen, req, call, deadline) && Clock(until - 100) in seen
    case Stamping(call, _) => Underway(seen, req, call)
    case Loading(call, _) => Underway(seen, req, call)
    case Checking(call, latest, _) => Underway(seen, req, call) && Found(latest) in seen
    case Refreshing(latest, _, _, need) => AsksForLock(req, need) && Found(latest) in seen
    case Releasing(outcome, _) => Answers(seen, req, outcome)
  }

  lemma AccountsStays(seen: iset<Sight>, more: iset<Sight>, req: Request, ph: Phase)
    requires Accounts(seen, req, ph) && seen <= more
    ensures Accounts(more, req, ph)
  {
  }

  /** The steps of a waiter, from asking for the lock to having it or giving up. */
  lemma WaiterAccounts(s: State, p: nat, reply: Reply, s': State, seen: iset<Sight>, req: Request)
    requires p < |s.procs| && Advance(s, p, reply) == Some(s') && Waits(s.procs[p])
    requires Accounts(seen, req, s.procs[p])
    requires forall sight :: Shows(s, p, reply, sight) ==> sight in seen
    ensures Accounts(seen, req, s'.procs[p])
  {
    var call, deadline := s.procs[p].call, s.procs[p].deadline;
    assert Waiting(seen, req, call, deadline);
    assert Shows(s, p, reply, Clock(s.now));
    hide Shows, Underway, Waits;
    match s.procs[p]
    case Opening(_, _) =>
    case Reading(_, _) =>
    case Statting(_, _, clock) =>
      if s'.procs[p].Polling? {
        assert Shows(s, p, reply, LockInForce(clock)) by { LooksAtTheLock(s, p, reply, s'); }
      }
    case Breaking(_, _) =>
    case Polling(_, _) =>
      if s.now > deadline {
        assert Clock(deadline - 20_000) in seen && Clock(s.now) in seen && s.now - (deadline - 20_000) > 20_000;
        assert WaitedInVain(seen);
        assert AsksForLock(req, call.need) by { UnderwayAsks(seen, req, call); }
      }
    case Sleeping(_, _, _) =>
  }

  lemma LooksAtTheLock(s: State, p: nat, reply: Reply, s': State)
    requires p < |s.procs| && Advance(s, p, reply) == Some(s') && s.procs[p].Statting? && s'.procs[p].Polling?
    ensures Shows(s, p, reply, LockInForce(s.procs[p].clock))
  {
  }

  lemma UnderwayAsks(seen: iset<Sight>, req: Request, call: Call)
    requires Underway(seen, req, call)
    ensures AsksForLock(req, call.need)
  {
  }

  /** The steps before the lock is asked for. */
  lemma ArrivalAccounts(s: State, p: nat, reply: Reply, s': State, seen: iset<Sight>, req: Request)
    requires p < |s.procs| && Advance(s, p, reply) == Some(s') && !HasArrived(s.procs[p])
    requires Accounts(seen, req, s.procs[p])
    requires forall sight :: Shows(s, p, reply, sight) ==> sight in seen
    ensures Accounts(seen, req, s'.procs[p])
  {
    hide WaitedInVain;
    assert Shows(s, p, reply, Clock(s.now));
  }

  /** The steps inside the lock. */
  lemma HolderAccounts(s: State, p: nat, reply: Reply, s': State, seen: iset<Sight>, req: Request)
    requires p < |s.procs| && Advance(s, p, reply) == Some(s') && Holds(s.procs[p])
    requires Accounts(seen, req, s.procs[p])
    requires forall sight :: Shows(s, p, reply, sight) ==> sight in seen
    ensures Accounts(seen, req, s'.procs[p])
  {
    hide WaitedInVain;
  }

  lemma NotIdle(s: State, p: nat, reply: Reply)
    requires p < |s.procs| && Advance(s, p, reply).Some? && !Waits(s.procs[p]) && !Holds(s.procs[p])
    ensures !HasArrived(s.procs[p])
  {
  }

  /** One step of the process itself, with what it meets there. */
  lemma OwnStepAccounts(s: State, p: nat, reply: Reply, s': State, seen: iset<Sight>, more: iset<Sight>, req: Request)
    requires p < |s.procs| && Advance(s, p, reply) == Some(s') && Accounts(seen, req, s.procs[p])
    requires more == seen + iset sight | Shows(s, p, reply, sight)
    ensures Accounts(more, req, s'.procs[p])
  {
    AccountsStays(seen, more, req, s.procs[p]);
    hide *;
    if Waits(s.procs[p]) {
      WaiterAccounts(s, p, reply, s', more, req);
    } else if Holds(s.procs[p]) {
      HolderAccounts(s, p, reply, s', more, req);
    } else {
      assert !HasArrived(s.procs[p]) by { NotIdle(s, p, reply); }
      ArrivalAccounts(s, p, reply, s', more, req);
    }
  }

  /** A step that is not its own leaves a process where it was; an idle one has no step of its own. */
  lemma OthersLeaveAlone(s: State, a: Action, s': State, p: nat)
    requires Step(s, a) == Some(s') && p < |s.procs|
    ensures |s'.procs| == |s.procs|
    ensures a.Tick? || a.p != p ==> s'.procs[p] == s.procs[p]
    ensures a.Start? && a.p == p ==> s'.procs[p] == Fetching(a.req)
    ensures a.Go? && a.p == p ==> Advance(s, p, a.reply) == Some(s') && !s.procs[p].Idle?
  {
    hide Advance;
    if a.Go? {
      AdvanceMovesOne(s, a.p, a.reply, s');
      IdleHasNoStep(s, a.p, a.reply);
    }
  }

  lemma IdleHasNoStep(s: State, p: nat, reply: Reply)
    requires p < |s.procs|
    ensures s.procs[p].Idle? ==> Advance(s, p, reply) == None
  {
  }

  lemma {:induction false} RunAccounts(s: State, actions: seq<Action>, p: nat)
    requires Initial(s) && Run(s, actions).Some? && p < |s.procs| == |Run(s, actions).value.procs|
    ensures Asked(actions, p).Some? ==>
              Accounts(Sights(s, actions, p), Asked(actions, p).value, Run(s, actions).value.procs[p])
    ensures Asked(actions, p).None? ==> Run(s, actions).value.procs[p].Idle?
    decreases |actions|
  {
    if actions != [] {
      var front, a := actions[..|actions| - 1], actions[|actions| - 1];
      RunKeepsProcesses(s, front);
      RunAccounts(s, front, p);
      var t, t' := Run(s, front).value, Run(s, actions).value;
      hide Run, Step, Accounts, Initial;
      OthersLeaveAlone(t, a, t', p);
      if a.Start? && a.p == p {
        FetchingAccounts(Sights(s, actions, p), a.req);
      } else if a.Go? && a.p == p {
        assert Asked(front, p) == Asked(actions, p);
        OwnStepAccounts(t, p, a.reply, t', Sights(s, front, p), Sights(s, actions, p), Asked(front, p).value);
      }
    }
  }

  lemma FetchingAccounts(seen: iset<Sight>, req: Request)
    ensures Accounts(seen, req, Fetching(req))
  {
  }

  /**
   What a call answers, without any timing assumption.  `getValidCredential` with a provider returns a
   credential that it found with more than five minutes left, by a clock reading of its own, or one that
   it minted itself; it fails only when there is no credential, when it waited more than 20 s on a lock
   in force, or when the server refused.
   */
  lemma CallAnswers(s: State, actions: seq<Action>, p: nat)
    requires Initial(s) && Run(s, actions).Some? && p < |s.procs| == |Run(s, actions).value.procs|
    requires Asked(actions, p).Some? && Run(s, actions).value.procs[p].Idle?
    ensures var last := Run(s, actions).value.procs[p].last;
            last.Some? && Answers(Sights(s, actions, p), Asked(actions, p).value, last.value)
  {
    RunAccounts(s, actions, p);
  }

  /** A credential with no more than five minutes left goes on to the lock; any other is returned at once. */
  lemma ShortRunwayGoesToLock(s: State, p: nat, reply: Reply)
    requires p < |s.procs| && s.procs[p].Weighing? && s.procs[p].registered
    ensures Advance(s, p, reply).Some?
    ensures var current, ph := s.procs[p].current, Advance(s, p, reply).value.procs[p];
            && (ph == Idle(Some(Returned(current))) <==> current.expiresAt - s.now > 300_000)
            && (ph == Arriving(Call(Some(300_000), current)) <==> current.expiresAt - s.now <= 300_000)
  {
  }

  /** Inside the lock the refresh goes ahead exactly when the runway there is no longer than needed. */
  lemma ShortInsideRefreshes(s: State, p: nat, reply: Reply)
    requires p < |s.procs| && s.procs[p].Checking?
    ensures Advance(s, p, reply).Some?
    ensures var was, ph := s.procs[p], Advance(s, p, reply).value.procs[p];
            && (ph == Releasing(Returned(was.latest), was.since) <==>
                  was.call.need.Some? && was.latest.expiresAt - s.now > was.call.need.value)
            && (ph == Refreshing(was.latest, was.since, s.now, was.call.need) <==>
                  was.call.need.None? || was.latest.expiresAt - s.now <= was.call.need.value)
  {
  }

  /** A step changes the lock file in four ways only: it is made, stamped by its owner, broken or released. */
  lemma FileAfter(s: State, a: Action, s': State)
    requires Step(s, a) == Some(s')
    ensures s'.lockFile == s.lockFile
         || (a.Go? && a.p < |s.procs|
             && (|| (s.procs[a.p].Opening? && s.lockFile == None && s'.lockFile == Some(LockFile(a.p, s.now)))
                 || (s.procs[a.p].Stamping? && s.lockFile.Some? && s.lockFile.value.owner == a.p)
                 || ((s.procs[a.p].Breaking? || s.procs[a.p].Releasing?) && s'.lockFile == None)))
    ensures a.Go? && a.p < |s.procs| && s.procs[a.p].Stamping? ==>
              (s.lockFile.Some? && s.lockFile.value.owner == a.p ==> s'.lockFile == Some(LockFile(a.p, s.now)))
    ensures a.Go? && a.p < |s.procs| && (s.procs[a.p].Breaking? || s.procs[a.p].Releasing?) ==> s'.lockFile == None
  {
  }

  // ---- nobody is stuck --------------------------------------------------------------------------

  /** Enough time has passed: a sleep is over, a deadline that still counts behind, and any lock file stale. */
  predicate Rested(s: State, p: nat)
    requires p < |s.procs|
  {
    var ph := s.procs[p];
    && (ph.Sleeping? ==> ph.until <= s.now)
    && (ph.Statting? && s.lockFile.Some? && ph.clock - s.lockFile.value.mtime <= 30_000 ==> ph.deadline < s.now)
    && (ph.Polling? ==> ph.deadline < s.now)
    && (s.lockFile.Some? ==> s.now - s.lockFile.value.mtime > 30_000)
  }

  /** How many of its own steps a process that runs alone then still takes, at most. */
  function OwnStepsLeft(ph: Phase, locked: bool): nat {
    match ph
    case Idle(_) => 0
    case Releasing(_, _) => 1
    case Refreshing(_, _, _, _) => 2
    case Checking(_, _, _) => 3
    case Loading(_, _) => 4
    case Stamping(_, _) => 5
    case Opening(_, _) => if locked then 10 else 6
    case Breaking(_, _) => 7
    case Polling(_, _) => 1
    case Statting(_, _, _) => 8
    case Reading(_, _) => 9
    case Sleeping(_, _, _) => 11
    case Arriving(_) => 11
    case Weighing(_, _) => 12
    case Fetching(_) => 13
  }

  /** Up to the stamping nobody but its maker writes the file, and a maker does not look at it again. */
  lemma RestedAdvances(s: State, p: nat)
    requires p < |s.procs| && Rested(s, p) && !s.procs[p].Idle? && !Holds(s.procs[p])
    ensures var t := Advance(s, p, Rejected);
            && t.Some? && |t.value.procs| == |s.procs|
            && (Holds(t.value.procs[p]) || Rested(t.value, p))
            && OwnStepsLeft(t.value.procs[p], t.value.lockFile.Some?) < OwnStepsLeft(s.procs[p], s.lockFile.Some?)
  {
  }

  lemma HolderAdvances(s: State, p: nat)
    requires p < |s.procs| && Holds(s.procs[p])
    ensures var t := Advance(s, p, Rejected);
            && t.Some? && |t.value.procs| == |s.procs|
            && (Holds(t.value.procs[p]) || t.value.procs[p].Idle?)
            && OwnStepsLeft(t.value.procs[p], t.value.lockFile.Some?) < OwnStepsLeft(s.procs[p], s.lockFile.Some?)
  {
  }

  lemma {:induction false} RunCons(s: State, a: Action, rest: seq<Action>)
    requires Step(s, a).Some?
    ensures Run(s, [a] + rest) == Run(Step(s, a).value, rest)
    decreases |rest|
  {
    hide Step;
    var all := [a] + rest;
    if rest == [] {
      assert all[..0] == [] && all[0] == a;
      assert Run(s, all[..0]) == Some(s);
    } else {
      assert all[..|all| - 1] == [a] + rest[..|rest| - 1] && all[|all| - 1] == rest[|rest| - 1];
      RunCons(s, a, rest[..|rest| - 1]);
    }
  }

  lemma {:induction false} FinishesAlone(s: State, p: nat) returns (actions: seq<Action>)
    requires p < |s.procs| && (Holds(s.procs[p]) || s.procs[p].Idle? || Rested(s, p))
    ensures |actions| <= OwnStepsLeft(s.procs[p], s.lockFile.Some?)
    ensures forall n :: 0 <= n < |actions| ==> actions[n] == Go(p, Rejected)
    ensures Run(s, actions).Some? && p < |Run(s, actions).value.procs| && Run(s, actions).value.procs[p].Idle?
    decreases OwnStepsLeft(s.procs[p], s.lockFile.Some?)
  {
    actions := [];
    if !s.procs[p].Idle? {
      if Holds(s.procs[p]) {
        HolderAdvances(s, p);
      } else {
        RestedAdvances(s, p);
      }
      hide Advance, Holds, Rested, OwnStepsLeft;
      var rest := FinishesAlone(Advance(s, p, Rejected).value, p);
      hide Run;
      RunCons(s, Go(p, Rejected), rest);
      actions := [Go(p, Rejected)] + rest;
    }
  }

  /**
   No call is ever stuck.  From every state, also one in which a holder has died, a process that is left
   alone for long enough finishes its call within 13 of its own steps.
   */
  lemma NobodyIsStuck(s: State, p: nat) returns (actions: seq<Action>)
    requires p < |s.procs|
    ensures 1 <= |actions| <= 14 && actions[0].Tick?
    ensures forall n :: 0 < n < |actions| ==> actions[n].Go? && actions[n].p == p
    ensures Run(s, actions).Some? && p < |Run(s, actions).value.procs| && Run(s, actions).value.procs[p].Idle?
  {
    var ph := s.procs[p];
    var to := s.now;
    if ph.Sleeping? && ph.until > to { to := ph.until; }
    if (ph.Statting? || ph.Polling?) && ph.deadline >= to { to := ph.deadline + 1; }
    if s.lockFile.Some? && to - s.lockFile.value.mtime <= 30_000 { to := s.lockFile.value.mtime + 30_001; }
    var t := s.(now := to);
    assert Step(s, Tick(to)) == Some(t) && Rested(t, p);
    assert OwnStepsLeft(t.procs[p], t.lockFile.Some?) <= 13;
    hide Advance, Holds, Rested, OwnStepsLeft, Run, Step;
    var rest := FinishesAlone(t, p);
    RunCons(s, Tick(to), rest);
    actions := [Tick(to)] + rest;
  }
}
