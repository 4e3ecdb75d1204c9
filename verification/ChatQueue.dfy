/** The chat client's outbound queue over a socket that comes and goes. */
module ChatQueue {
  import opened Options
  import opened Powers
  import opened Text

  const MAX_PENDING_MESSAGES := 50
  const RECONNECT_DELAYS_MS: seq<int> := [1_000, 2_000, 4_000, 8_000, 16_000, 30_000]

  datatype ClientMessage = Message(text: string) | Interrupt | Status | Tasks | Compact | New

  datatype ReadyState = Connecting | Opened | Closing | Closed

  /** `sockets` are all that were ever made, the current one last; `sent` is what was handed to one of them. */
  datatype State = State(
    sockets: seq<ReadyState>, pending: seq<ClientMessage>, sent: seq<ClientMessage>,
    attempt: nat, everConnected: bool, timer: Option<int>, quitting: bool)

  // ---- what a line of input asks for ------------------------------------------------------------

  datatype Asked = Quit | Local | Sends(msg: ClientMessage)

  function UpToSpace(s: string): string {
    if s == "" || IsSpace(s[0]) then "" else [s[0]] + UpToSpace(s[1..])
  }

  /** Only the first word tells a command; any other text is sent as it was typed. */
  function Command(text: string): Asked {
    match UpToSpace(Trim(text))
    case "/exit" => Quit
    case "/quit" => Quit
    case "/clear" => Local
    case "/status" => Sends(Status)
    case "/tasks" => Sends(Tasks)
    case "/compact" => Sends(Compact)
    case "/new" => Sends(New)
    case "/help" => Local
    case _ => Sends(Message(text))
  }

  // ---- what each handler does to the state ------------------------------------------------------

  predicate IsOpen(s: State) { s.sockets != [] && s.sockets[|s.sockets| - 1] == Opened }

  /** Whether a message that is typed now is delivered at once or queued. */
  predicate Accepts(s: State, msg: ClientMessage) {
    IsOpen(s) || (msg != Interrupt && |s.pending| < MAX_PENDING_MESSAGES)
  }

  function Sent(s: State, msg: ClientMessage): State {
    if IsOpen(s) then s.(sent := s.sent + [msg])
    else if Accepts(s, msg) then s.(pending := s.pending + [msg])
    else s
  }

  /** Socket `k` opens and stays open for `lasts` sends of the drain. */
  function Drained(s: State, k: nat, lasts: nat): State
    requires k < |s.sockets|
  {
    var last := |s.sockets| - 1;
    var sockets := s.sockets[k := Opened];
    var n := if sockets[last] != Opened then 0 else if lasts < |s.pending| then lasts else |s.pending|;
    s.(sockets := if sockets[last] == Opened && n < |s.pending| then sockets[last := Closing] else sockets,
       sent := s.sent + s.pending[..n], pending := s.pending[n..], everConnected := true, attempt := 0)
  }

  function Delay(attempt: nat): int {
    RECONNECT_DELAYS_MS[if attempt < |RECONNECT_DELAYS_MS| - 1 then attempt else |RECONNECT_DELAYS_MS| - 1]
  }

  function AfterClose(s: State, k: nat): State
    requires k < |s.sockets|
  {
    var t := s.(sockets := s.sockets[k := Closed]);
    if s.quitting || !s.everConnected then t
    else t.(attempt := s.attempt + 1, timer := Some(Delay(s.attempt)))
  }

  function Reconnecting(s: State): State { s.(sockets := s.sockets + [Connecting], timer := None) }

  /** Closing the current socket, unless it is closed already. */
  function CleanedUp(s: State): State {
    if s.quitting then s
    else
      var last := |s.sockets| - 1;
      s.(quitting := true, timer := None,
         sockets := if last >= 0 && s.sockets[last] != Closed then s.sockets[last := Closing] else s.sockets)
  }

  class ChatClient {
    var sockets: seq<ReadyState>
    var pending: seq<ClientMessage>
    var sent: seq<ClientMessage>
    var attempt: nat
    var everConnected: bool
    var timer: Option<int>
    var quitting: bool

    /** Starting the chat connects. */
    constructor ()
      ensures Now() == State([Connecting], [], [], 0, false, None, false)
    {
      sockets, pending, sent, attempt, everConnected, timer, quitting := [Connecting], [], [], 0, false, None, false;
    }

    ghost function Now(): State
      reads this
    {
      State(sockets, pending, sent, attempt, everConnected, timer, quitting)
    }

    method Send(msg: ClientMessage)
      modifies this
      ensures Now() == Sent(old(Now()), msg)
    {
      if |sockets| > 0 && sockets[|sockets| - 1] == Opened {
        sent := sent + [msg];
        return;
      }
      if msg == Interrupt { return; }
      if |pending| >= MAX_PENDING_MESSAGES { return; }
      pending := pending + [msg];
    }

    method OnSend(text: string)
      modifies this
      ensures Now() == match Command(text)
                       case Quit => CleanedUp(old(Now()))
                       case Local => old(Now())
                       case Sends(msg) => Sent(old(Now()), msg)
    {
      match Command(text)
      case Quit => Cleanup();
      case Local =>
      case Sends(msg) => Send(msg);
    }

    method OnInterrupt()
      modifies this
      ensures Now() == Sent(old(Now()), Interrupt)
    {
      Send(Interrupt);
    }

    /** The transport may drop the connection while the queue drains: after `lasts` sends it is closing. */
    method OnOpen(k: nat, lasts: nat)
      requires k < |sockets|
      modifies this
      ensures Now() == Drained(old(Now()), k, lasts)
    {
      hide Drained;
      ghost var start := Now();
      sockets := sockets[k := Opened];
      everConnected := true;
      attempt := 0;
      ghost var opened0 := sockets;
      var n, last := 0, |sockets| - 1;
      DrainStarts(start);
      while |pending| > 0 && sockets[last] == Opened
        invariant n <= |start.pending| && pending == start.pending[n..] && sent == start.sent + start.pending[..n]
        invariant |sockets| == last + 1 && n <= lasts
        invariant sockets == opened0
               || (sockets == opened0[last := Closing] && n == lasts < |start.pending| && opened0[last] == Opened)
        invariant opened0[last] != Opened ==> n == 0
        invariant timer == start.timer && quitting == start.quitting && everConnected && attempt == 0
        decreases |pending|, sockets[last] == Opened
      {
        if n == lasts {
          sockets := sockets[last := Closing];
        } else {
          DrainNext(start, n);
          sent := sent + [pending[0]];
          pending := pending[1..];
          n := n + 1;
        }
      }
      DrainEnds(start, k, lasts, n, Now());
    }

    lemma DrainStarts(s: State)
      ensures s.pending[0..] == s.pending && s.sent + s.pending[..0] == s.sent
    {
    }

    lemma DrainNext(s: State, n: nat)
      requires n < |s.pending|
      ensures s.pending[n..][0] == s.pending[n] && s.pending[n..][1..] == s.pending[n + 1..]
      ensures s.sent + s.pending[..n] + [s.pending[n]] == s.sent + s.pending[..n + 1]
    {
    }

    /** The loop ends with the queue empty, the current socket closing, or another one opened. */
    lemma DrainEnds(s: State, k: nat, lasts: nat, n: nat, t: State)
      requires k < |s.sockets| && n <= lasts && n <= |s.pending|
      requires var opened0, last := s.sockets[k := Opened], |s.sockets| - 1;
               && t == s.(sockets := t.sockets, sent := s.sent + s.pending[..n], pending := s.pending[n..],
                          everConnected := true, attempt := 0)
               && (t.sockets == opened0 || (t.sockets == opened0[last := Closing] && n == lasts < |s.pending|))
               && (t.sockets == opened0 && opened0[last] == Opened ==> n == |s.pending|)
               && (t.sockets != opened0 ==> opened0[last] == Opened)
               && (opened0[last] != Opened ==> n == 0)
      ensures t == Drained(s, k, lasts)
    {
      var opened0, last := s.sockets[k := Opened], |s.sockets| - 1;
      if t.sockets != opened0 { assert n == lasts < |s.pending|; }
    }

    method OnClose(k: nat)
      requires k < |sockets|
      modifies this
      ensures Now() == AfterClose(old(Now()), k)
    {
      sockets := sockets[k := Closed];
      if quitting { return; }
      if everConnected {
        var top := |RECONNECT_DELAYS_MS| - 1;
        var delay := RECONNECT_DELAYS_MS[if attempt < top then attempt else top];
        attempt := attempt + 1;
        if timer.Some? { timer := None; }
        timer := Some(delay);
      }
    }

    method OnTimer()
      requires timer.Some?
      modifies this
      ensures Now() == Reconnecting(old(Now()))
    {
      timer := None;
      sockets := sockets + [Connecting];
    }

    method Cleanup()
      modifies this
      ensures Now() == CleanedUp(old(Now()))
    {
      if quitting { return; }
      quitting := true;
      if timer.Some? { timer := None; }
      if |sockets| > 0 && sockets[|sockets| - 1] != Closed {
        sockets := sockets[|sockets| - 1 := Closing];
      }
    }
  }

  // ---- runs -------------------------------------------------------------------------------------

  datatype Event =
    | Typed(text: string)
    | Interrupts
    | Opens(k: nat, lasts: nat)
    | StartsClosing(k: nat)
    | Closes(k: nat)
    | TimerFires

  /** Sockets open once, close once, and the user cannot type once the client quits. */
  predicate Enabled(s: State, e: Event) {
    match e
    case Typed(_) => !s.quitting
    case Interrupts => !s.quitting
    case Opens(k, _) => !s.quitting && k < |s.sockets| && s.sockets[k] == Connecting
    case StartsClosing(k) => k < |s.sockets| && s.sockets[k] == Opened
    case Closes(k) => k < |s.sockets| && s.sockets[k] != Closed
    case TimerFires => s.timer.Some?
  }

  function Step(s: State, e: Event): State
    requires Enabled(s, e)
  {
    match e
    case Typed(text) =>
      (match Command(text)
       case Quit => CleanedUp(s)
       case Local => s
       case Sends(msg) => Sent(s, msg))
    case Interrupts => Sent(s, Interrupt)
    case Opens(k, lasts) => Drained(s, k, lasts)
    case StartsClosing(k) => s.(sockets := s.sockets[k := Closing])
    case Closes(k) => AfterClose(s, k)
    case TimerFires => Reconnecting(s)
  }

  const START := State([Connecting], [], [], 0, false, None, false)

  ghost predicate Run(states: seq<State>, events: seq<Event>) {
    && |states| == |events| + 1 && states[0] == START
    && forall n :: 0 <= n < |events| ==> Enabled(states[n], events[n]) && states[n + 1] == Step(states[n], events[n])
  }

  lemma RunFront(states: seq<State>, events: seq<Event>)
    requires Run(states, events) && events != []
    ensures var n := |events| - 1;
            && Run(states[..n + 1], events[..n]) && states[..n + 1][n] == states[n]
            && Enabled(states[n], events[n]) && states[n + 1] == Step(states[n], events[n])
  {
    hide Step, Enabled;
    var n := |events| - 1;
    forall i | 0 <= i < n
      ensures Enabled(states[..n + 1][i], events[..n][i])
           && states[..n + 1][i + 1] == Step(states[..n + 1][i], events[..n][i])
    {
      assert Enabled(states[i], events[i]) && states[i + 1] == Step(states[i], events[i]);
    }
  }

  // ---- main results -----------------------------------------------------------------------------

  ghost predicate Sound(s: State) {
    // Only the current socket can be live, and none is while a reconnect is scheduled.
    && s.sockets != [] && (forall k :: 0 <= k < |s.sockets| - 1 ==> s.sockets[k] == Closed)
    && (s.timer.Some? ==> s.sockets[|s.sockets| - 1] == Closed)
    // Between events an open socket implies an empty queue, and the queue holds no interrupt.
    && (IsOpen(s) ==> s.pending == [])
    && |s.pending| <= 50 && Interrupt !in s.pending
    // Once it was connected, a client that is not quitting always has a socket or a reconnect under way.
    && (s.everConnected && !s.quitting && s.sockets[|s.sockets| - 1] == Closed ==> s.timer.Some?)
    && (s.timer.Some? ==> s.attempt > 0 && s.timer == Some(Delay(s.attempt - 1)))
    // A client that never was connected does not reconnect, and one that quits has nothing left to do.
    && (!s.everConnected ==> |s.sockets| == 1 && s.timer == None)
    && (s.quitting ==> s.timer == None && s.sockets[|s.sockets| - 1] in {Closing, Closed})
  }

  lemma StepKeepsSound(s: State, e: Event)
    requires Sound(s) && Enabled(s, e)
    ensures Sound(Step(s, e)) && s.sent <= Step(s, e).sent
  {
    hide Delay, Command;
  }

  lemma {:induction false} RunIsSound(states: seq<State>, events: seq<Event>)
    requires Run(states, events)
    ensures Sound(states[|events|])
    decreases |events|
  {
    if events != [] {
      var n := |events| - 1;
      RunFront(states, events);
      RunIsSound(states[..n + 1], events[..n]);
      StepKeepsSound(states[n], events[n]);
    }
  }

  function NonInterrupts(msgs: seq<ClientMessage>): seq<ClientMessage> {
    if msgs == [] then []
    else
      NonInterrupts(msgs[..|msgs| - 1]) + if msgs[|msgs| - 1] == Interrupt then [] else [msgs[|msgs| - 1]]
  }

  lemma {:induction false} NonInterruptsOfAppend(a: seq<ClientMessage>, b: seq<ClientMessage>)
    ensures NonInterrupts(a + b) == NonInterrupts(a) + NonInterrupts(b)
    decreases |b|
  {
    if b == [] {
      assert a + b == a;
    } else {
      assert (a + b)[..|a + b| - 1] == a + b[..|b| - 1];
      NonInterruptsOfAppend(a, b[..|b| - 1]);
    }
  }

  lemma {:induction false} NoneIsInterrupt(a: seq<ClientMessage>)
    requires Interrupt !in a
    ensures NonInterrupts(a) == a
    decreases |a|
  {
    if a != [] {
      var front := a[..|a| - 1];
      assert a == front + [a[|a| - 1]];
      NoneIsInterrupt(front);
    }
  }

  /** What one event adds to the accepted messages. */
  function AcceptedBy(s: State, e: Event): seq<ClientMessage> {
    var current := if s.sockets == [] then Closed else s.sockets[|s.sockets| - 1];
    if e.Typed? && Command(e.text).Sends? && (current == Opened || |s.pending| < 50) then [Command(e.text).msg] else []
  }

  function Accepted(states: seq<State>, events: seq<Event>): seq<ClientMessage>
    requires |states| == |events| + 1
  {
    if events == [] then []
    else
      var n := |events| - 1;
      Accepted(states[..n + 1], events[..n]) + AcceptedBy(states[n], events[n])
  }

  lemma CommandIsNoInterrupt(text: string)
    ensures Command(text) != Sends(Interrupt)
  {
  }

  lemma StepDelivers(s: State, e: Event)
    requires Sound(s) && Enabled(s, e)
    ensures var t := Step(s, e);
            NonInterrupts(t.sent) + t.pending == NonInterrupts(s.sent) + s.pending + AcceptedBy(s, e)
  {
    hide NonInterrupts, Drained, Sent;
    match e
    case Typed(text) =>
      CommandIsNoInterrupt(text);
      hide Command;
      if Command(text).Sends? {
        SentDelivers(s, Command(text).msg);
      }
    case Interrupts =>
      SentDelivers(s, Interrupt);
    case Opens(k, lasts) =>
      DrainDelivers(s, k, lasts);
    case _ =>
  }

  lemma DrainDelivers(s: State, k: nat, lasts: nat)
    requires k < |s.sockets| && Interrupt !in s.pending
    ensures var t := Drained(s, k, lasts); NonInterrupts(t.sent) + t.pending == NonInterrupts(s.sent) + s.pending
  {
    hide NonInterrupts;
    var t := Drained(s, k, lasts);
    var n := |s.pending| - |t.pending|;
    NonInterruptsOfAppend(s.sent, s.pending[..n]);
    NoneIsInterrupt(s.pending[..n]);
    assert s.pending == s.pending[..n] + s.pending[n..];
  }

  lemma NonInterruptsOfOne(msg: ClientMessage)
    ensures NonInterrupts([msg]) == if msg == Interrupt then [] else [msg]
  {
    assert [msg][..0] == [];
  }

  lemma SentDelivers(s: State, msg: ClientMessage)
    requires Sound(s)
    ensures var t := Sent(s, msg);
            NonInterrupts(t.sent) + t.pending
            == NonInterrupts(s.sent) + s.pending + if msg != Interrupt && Accepts(s, msg) then [msg] else []
  {
    NonInterruptsOfOne(msg);
    hide NonInterrupts;
    NonInterruptsOfAppend(s.sent, [msg]);
    var kept := NonInterrupts(s.sent);
    assert kept + [] == kept && (kept + s.pending) + [] == kept + s.pending;
    if !IsOpen(s) { assert kept + (s.pending + [msg]) == (kept + s.pending) + [msg]; }
  }

  /**
   Delivery order: in every run what was sent, followed by the queue, is what was accepted, each message
   once and in order; interrupts aside, which are sent at once or not at all.
   */
  lemma {:induction false} SentThenPendingIsAccepted(states: seq<State>, events: seq<Event>)
    requires Run(states, events)
    ensures var s := states[|events|]; NonInterrupts(s.sent) + s.pending == Accepted(states, events)
    decreases |events|
  {
    if events != [] {
      var n := |events| - 1;
      RunFront(states, events);
      SentThenPendingIsAccepted(states[..n + 1], events[..n]);
      RunIsSound(states[..n + 1], events[..n]);
      StepDelivers(states[n], events[n]);
    }
  }

  /** While the socket is open between two events, all that was accepted has been sent. */
  lemma OpenMeansAllSent(states: seq<State>, events: seq<Event>)
    requires Run(states, events) && IsOpen(states[|events|])
    ensures NonInterrupts(states[|events|].sent) == Accepted(states, events)
  {
    RunIsSound(states, events);
    SentThenPendingIsAccepted(states, events);
    var s := states[|events|];
    assert NonInterrupts(s.sent) + [] == NonInterrupts(s.sent);
  }

  // ---- commands, interrupts, opening and quitting -----------------------------------------------

  predicate IsWord(w: string) { w != "" && forall i :: 0 <= i < |w| ==> !IsSpace(w[i]) }

  lemma {:induction false} WordInFront(word: string, rest: string)
    requires IsWord(word) && (rest == "" || IsSpace(rest[0]))
    ensures UpToSpace(word + rest) == word
  {
    var text := word + rest;
    assert text[0] == word[0] && text[1..] == word[1..] + rest;
    if |word| > 1 {
      WordInFront(word[1..], rest);
    } else {
      assert word[1..] + rest == rest;
    }
    assert word == [word[0]] + word[1..];
  }

  lemma FirstWord(a: string, word: string, rest: string)
    requires AllSpace(a) && IsWord(word) && (rest == "" || IsSpace(rest[0]))
    ensures UpToSpace(Trim(a + word + rest)) == word
  {
    hide IsSpace, UpToSpace, Trim;
    var c, d := TrimSplits(rest);
    var kept, tail := if Trim(rest) == "" then "" else c + Trim(rest), if Trim(rest) == "" then rest else d;
    assert rest == kept + tail;
    assert kept != "" ==> kept[0] == rest[0] && kept[|kept| - 1] == Trim(rest)[|Trim(rest)| - 1];
    var m := word + kept;
    assert m[0] == word[0] && m[|m| - 1] == if kept == "" then word[|word| - 1] else kept[|kept| - 1];
    TrimOf(a, m, tail);
    assert a + m + tail == a + word + rest;
    WordInFront(word, kept);
  }

  /** What each command does, whatever is typed around its word; other text is sent as it was typed. */
  lemma CommandByFirstWord(a: string, word: string, rest: string)
    requires AllSpace(a) && IsWord(word) && (rest == "" || IsSpace(rest[0]))
    ensures word == "/exit" || word == "/quit" <==> Command(a + word + rest) == Quit
    ensures word == "/clear" || word == "/help" <==> Command(a + word + rest) == Local
    ensures word == "/status" <==> Command(a + word + rest) == Sends(Status)
    ensures word == "/tasks" <==> Command(a + word + rest) == Sends(Tasks)
    ensures word == "/compact" <==> Command(a + word + rest) == Sends(Compact)
    ensures word == "/new" <==> Command(a + word + rest) == Sends(New)
    ensures word !in {"/exit", "/quit", "/clear", "/help", "/status", "/tasks", "/compact", "/new"} <==>
            Command(a + word + rest) == Sends(Message(a + word + rest))
  {
    FirstWord(a, word, rest);
    hide UpToSpace, Trim, IsSpace;
  }

  lemma BlankIsSent(text: string)
    requires AllSpace(text)
    ensures Command(text) == Sends(Message(text))
  {
    TrimOf(text, "", "");
    assert text + "" + "" == text;
    hide Trim;
  }

  /** How many interrupts came while the socket was open. */
  function InterruptsWhileOpen(states: seq<State>, events: seq<Event>): nat
    requires |states| == |events| + 1
  {
    if events == [] then 0
    else
      var n := |events| - 1;
      var sockets := states[n].sockets;
      InterruptsWhileOpen(states[..n + 1], events[..n])
      + if events[n].Interrupts? && sockets != [] && sockets[|sockets| - 1] == Opened then 1 else 0
  }

  lemma StepInterrupts(s: State, e: Event)
    requires Sound(s) && Enabled(s, e)
    ensures var t := Step(s, e);
            |t.sent| - |NonInterrupts(t.sent)|
            == |s.sent| - |NonInterrupts(s.sent)|
               + if e.Interrupts? && s.sockets[|s.sockets| - 1] == Opened then 1 else 0
  {
    hide NonInterrupts, Command;
    NonInterruptsOfOne(Interrupt);
    NonInterruptsOfAppend(s.sent, [Interrupt]);
    if e.Typed? {
      CommandIsNoInterrupt(e.text);
      if Command(e.text).Sends? {
        NonInterruptsOfOne(Command(e.text).msg);
        NonInterruptsOfAppend(s.sent, [Command(e.text).msg]);
      }
    }
    if e.Opens? {
      var n := |s.pending| - |Drained(s, e.k, e.lasts).pending|;
      NonInterruptsOfAppend(s.sent, s.pending[..n]);
      NoneIsInterrupt(s.pending[..n]);
    }
  }

  /** Exactly the interrupts that come while the socket is open are sent. */
  lemma {:induction false} InterruptsSentAtOnce(states: seq<State>, events: seq<Event>)
    requires Run(states, events)
    ensures var s := states[|events|];
            |s.sent| - |NonInterrupts(s.sent)| == InterruptsWhileOpen(states, events)
    decreases |events|
  {
    if events != [] {
      var n := |events| - 1;
      RunFront(states, events);
      InterruptsSentAtOnce(states[..n + 1], events[..n]);
      RunIsSound(states[..n + 1], events[..n]);
      StepInterrupts(states[n], events[n]);
    }
  }

  /** A socket that opens sends from the front of the queue for as long as it lasts, and to its end if it can. */
  lemma OpeningSends(s: State, k: nat, lasts: nat)
    requires Sound(s) && Enabled(s, Opens(k, lasts))
    ensures var t := Step(s, Opens(k, lasts));
            var n := if lasts < |s.pending| then lasts else |s.pending|;
            && t.sent == s.sent + s.pending[..n] && t.pending == s.pending[n..]
            && t.sockets == s.sockets[|s.sockets| - 1 := if lasts < |s.pending| then Closing else Opened]
  {
  }

  /** After quitting nothing more is sent, no socket is made and no reconnect is scheduled. */
  lemma QuitIsFinal(s: State, e: Event)
    requires Sound(s) && Enabled(s, e)
    ensures var t := Step(s, e);
            && (t.quitting <==> s.quitting || (e.Typed? && Command(e.text) == Quit))
            && (t.quitting ==> t.sent == s.sent && |t.sockets| == |s.sockets| && t.timer == None)
  {
    StepKeepsSound(s, e);
    hide Command, Delay;
  }

  /** The client counts as connected from the first time a socket opened. */
  lemma {:induction false} ConnectedOnceOpened(states: seq<State>, events: seq<Event>)
    requires Run(states, events)
    ensures states[|events|].everConnected <==> exists n :: 0 <= n < |events| && events[n].Opens?
    decreases |events|
  {
    if events != [] {
      var n := |events| - 1;
      RunFront(states, events);
      ConnectedOnceOpened(states[..n + 1], events[..n]);
      hide Command, Delay;
      if i :| 0 <= i < n && events[i].Opens? {
        assert events[..n][i].Opens?;
      }
    }
  }

  // ---- backoff ----------------------------------------------------------------------------------

  lemma {:induction false} Pow2Grows(n: nat)
    requires n >= 5
    ensures Pow2(n) >= 32
  {
    if n > 5 {
      Pow2Grows(n - 1);
    } else {
      assert Pow2(1) == 2 && Pow2(2) == 4 && Pow2(3) == 8 && Pow2(4) == 16 && Pow2(5) == 32;
    }
  }

  /** The delay doubles from a second on, capped at 30 seconds. */
  lemma DelayDoubles(n: nat)
    ensures Delay(n) == if 1_000 * Pow2(n) < 30_000 then 1_000 * Pow2(n) else 30_000
  {
    if n >= 5 {
      Pow2Grows(n);
    } else {
      assert Pow2(0) == 1 && Pow2(1) == 2 && Pow2(2) == 4 && Pow2(3) == 8 && Pow2(4) == 16;
    }
  }

  /** The closes since a socket opened last. */
  function ClosesSinceOpen(events: seq<Event>): nat {
    if events == [] then 0
    else
      var e, front := events[|events| - 1], events[..|events| - 1];
      if e.Opens? then 0 else ClosesSinceOpen(front) + if e.Closes? then 1 else 0
  }

  lemma StepCountsCloses(s: State, e: Event)
    requires Enabled(s, e)
    ensures var t := Step(s, e);
            if e.Opens? then t.attempt == 0
            else t.everConnected && !t.quitting ==>
                   s.everConnected && !s.quitting && t.attempt == s.attempt + if e.Closes? then 1 else 0
  {
    hide Command, Delay;
  }

  /** A scheduled reconnect waits by how often the connection closed since it was open last. */
  lemma {:induction false} BackoffCountsCloses(states: seq<State>, events: seq<Event>)
    requires Run(states, events)
    ensures var s := states[|events|]; s.everConnected && !s.quitting ==> s.attempt == ClosesSinceOpen(events)
    ensures var s := states[|events|];
            s.timer.Some? && s.everConnected && !s.quitting ==>
              ClosesSinceOpen(events) > 0 && s.timer == Some(Delay(ClosesSinceOpen(events) - 1))
    decreases |events|
  {
    hide Step, Enabled, Delay;
    RunIsSound(states, events);
    if events != [] {
      var n := |events| - 1;
      RunFront(states, events);
      hide Run;
      BackoffCountsCloses(states[..n + 1], events[..n]);
      StepCountsCloses(states[n], events[n]);
    }
  }
}
