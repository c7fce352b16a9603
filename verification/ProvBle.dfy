/** The lifecycle of BLE provisioning (src/esp_wifi_config_prov_ble.c): when
    received credentials become durable, and when a restart may be queued. The
    manager's events and the BLE link's may arrive in any order. */
module ProvBle {
  import opened Common
  import opened NetworkSort

  /** The options that matter here; `maxFailed` 0 means three. */
  datatype Config = Config(
    rebootOnSuccess: bool, disconnectRestart: bool, resetOnFailure: bool, maxFailed: byte)
  {
    function Limit(): nat { if maxFailed == 0 then 3 else maxFailed }
  }

  /** The file's static flags. */
  datatype Flags = Flags(
    active: bool, initialized: bool, credsReceived: bool, explicitStop: bool,
    restartPending: bool, registered: bool, coexRaised: bool, timerArmed: bool)

  /** The flags, the failure counter and the held candidate, plus what leaves the
      file: networks handed to the store, restart messages in the manager's queue,
      manager initialisations, and whether the device has restarted. */
  datatype State = State(
    f: Flags, failed: nat, pending: Option<Network>,
    stored: seq<Network>, queued: nat, inits: nat, rebooted: bool)

  const Boot: State :=
    State(Flags(false, false, false, false, false, false, false, false), 0, None, [], 0, 0, false)

  /** How the foreign calls inside a start turn out. */
  datatype Outcome = Outcome(init: bool, coex: bool, start: bool, register: bool)

  datatype Event =
    | Started
    | CredRecv(ssid: string, password: string)
    | CredFail
    | CredSuccess
    | Ended
    | Deinited
    | LinkDropped
    | CallStart(outcome: Outcome)
    | CallStop
    | CallDeinit
    | TimerFired
    | TaskRestart(outcome: Outcome)   // the manager task takes a restart message

  /** Hand the candidate to the store and forget it. */
  function Persisted(s: State): State {
    s.(stored := StoredAndHeld(s), pending := None)
  }

  function StartCalled(s: State, o: Outcome): State {
    if s.f.active then s
    else
      s.(f := Launched(s.f.(explicitStop := false, credsReceived := false), o), inits := s.inits + 1)
  }

  function Launched(f: Flags, o: Outcome): Flags {
    if !o.init then f
    else if !o.start then f.(initialized := false, coexRaised := false)
    else
      f.(initialized := true, active := true, coexRaised := f.coexRaised || o.coex,
         registered := f.registered || o.register)
  }

  function StopCalled(f: Flags): Flags {
    if !f.active && !f.initialized then f
    else f.(explicitStop := true, restartPending := false, active := false)
  }

  /** Everything off, except that a stale pending restart of a session that is
      neither active nor initialised is left standing. */
  function TornDown(f: Flags): Flags {
    Flags(false, false, false, false, f.restartPending && !f.active && !f.initialized,
          false, false, false)
  }

  function Dropped(c: Config, s: State): State {
    if !s.f.registered || !s.f.active then s
    else if s.f.credsReceived && c.rebootOnSuccess then Persisted(s).(rebooted := true)
    else if !c.disconnectRestart || s.f.explicitStop || s.f.credsReceived || s.f.restartPending then s
    else s.(f := s.f.(restartPending := true))
  }

  function Failed(c: Config, s: State): State {
    var n := s.failed + 1;
    s.(pending := None, failed := if c.resetOnFailure && n >= c.Limit() then 0 else n)
  }

  function Accepted(c: Config, s: State): State {
    Persisted(s).(failed := 0, f := s.f.(timerArmed := s.f.timerArmed || c.rebootOnSuccess))
  }

  function End(s: State): State {
    s.(f := s.f.(active := false, initialized := false, coexRaised := false, restartPending := false,
                 credsReceived := s.f.credsReceived && !s.f.restartPending),
       pending := None, queued := s.queued + if s.f.restartPending then 1 else 0)
  }

  function Step(c: Config, s: State, e: Event): State {
    if s.rebooted then s
    else
      match e
      case Started => s.(f := s.f.(active := true), failed := 0, pending := None)
      case CredRecv(ssid, password) =>
        s.(f := s.f.(credsReceived := true), pending := Some(Network(ssid, password, 10)))
      case CredFail => Failed(c, s)
      case CredSuccess => Accepted(c, s)
      case Ended => End(s)
      case Deinited => s.(f := s.f.(active := false, initialized := false))
      case LinkDropped => Dropped(c, s)
      case CallStart(o) => StartCalled(s, o)
      case CallStop => s.(f := StopCalled(s.f))
      case CallDeinit => s.(f := TornDown(s.f))
      case TimerFired => if s.f.timerArmed then s.(rebooted := true) else s
      case TaskRestart(o) => if s.queued > 0 then StartCalled(s.(queued := s.queued - 1), o) else s
  }

  function Run(c: Config, s: State, events: seq<Event>): State {
    if events == [] then s
    else Step(c, Run(c, s, events[..|events| - 1]), events[|events| - 1])
  }

  // ------------------------------------------------------------- durability

  /** The credentials received last, unless a start, a failure, the end of the
      session or their acceptance came after them. */
  function Candidate(events: seq<Event>): Option<Network> {
    if events == [] then None
    else AfterEvent(Candidate(events[..|events| - 1]), events[|events| - 1])
  }

  function AfterEvent(candidate: Option<Network>, e: Event): Option<Network> {
    match e
    case CredRecv(ssid, password) => Some(Network(ssid, password, 10))
    case Started => None
    case CredFail => None
    case CredSuccess => None
    case Ended => None
    case _ => candidate
  }

  lemma CandidateStep(c: Config, s: State, e: Event)
    requires !s.rebooted
    ensures !Step(c, s, e).rebooted ==> Step(c, s, e).pending == AfterEvent(s.pending, e)
  {
  }

  /** While the device runs, the candidate held is the one the events call for. */
  lemma {:induction false} HeldIsCandidate(c: Config, events: seq<Event>)
    ensures !Run(c, Boot, events).rebooted ==> Run(c, Boot, events).pending == Candidate(events)
  {
    if events != [] {
      var before := Run(c, Boot, events[..|events| - 1]);
      HeldIsCandidate(c, events[..|events| - 1]);
      if !before.rebooted {
        hide Step;
        CandidateStep(c, before, events[|events| - 1]);
      }
    }
  }

  /** A step stores at most one network; when it does, that network is the current
      candidate, and the step is an acceptance or the one that restarts the device. */
  lemma StoresOnlyTheCandidate(c: Config, events: seq<Event>, e: Event)
    ensures var before, after := Run(c, Boot, events), Run(c, Boot, events + [e]);
      after.stored == before.stored ||
      (Candidate(events).Some? && after.stored == before.stored + [Candidate(events).value]
       && (e == CredSuccess || (e == LinkDropped && after.rebooted && !before.rebooted)))
  {
    HeldIsCandidate(c, events);
    assert (events + [e])[..|events|] == events;
  }

  /** Accepted credentials are stored: the candidate at a success always gets out. */
  lemma AcceptedIsStored(c: Config, events: seq<Event>)
    requires !Run(c, Boot, events).rebooted && Candidate(events).Some?
    ensures Run(c, Boot, events + [CredSuccess]).stored ==
      Run(c, Boot, events).stored + [Candidate(events).value]
  {
    HeldIsCandidate(c, events);
    assert (events + [CredSuccess])[..|events|] == events;
  }

  /** `nets` are credentials received at the strictly increasing positions `at`. */
  predicate ReceivedAt(events: seq<Event>, nets: seq<Network>, at: seq<nat>) {
    && |at| == |nets|
    && (forall i :: 0 <= i < |at| ==>
          (at[i] < |events| && events[at[i]].CredRecv?
           && nets[i] == Network(events[at[i]].ssid, events[at[i]].password, 10)))
    && forall i, j :: 0 <= i < j < |at| ==> at[i] < at[j]
  }

  /** Everything stored, and then what is held. */
  function StoredAndHeld(s: State): seq<Network> {
    s.stored + if s.pending.Some? then [s.pending.value] else []
  }

  /** The networks stored, followed by the one held, are credentials received one
      after the other: none is stored twice for one receipt, none before an earlier
      one, and none that was not received. */
  lemma {:induction false} StoredAtMostOncePerReceipt(c: Config, events: seq<Event>) returns (at: seq<nat>)
    ensures ReceivedAt(events, StoredAndHeld(Run(c, Boot, events)), at)
  {
    at := [];
    if events != [] {
      var front, e := events[..|events| - 1], events[|events| - 1];
      var s := Run(c, Boot, front);
      at := StoredAtMostOncePerReceipt(c, front);
      assert forall i :: 0 <= i < |front| ==> events[i] == front[i];
      if !s.rebooted {
        HeldStep(c, s, e);
        if e.CredRecv? {
          at := at[..|s.stored|] + [|front|];
        } else if StoredAndHeld(Step(c, s, e)) == s.stored {
          at := at[..|s.stored|];
        }
      }
    }
  }

  lemma HeldStep(c: Config, s: State, e: Event)
    requires !s.rebooted
    ensures var after := StoredAndHeld(Step(c, s, e));
      if e.CredRecv? then after == s.stored + [Network(e.ssid, e.password, 10)]
      else after == s.stored || after == StoredAndHeld(s)
  {
  }

  // ------------------------------------------------------- flags and counters

  predicate Coherent(c: Config, s: State) {
    (s.f.explicitStop ==> !s.f.restartPending) && (c.resetOnFailure ==> s.failed < c.Limit())
  }

  lemma CoherentStep(c: Config, s: State, e: Event)
    requires Coherent(c, s)
    ensures Coherent(c, Step(c, s, e))
  {
    match e
    case Started =>
    case CredRecv(_, _) =>
    case CredFail =>
    case CredSuccess =>
    case Ended =>
    case Deinited =>
    case LinkDropped =>
    case CallStart(o) =>
    case CallStop =>
    case CallDeinit =>
    case TimerFired =>
    case TaskRestart(o) =>
  }

  /** An explicit stop leaves no restart pending, and with resets enabled the
      failure count stays below its limit, in every reachable state. */
  lemma {:induction false} FlagsCoherent(c: Config, events: seq<Event>)
    ensures Coherent(c, Run(c, Boot, events))
  {
    hide Step;
    if events != [] {
      FlagsCoherent(c, events[..|events| - 1]);
      CoherentStep(c, Run(c, Boot, events[..|events| - 1]), events[|events| - 1]);
    }
  }

  // --------------------------------------------- what the log says of restarts

  /** Whether event e after `events` begins a session, and how the foreign calls in
      it turn out: a start call, or a restart message there to be taken, while no
      session is up. */
  function Begins(c: Config, events: seq<Event>, e: Event): Option<Outcome>
    decreases |events|, 1
  {
    if Up(c, events) then None
    else
      match e
      case CallStart(o) => Some(o)
      case TaskRestart(o) => if Waiting(c, events) > 0 then Some(o) else None
      case _ => None
  }

  predicate Launches(begun: Option<Outcome>) {
    begun.Some? && begun.value.init && begun.value.start
  }

  /** A session is up: launched or reported started, and not stopped or over since. */
  predicate Up(c: Config, events: seq<Event>)
    decreases |events|, 0
  {
    events != [] &&
    var front, e := events[..|events| - 1], events[|events| - 1];
    match e
    case Started => true
    case CallStop => false
    case Ended => false
    case Deinited => false
    case CallDeinit => false
    case _ => Up(c, front) || Launches(Begins(c, front, e))
  }

  /** The manager is initialised, its session up or not. */
  predicate Ready(c: Config, events: seq<Event>)
    decreases |events|, 0
  {
    events != [] &&
    var front, e := events[..|events| - 1], events[|events| - 1];
    match e
    case Ended => false
    case Deinited => false
    case CallDeinit => false
    case _ =>
      match Begins(c, front, e)
      case None => Ready(c, front)
      case Some(o) => if o.init then o.start else Ready(c, front)
  }

  /** Drops of the link are heard of. */
  predicate Listening(c: Config, events: seq<Event>)
    decreases |events|, 0
  {
    events != [] &&
    var front, e := events[..|events| - 1], events[|events| - 1];
    e != CallDeinit
    && (Listening(c, front) || (Launches(Begins(c, front, e)) && Begins(c, front, e).value.register))
  }

  /** A stop of something was asked for since the last session began. */
  predicate Asked(c: Config, events: seq<Event>)
    decreases |events|, 0
  {
    events != [] &&
    var front, e := events[..|events| - 1], events[|events| - 1];
    e != CallDeinit && Begins(c, front, e) == None
    && (Asked(c, front) || (e == CallStop && (Up(c, front) || Ready(c, front))))
  }

  /** Credentials came since the last session began, an end that restarts aside. */
  predicate Received(c: Config, events: seq<Event>)
    decreases |events|, 0
  {
    events != [] &&
    var front, e := events[..|events| - 1], events[|events| - 1];
    match e
    case CredRecv(_, _) => true
    case CallDeinit => false
    case Ended => Received(c, front) && !Owed(c, front)
    case _ => Received(c, front) && Begins(c, front, e) == None
  }

  /** A drop of the link here earns a restart. */
  predicate Earns(c: Config, events: seq<Event>)
    decreases |events|, 1
  {
    c.disconnectRestart && Listening(c, events) && Up(c, events)
    && !Asked(c, events) && !Received(c, events)
  }

  /** Event e pays the restart or calls it off. */
  predicate Settles(c: Config, events: seq<Event>, e: Event)
    decreases |events|, 1
  {
    e == Ended || ((e == CallStop || e == CallDeinit) && (Up(c, events) || Ready(c, events)))
  }

  predicate Owed(c: Config, events: seq<Event>)
    decreases |events|, 0
  {
    events != [] &&
    var front, e := events[..|events| - 1], events[|events| - 1];
    !Settles(c, front, e) && (Owed(c, front) || (e == LinkDropped && Earns(c, front)))
  }

  /** Restart messages not yet taken. */
  function Waiting(c: Config, events: seq<Event>): nat
    decreases |events|, 0
  {
    if events == [] then 0
    else
      var front, e := events[..|events| - 1], events[|events| - 1];
      if e == Ended && Owed(c, front) then Waiting(c, front) + 1
      else if e.TaskRestart? && Waiting(c, front) > 0 then Waiting(c, front) - 1
      else Waiting(c, front)
  }

  /** The radio's coexistence setting is raised for the session. */
  predicate Raised(c: Config, events: seq<Event>) {
    events != [] &&
    var front, e := events[..|events| - 1], events[|events| - 1];
    e != Ended && e != CallDeinit &&
    match Begins(c, front, e)
    case None => Raised(c, front)
    case Some(o) => if o.init then o.start && (o.coex || Raised(c, front)) else Raised(c, front)
  }

  /** The reboot that follows accepted credentials is due. */
  predicate Armed(c: Config, events: seq<Event>) {
    events != [] &&
    var front, e := events[..|events| - 1], events[|events| - 1];
    e != CallDeinit && (Armed(c, front) || (e == CredSuccess && c.rebootOnSuccess))
  }

  /** Refusals since credentials were last accepted or the manager started. */
  function Refusals(events: seq<Event>): nat {
    if events == [] || events[|events| - 1] == Started || events[|events| - 1] == CredSuccess then 0
    else Refusals(events[..|events| - 1]) + if events[|events| - 1] == CredFail then 1 else 0
  }

  /** Sessions begun. */
  function Begun(c: Config, events: seq<Event>): nat {
    if events == [] then 0
    else
      var front := events[..|events| - 1];
      Begun(c, front) + if Begins(c, front, events[|events| - 1]).Some? then 1 else 0
  }

  predicate Told(c: Config, s: State, events: seq<Event>) {
    ToldSession(c, s, events) && ToldRestart(c, s, events) && ToldRest(c, s, events)
  }

  predicate ToldRest(c: Config, s: State, events: seq<Event>) {
    && s.f.coexRaised == Raised(c, events) && s.f.timerArmed == Armed(c, events)
    && s.failed == Wrapped(c, Refusals(events)) && s.inits == Begun(c, events)
  }

  /** With resets enabled the failure counter starts over at the limit. */
  function Wrapped(c: Config, refusals: nat): nat {
    if c.resetOnFailure then refusals % c.Limit() else refusals
  }

  lemma WrappedNext(c: Config, n: nat)
    ensures Wrapped(c, 0) == 0
    ensures Wrapped(c, n + 1) ==
      if c.resetOnFailure && Wrapped(c, n) + 1 >= c.Limit() then 0 else Wrapped(c, n) + 1
  {
    NextRemainder(n, c.Limit());
  }

  lemma RestStep(c: Config, s: State, front: seq<Event>, e: Event)
    requires !s.rebooted && Told(c, s, front) && !Step(c, s, e).rebooted
    ensures ToldRest(c, Step(c, s, e), front + [e])
  {
    assert (front + [e])[..|front|] == front;
    WrappedNext(c, Refusals(front));
    hide Wrapped, Up, Ready, Listening, Asked, Received, Owed, Waiting;
    match e
    case Started =>
    case CredRecv(_, _) =>
    case CredFail =>
    case CredSuccess =>
    case Ended =>
    case Deinited =>
    case LinkDropped =>
    case CallStart(o) =>
    case CallStop =>
    case CallDeinit =>
    case TimerFired =>
    case TaskRestart(o) =>
  }

  lemma NextRemainder(n: nat, m: nat)
    requires m > 0
    ensures (n + 1) % m == if n % m + 1 >= m then 0 else n % m + 1
  {
    var q, r := n / m, n % m;
    assert n == q * m + r;
    var q', r' := (n + 1) / m, (n + 1) % m;
    assert n + 1 == q' * m + r';
    Distribute(q', q, m);
    Distribute(q', q + 1, m);
    assert (q + 1) * m == q * m + m by { Distribute(q, 1, m); }
    SmallMultiple(q' - q, m, r + 1 - r');
    SmallMultiple(q' - q - 1, m, r + 1 - r' - m);
  }

  predicate ToldSession(c: Config, s: State, events: seq<Event>) {
    && s.f.active == Up(c, events) && s.f.initialized == Ready(c, events)
    && s.f.registered == Listening(c, events)
  }

  predicate ToldRestart(c: Config, s: State, events: seq<Event>) {
    && s.f.explicitStop == Asked(c, events) && s.f.credsReceived == Received(c, events)
    && s.f.restartPending == Owed(c, events) && s.queued == Waiting(c, events)
  }

  lemma SessionStep(c: Config, s: State, front: seq<Event>, e: Event)
    requires !s.rebooted && Told(c, s, front) && !Step(c, s, e).rebooted
    ensures ToldSession(c, Step(c, s, e), front + [e])
  {
    assert (front + [e])[..|front|] == front;
    match e
    case Started =>
    case CredRecv(_, _) =>
    case CredFail =>
    case CredSuccess =>
    case Ended =>
    case Deinited =>
    case LinkDropped =>
    case CallStart(o) =>
    case CallStop =>
    case CallDeinit =>
    case TimerFired =>
    case TaskRestart(o) =>
  }

  lemma RestartStep(c: Config, s: State, front: seq<Event>, e: Event)
    requires !s.rebooted && Told(c, s, front) && !Step(c, s, e).rebooted
    ensures ToldRestart(c, Step(c, s, e), front + [e])
  {
    assert (front + [e])[..|front|] == front;
    match e
    case Started =>
    case CredRecv(_, _) =>
    case CredFail =>
    case CredSuccess =>
    case Ended =>
    case Deinited =>
    case LinkDropped =>
    case CallStart(o) =>
    case CallStop =>
    case CallDeinit =>
    case TimerFired =>
    case TaskRestart(o) =>
  }

  /** While the device runs, the log alone tells every flag and the messages queued. */
  lemma {:induction false} LogTellsFlags(c: Config, events: seq<Event>)
    ensures !Run(c, Boot, events).rebooted ==> Told(c, Run(c, Boot, events), events)
  {
    hide Step;
    if events != [] {
      var front, e := events[..|events| - 1], events[|events| - 1];
      LogTellsFlags(c, front);
      assert front + [e] == events;
      var s := Run(c, Boot, front);
      if s.rebooted {
        RebootedStays(c, s, e);
      } else if !Step(c, s, e).rebooted {
        hide ToldSession, ToldRestart, ToldRest;
        RestStep(c, s, front, e);
        SessionStep(c, s, front, e);
        RestartStep(c, s, front, e);
      }
    }
  }

  lemma RebootedStays(c: Config, s: State, e: Event)
    requires s.rebooted
    ensures Step(c, s, e) == s
  {
  }

  /** The link dropped at position k of the log and earned a restart that nothing
      has settled since. */
  predicate EarnedAt(c: Config, events: seq<Event>, k: nat) {
    && k < |events| && events[k] == LinkDropped && Earns(c, events[..k])
    && forall j :: k < j < |events| ==> !Settles(c, events[..j], events[j])
  }

  lemma {:induction false} OwedIffEarned(c: Config, events: seq<Event>)
    ensures Owed(c, events) <==> exists k :: EarnedAt(c, events, k)
  {
    hide Earns;
    if events != [] {
      var front, e := events[..|events| - 1], events[|events| - 1];
      OwedIffEarned(c, front);
      assert forall j :: 0 <= j < |front| ==> events[j] == front[j] && events[..j] == front[..j];
      if Owed(c, events) {
        if Owed(c, front) {
          var k :| EarnedAt(c, front, k);
          assert EarnedAt(c, events, k);
        } else {
          assert EarnedAt(c, events, |front|);
        }
      }
      if k: nat :| EarnedAt(c, events, k) {
        if k < |front| {
          assert !Settles(c, events[..|front|], events[|front|]);
          assert EarnedAt(c, front, k);
        }
      }
    }
  }

  /** Over all event orders, a restart message is queued exactly when a session ends
      after a drop of its link, without credentials or a stop before it, that no end
      and no stop of the session has come after. */
  lemma QueuedOnlyAtEnd(c: Config, events: seq<Event>, e: Event)
    ensures Run(c, Boot, events + [e]).queued > Run(c, Boot, events).queued <==>
      e == Ended && !Run(c, Boot, events).rebooted && exists k :: EarnedAt(c, events, k)
  {
    hide EarnedAt;
    LogTellsFlags(c, events);
    OwedIffEarned(c, events);
    RunSnoc(c, Boot, events, e);
    QueuedStep(c, Run(c, Boot, events), e);
  }

  lemma QueuedStep(c: Config, s: State, e: Event)
    ensures Step(c, s, e).queued > s.queued <==> e == Ended && s.f.restartPending && !s.rebooted
  {
  }

  // ---------------------------------------------------------------- reboots

  /** Over all event orders the device reboots exactly when the timer armed by accepted
      credentials fires, or the link drops in a session that received credentials. */
  lemma RebootsIff(c: Config, events: seq<Event>, e: Event)
    requires !Run(c, Boot, events).rebooted
    ensures Run(c, Boot, events + [e]).rebooted <==>
      || (e == TimerFired && Armed(c, events))
      || (e == LinkDropped && c.rebootOnSuccess && Listening(c, events) && Up(c, events) && Received(c, events))
  {
    LogTellsFlags(c, events);
    RunSnoc(c, Boot, events, e);
  }

  /** A reboot on a dropped link never loses a candidate: it is stored in that step. */
  lemma RebootKeepsCandidate(c: Config, events: seq<Event>)
    requires !Run(c, Boot, events).rebooted && Run(c, Boot, events + [LinkDropped]).rebooted
    ensures Run(c, Boot, events + [LinkDropped]).stored == Run(c, Boot, events).stored +
      if Candidate(events).Some? then [Candidate(events).value] else []
  {
    HeldIsCandidate(c, events);
    RunSnoc(c, Boot, events, LinkDropped);
  }

  // -------------------------------------------------------- explicit stop

  predicate NoStartCall(events: seq<Event>) {
    forall e :: e in events ==> !e.CallStart?
  }

  /** A restart is queued, or pending, or can still become pending. */
  predicate Revivable(c: Config, s: State) {
    s.queued > 0 || s.f.restartPending
    || (s.f.registered && !s.f.explicitStop && c.disconnectRestart && !s.f.credsReceived)
  }

  lemma SpentStays(c: Config, s: State, e: Event)
    requires !Revivable(c, s) && !e.CallStart?
    ensures !Revivable(c, Step(c, s, e)) && Step(c, s, e).inits == s.inits
  {
    match e
    case Started =>
    case CredRecv(_, _) =>
    case CredFail =>
    case CredSuccess =>
    case Ended =>
    case Deinited =>
    case LinkDropped =>
    case CallStop =>
    case CallDeinit =>
    case TimerFired =>
    case TaskRestart(o) =>
    case CallStart(o) =>
  }

  /** From a state that is not revivable only a start call initialises the manager. */
  lemma {:induction false} OnlyStartRevives(c: Config, s: State, events: seq<Event>)
    requires !Revivable(c, s) && NoStartCall(events)
    ensures !Revivable(c, Run(c, s, events)) && Run(c, s, events).inits == s.inits
  {
    hide Step, Revivable;
    if events != [] {
      assert events[|events| - 1] in events;
      OnlyStartRevives(c, s, events[..|events| - 1]);
      SpentStays(c, Run(c, s, events[..|events| - 1]), events[|events| - 1]);
    }
  }

  const Works: Outcome := Outcome(true, true, true, true)

  lemma DropMakesPending(c: Config, s: State)
    requires !s.rebooted && Revivable(c, s) && s.queued == 0
    ensures var t := Step(c, Step(c, s, Started), LinkDropped);
      (t.f.restartPending && !t.rebooted && t.inits == s.inits) || s.f.restartPending
  {
  }

  lemma EndQueues(c: Config, s: State)
    requires !s.rebooted && s.f.restartPending
    ensures var t := Step(c, s, Ended);
      t.queued > 0 && !t.f.active && !t.rebooted && t.inits == s.inits
  {
  }

  lemma MessageRevives(c: Config, s: State)
    requires !s.rebooted && s.queued > 0 && !s.f.active
    ensures var t := Step(c, s, TaskRestart(Works));
      t.inits == s.inits + 1 && t.f.active
  {
  }

  /** From an inactive revivable state one, two or four events bring the manager back. */
  lemma Revived(c: Config, s: State) returns (events: seq<Event>)
    requires !s.rebooted && !s.f.active && Revivable(c, s)
    ensures NoStartCall(events) && Run(c, s, events).inits == s.inits + 1
    ensures Run(c, s, events).f.active
  {
    RunNone(c, s);
    hide Step, Run;
    var before, t := [], s;
    if s.queued == 0 {
      if !s.f.restartPending {
        DropMakesPending(c, s);
        RunSnoc(c, s, [], Started);
        RunSnoc(c, s, [] + [Started], LinkDropped);
        before, t := [] + [Started] + [LinkDropped], Step(c, Step(c, s, Started), LinkDropped);
      }
      EndQueues(c, t);
      RunSnoc(c, s, before, Ended);
      before, t := before + [Ended], Step(c, t, Ended);
    }
    MessageRevives(c, t);
    RunSnoc(c, s, before, TaskRestart(Works));
    events := before + [TaskRestart(Works)];
  }

  /** When a stop is final, exactly: no run without a start call initialises the
      manager again if and only if, once the stop has returned, no restart is queued
      or pending and none can become pending. Before the call that reads: with a
      session up or the manager initialised, none is queued; otherwise the stop does
      nothing, and the condition must hold already. */
  lemma StopIsFinalIff(c: Config, s: State)
    requires !s.rebooted
    ensures var t := Step(c, s, CallStop);
      (forall events :: NoStartCall(events) ==> Run(c, t, events).inits == t.inits) <==> !Revivable(c, t)
    ensures Revivable(c, Step(c, s, CallStop)) <==>
      if s.f.active || s.f.initialized then s.queued > 0 else Revivable(c, s)
  {
    var t := Step(c, s, CallStop);
    assert !t.rebooted && !t.f.active;
    hide Step, Revivable, Run;
    if Revivable(c, t) {
      var events := Revived(c, t);
    } else {
      forall events | NoStartCall(events) ensures Run(c, t, events).inits == t.inits {
        OnlyStartRevives(c, t, events);
      }
    }
  }

  lemma RunSnoc(c: Config, s: State, events: seq<Event>, e: Event)
    ensures Run(c, s, events + [e]) == Step(c, Run(c, s, events), e)
  {
    assert (events + [e])[..|events|] == events;
  }

  /** A link dropped mid-session, the session ended, and the application started and
      stopped provisioning before the task got round to the restart message: the stop
      takes effect, and the message undoes it. */
  lemma QueuedAtStopIsReachable(c: Config) returns (events: seq<Event>)
    requires c.disconnectRestart
    ensures var s := Run(c, Boot, events);
      s.f.explicitStop && s.queued == 1 && Run(c, Boot, events + [TaskRestart(Works)]).f.active
  {
    var ended := EndedAfterDrop(c);
    var s := Run(c, Boot, ended);
    RunSnoc(c, Boot, ended, CallStart(Works));
    RunSnoc(c, Boot, ended + [CallStart(Works)], CallStop);
    events := ended + [CallStart(Works)] + [CallStop];
    RunSnoc(c, Boot, events, TaskRestart(Works));
  }

  /** The same, and the stop comes when the session is already over: it is ignored,
      not even recorded as a stop. */
  lemma IgnoredStopIsReachable(c: Config) returns (events: seq<Event>)
    requires c.disconnectRestart
    ensures var s := Run(c, Boot, events);
      Step(c, s, CallStop) == s && s.queued == 1
      && Run(c, Boot, events + [CallStop] + [TaskRestart(Works)]).f.active
  {
    events := EndedAfterDrop(c);
    RunSnoc(c, Boot, events, CallStop);
    RunSnoc(c, Boot, events + [CallStop], TaskRestart(Works));
  }

  lemma EndedAfterDrop(c: Config) returns (events: seq<Event>)
    requires c.disconnectRestart
    ensures var s := Run(c, Boot, events);
      !s.rebooted && s.queued == 1 && !s.f.active && !s.f.initialized && !s.f.explicitStop
  {
    events := DroppedMidSession(c);
    RunSnoc(c, Boot, events, Ended);
    events := events + [Ended];
  }

  lemma RunNone(c: Config, s: State)
    ensures Run(c, s, []) == s
  {
  }

  lemma DroppedMidSession(c: Config) returns (events: seq<Event>)
    requires c.disconnectRestart
    ensures var s := Run(c, Boot, events);
      && !s.rebooted && s.queued == 0 && s.f.restartPending && !s.f.explicitStop
      && s.f.active && s.f.initialized
  {
    hide Run;
    var e := CallStart(Works);
    RunNone(c, Boot);
    RunSnoc(c, Boot, [], e);
    RunSnoc(c, Boot, [] + [e], LinkDropped);
    events := [] + [e] + [LinkDropped];
    assert Step(c, Boot, e).f.registered;
  }

  /** And a stop between the manager's DEINIT and its END leaves the pending restart
      standing, with nothing queued yet. */
  lemma PendingAtStopIsReachable(c: Config) returns (events: seq<Event>)
    requires c.disconnectRestart
    ensures var s := Run(c, Boot, events);
      Step(c, s, CallStop) == s && s.queued == 0
      && Run(c, Boot, events + [CallStop] + [Ended] + [TaskRestart(Works)]).f.active
  {
    events := DroppedMidSession(c);
    RunSnoc(c, Boot, events, Deinited);
    events := events + [Deinited];
    RunSnoc(c, Boot, events, CallStop);
    RunSnoc(c, Boot, events + [CallStop], Ended);
    RunSnoc(c, Boot, events + [CallStop] + [Ended], TaskRestart(Works));
  }

  lemma StepCases(c: Config, s: State)
    requires !s.rebooted
    ensures Step(c, s, Ended) == End(s)
    ensures Step(c, s, CallDeinit) == s.(f := TornDown(s.f))
    ensures Step(c, s, CredSuccess) == Accepted(c, s)
  {
  }

  // ------------------------------------------------------------ the handlers

  class Lifecycle {
    const config: Config
    var active: bool
    var initialized: bool
    var credsReceived: bool
    var explicitStop: bool
    var restartPending: bool
    var registered: bool
    var coexRaised: bool
    var timerArmed: bool
    var failed: nat
    var pending: Option<Network>
    var stored: seq<Network>
    var queued: nat
    var inits: nat
    var rebooted: bool
    ghost var history: seq<Event>

    ghost function View(): State
      reads `active, `initialized, `credsReceived, `explicitStop, `restartPending, `registered,
        `coexRaised, `timerArmed, `failed, `pending, `stored, `queued, `inits, `rebooted
    {
      State(FlagView(), failed, pending, stored, queued, inits, rebooted)
    }

    ghost function FlagView(): Flags
      reads `active, `initialized, `credsReceived, `explicitStop, `restartPending, `registered,
        `coexRaised, `timerArmed
    {
      Flags(active, initialized, credsReceived, explicitStop, restartPending, registered,
            coexRaised, timerArmed)
    }

    /** The fields are what the events so far lead to. */
    ghost predicate Valid()
      reads this
    {
      View() == Run(config, Boot, history)
    }

    constructor (config: Config)
      ensures Valid() && history == [] && this.config == config
    {
      this.config := config;
      active, initialized, credsReceived, explicitStop := false, false, false, false;
      restartPending, registered, coexRaised, timerArmed := false, false, false, false;
      failed, pending, stored, queued, inits, rebooted := 0, None, [], 0, 0, false;
      history := [];
    }

    ghost method Record(e: Event)
      requires Valid() && !rebooted
      modifies `history
      ensures history == old(history) + [e] && Run(config, Boot, history) == Step(config, View(), e)
    {
      RunSnoc(config, Boot, history, e);
      history := history + [e];
    }

    method PersistPendingNetwork()
      modifies `stored, `pending
      ensures pending == None
      ensures stored == old(stored) + if old(pending).Some? then [old(pending).value] else []
    {
      if pending.None? {
        assert stored + [] == stored;
        return;
      }
      stored := stored + [pending.value];
      pending := None;
    }

    method QueuePendingRestart()
      modifies `restartPending, `credsReceived, `queued
      ensures !restartPending && credsReceived == (old(credsReceived) && !old(restartPending))
      ensures queued == old(queued) + if old(restartPending) then 1 else 0
    {
      if restartPending {
        restartPending := false;
        credsReceived := false;
        queued := queued + 1;
      }
    }

    /** Events of the provisioning manager. */
    method OnStarted()
      requires Valid() && !rebooted
      modifies this
      ensures Valid() && history == old(history) + [Started]
    {
      Record(Started);
      active := true;
      failed := 0;
      pending := None;
    }

    method OnCredRecv(ssid: string, password: string)
      requires Valid() && !rebooted
      modifies this
      ensures Valid() && history == old(history) + [CredRecv(ssid, password)]
    {
      Record(CredRecv(ssid, password));
      credsReceived := true;
      pending := Some(Network(ssid, password, 10));
    }

    method OnCredFail()
      requires Valid() && !rebooted
      modifies this
      ensures Valid() && history == old(history) + [CredFail]
    {
      Record(CredFail);
      pending := None;
      failed := failed + 1;
      if config.resetOnFailure {
        var limit := config.Limit();
        if failed >= limit {
          failed := 0;
        }
      }
    }

    method OnCredSuccess()
      requires Valid() && !rebooted
      modifies this
      ensures Valid() && history == old(history) + [CredSuccess]
    {
      StepCases(config, View());
      hide Step, Run, Accepted;
      Record(CredSuccess);
      AcceptCredentials();
    }

    method AcceptCredentials()
      modifies `failed, `stored, `pending, `timerArmed
      ensures View() == Accepted(config, old(View()))
    {
      failed := 0;
      PersistPendingNetwork();
      if config.rebootOnSuccess {
        timerArmed := true;
      }
    }

    method OnEnded()
      requires Valid() && !rebooted
      modifies this
      ensures Valid() && history == old(history) + [Ended]
    {
      StepCases(config, View());
      hide Step, Run, End;
      Record(Ended);
      EndSession();
    }

    method EndSession()
      modifies `active, `pending, `initialized, `coexRaised, `restartPending, `credsReceived, `queued
      ensures View() == End(old(View()))
    {
      active, pending := false, None;
      initialized, coexRaised := false, false;
      QueuePendingRestart();
    }

    method OnDeinited()
      requires Valid() && !rebooted
      modifies this
      ensures Valid() && history == old(history) + [Deinited]
    {
      Record(Deinited);
      active := false;
      initialized := false;
    }

    method OnLinkDropped()
      requires Valid() && !rebooted
      modifies this
      ensures Valid() && history == old(history) + [LinkDropped]
    {
      Record(LinkDropped);
      if !registered || !active {
        return;
      }
      if credsReceived && config.rebootOnSuccess {
        if pending.Some? {
          PersistPendingNetwork();
        }
        rebooted := true;
        return;
      }
      if !config.disconnectRestart || explicitStop || credsReceived || restartPending {
        return;
      }
      restartPending := true;
    }

    method Start(o: Outcome) returns (ok: bool)
      requires Valid() && !rebooted
      modifies this
      ensures Valid() && history == old(history) + [CallStart(o)]
      ensures ok <==> old(active) || (o.init && o.start)
    {
      Record(CallStart(o));
      ok := Begin(o);
    }

    method Begin(o: Outcome) returns (ok: bool)
      modifies `active, `initialized, `credsReceived, `explicitStop, `registered, `coexRaised, `inits
      ensures View() == StartCalled(old(View()), o)
      ensures ok <==> old(active) || (o.init && o.start)
    {
      if active {
        return true;
      }
      explicitStop := false;
      credsReceived := false;
      inits := inits + 1;
      ok := Launch(o);
    }

    /** The foreign calls of a start, each undone if a later one fails. */
    method Launch(o: Outcome) returns (ok: bool)
      requires !active
      modifies `active, `initialized, `registered, `coexRaised
      ensures FlagView() == Launched(old(FlagView()), o)
      ensures ok <==> o.init && o.start
    {
      if !o.init {
        return false;
      }
      initialized := true;
      coexRaised := coexRaised || o.coex;
      if !o.start {
        initialized, coexRaised := false, false;
        return false;
      }
      registered := registered || o.register;
      active := true;
      ok := true;
    }

    method Stop()
      requires Valid() && !rebooted
      modifies this
      ensures Valid() && history == old(history) + [CallStop]
    {
      Record(CallStop);
      Halt();
    }

    method Halt()
      modifies `explicitStop, `restartPending, `active
      ensures FlagView() == StopCalled(old(FlagView()))
    {
      if !active && !initialized {
        return;
      }
      explicitStop := true;
      restartPending := false;
      active := false;
    }

    method Deinit()
      requires Valid() && !rebooted
      modifies this
      ensures Valid() && history == old(history) + [CallDeinit]
    {
      StepCases(config, View());
      hide Step, Run, TornDown;
      Record(CallDeinit);
      TearDown();
    }

    method TearDown()
      modifies `active, `initialized, `credsReceived, `explicitStop, `restartPending, `registered,
        `coexRaised, `timerArmed
      ensures FlagView() == TornDown(old(FlagView()))
    {
      registered, timerArmed := false, false;
      Halt();
      initialized, coexRaised := false, false;
      credsReceived, explicitStop := false, false;
    }

    method OnRebootTimer()
      requires Valid() && !rebooted && timerArmed
      modifies this
      ensures Valid() && history == old(history) + [TimerFired]
    {
      Record(TimerFired);
      rebooted := true;
    }

    /** The manager task takes one restart message off its queue. */
    method OnRestartMessage(o: Outcome)
      requires Valid() && !rebooted && queued > 0
      modifies `queued, `active, `initialized, `credsReceived, `explicitStop, `registered, `coexRaised, `inits,
        `history
      ensures Valid() && history == old(history) + [TaskRestart(o)]
    {
      Record(TaskRestart(o));
      queued := queued - 1;
      var ok := Begin(o);
    }
  }
}
