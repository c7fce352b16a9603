/** The station side of the manager (src/esp_wifi_config.c): event handlers that
    only set bits and queue messages, the task that handles them one at a time, the
    scheduled reconnect, and the connect and disconnect calls of
    src/esp_wifi_config_network.c. Each handler, call and task iteration is one
    step; the queue keeps order and drops nothing. */
module Station {
  import opened Common
  import B = Backoff

  datatype OnExhausted = Restart | Provision

  /** `base` and `max` bound the backoff in milliseconds; `ticks` converts it. */
  datatype Config = Config(
    autoReconnect: bool, maxAttempts: nat, onExhausted: OnExhausted,
    base: uint32, max: uint32, ticks: uint32 -> uint32)

  datatype Msg = Start | StaConnected(ssid: string) | StaDisconnected(ssid: string) | GotIp | OtherMsg

  /** What the driver reports. SSIDs are up to 32 characters. */
  datatype Driver = StaStarted | Joined(ssid: string) | Left(ssid: string) | Address | OtherReport

  /** Connection state as the code keeps it. */
  datatype Link = Link(
    wifi: WifiState,
    ssid: string,            // connected_ssid, empty if none
    connectedBit: bool, failBit: bool,
    connecting: bool, suppressed: bool)

  /** The scheduled reconnect and its counters. */
  datatype Retry = Retry(pending: bool, due: uint32, count: nat, attempts: nat)

  /** `connects` counts esp_wifi_connect calls, `lost` the DISCONNECTED events
      posted to subscribers; `restarted` means the device is gone. */
  datatype State = State(link: Link, retry: Retry, queue: seq<Msg>, connects: nat, lost: nat, restarted: bool)

  const Boot: State :=
    State(Link(Disconnected, "", false, false, false, false), Retry(false, 0, 0, 0), [], 0, 0, false)

  /** What fits a 32-byte field with its NUL. */
  function Clip(s: string): (r: string)
    ensures |r| <= 31 && (|s| <= 31 ==> r == s)
  {
    Truncated(s, 31)
  }

  // ---------------------------------------------------------- event handlers

  /** A disconnect concerns the current connection if it names it, or, while no
      name is known yet, if no connection has been recorded. */
  predicate IsCurrent(l: Link, ssid: string) {
    if l.ssid != "" then l.ssid == ssid else !l.connectedBit
  }

  function Reported(s: State, d: Driver): State {
    match d
    case StaStarted => s.(queue := s.queue + [Start])
    case Joined(ssid) => s.(queue := s.queue + [StaConnected(Clip(ssid))])
    case Left(ssid) =>
      s.(link := s.link.(failBit := true, connectedBit := s.link.connectedBit && !IsCurrent(s.link, ssid)),
         queue := s.queue + [StaDisconnected(Clip(ssid))])
    case Address =>
      s.(link := s.link.(connectedBit := true, failBit := false), queue := s.queue + [GotIp])
    case OtherReport => s.(queue := s.queue + [OtherMsg])
  }

  // -------------------------------------------------------- connect sequence

  /** One attempt of a connect sequence and what the driver reported during it; and
      how the sequence ended. Nothing is tried unless a network is saved. */
  datatype Ending = Success | GaveUp | Interrupted
  datatype Sequence = Sequence(saved: bool, rounds: seq<seq<Driver>>, ending: Ending)
  {
    function Tries(): nat { if saved then |rounds| else 0 }
  }

  function ReportedAll(s: State, ds: seq<Driver>): State {
    if ds == [] then s else Reported(ReportedAll(s, ds[..|ds| - 1]), ds[|ds| - 1])
  }

  function Round(s: State, ds: seq<Driver>): State {
    ReportedAll(s.(link := s.link.(connectedBit := false, failBit := false, wifi := Connecting),
                   connects := s.connects + 1), ds)
  }

  function Rounds(s: State, rounds: seq<seq<Driver>>): State {
    if rounds == [] then s else Round(Rounds(s, rounds[..|rounds| - 1]), rounds[|rounds| - 1])
  }

  function Sequenced(s: State, q: Sequence): State {
    var t := s.(retry := s.retry.(pending := false));
    if !q.saved then t
    else Ended(Rounds(t.(link := t.link.(connecting := true, wifi := Connecting)), q.rounds), q.ending)
  }

  function Ended(s: State, ending: Ending): State {
    match ending
    case Success => s.(link := s.link.(connecting := false), retry := s.retry.(count := 0))
    case GaveUp => s.(link := s.link.(connecting := false, wifi := Disconnected))
    case Interrupted => s
  }

  // ---------------------------------------------------------------- the task

  function OnConnected(s: State, ssid: string): State {
    s.(link := s.link.(connecting := false, ssid := Clip(ssid)), retry := s.retry.(pending := false, count := 0))
  }

  function OnGotIp(s: State): State {
    s.(link := s.link.(wifi := Connected, connectedBit := true, failBit := false),
       retry := s.retry.(pending := false, attempts := 0))
  }

  predicate MayReconnect(c: Config, l: Link) {
    c.autoReconnect && !l.suppressed && !l.connecting
  }

  /** The counter is 16 bits wide. */
  function Bumped(attempts: nat): nat {
    (attempts + 1) % 0x1_0000
  }

  predicate Exhausted(c: Config, attempts: nat) {
    c.maxAttempts > 0 && Bumped(attempts) >= c.maxAttempts
  }

  function Scheduled(c: Config, r: Retry, now: uint32, delay: uint32): Retry {
    Retry(true, B.DueTick(now, delay), r.count + 1,
          if Exhausted(c, r.attempts) then 0 else Bumped(r.attempts))
  }

  function Lost(l: Link): Link {
    l.(wifi := Disconnected, ssid := "", connectedBit := false, failBit := true)
  }

  predicate RestartsNow(c: Config, attempts: nat) {
    Exhausted(c, attempts) && c.onExhausted == Restart
  }

  function OnDisconnected(c: Config, s: State, ssid: string, now: uint32, delay: uint32): State {
    if !IsCurrent(s.link, ssid) then s
    else
      var t := s.(link := Lost(s.link), lost := s.lost + 1);
      if !MayReconnect(c, s.link) then t
      else if RestartsNow(c, s.retry.attempts) then
        t.(retry := t.retry.(attempts := Bumped(t.retry.attempts)), restarted := true)
      else t.(retry := Scheduled(c, t.retry, now, delay))
  }

  /** Clock and connect sequences of one iteration of the task, and what the shift of
      the backoff yields where C leaves its value open. */
  datatype Turn = Turn(now: uint32, shifted: uint32, onStart: Sequence, onDue: Sequence)

  /** The backoff delay in ticks after `count` losses in a row. */
  function DelayTicks(c: Config, count: nat, t: Turn): uint32 {
    c.ticks(B.Capped(c.base, c.max, if count < 32 then B.Shifted(c.base, count) else t.shifted))
  }

  function Handled(c: Config, s: State, m: Msg, t: Turn): State {
    match m
    case Start => if t.onStart.saved then Sequenced(s, t.onStart) else s
    case StaConnected(ssid) => OnConnected(s, ssid)
    case StaDisconnected(ssid) => OnDisconnected(c, s, ssid, t.now, DelayTicks(c, s.retry.count, t))
    case GotIp => OnGotIp(s)
    case OtherMsg => s
  }

  /** The check after every message or timeout. */
  function DueChecked(c: Config, s: State, t: Turn): State {
    if s.restarted || !s.retry.pending || !B.IsDue(t.now, s.retry.due) then s
    else
      var u := s.(retry := s.retry.(pending := false));
      if c.autoReconnect && !s.link.suppressed then Sequenced(u, t.onDue) else u
  }

  datatype Event =
    | Report(d: Driver)
    | Connect                                     // no name: queue a start
    | ConnectTo(known: bool, alreadyThere: bool)  // by name
    | Disconnect
    | Scan                                        // stops an attempt in progress
    | Take(t: Turn)                               // one iteration of the task

  function Step(c: Config, s: State, e: Event): State {
    if s.restarted then s
    else
      match e
      case Report(d) => Reported(s, d)
      case Connect => s.(link := s.link.(suppressed := false), queue := s.queue + [Start])
      case ConnectTo(known, alreadyThere) =>
        var t := s.(link := s.link.(suppressed := false));
        if (s.link.wifi == Connected && alreadyThere) || !known then t
        else t.(link := t.link.(wifi := Connecting), connects := s.connects + 1)
      case Disconnect => s.(link := s.link.(suppressed := true, connecting := false))
      case Scan =>
        if s.link.connecting || s.link.wifi == Connecting then s.(link := s.link.(connecting := false)) else s
      case Take(t) =>
        if s.queue == [] then DueChecked(c, s, t)
        else DueChecked(c, Handled(c, s.(queue := s.queue[1..]), s.queue[0], t), t)
  }

  function Run(c: Config, s: State, events: seq<Event>): State {
    if events == [] then s
    else Step(c, Run(c, s, events[..|events| - 1]), events[|events| - 1])
  }

  lemma RunSnoc(c: Config, events: seq<Event>, e: Event)
    ensures Run(c, Boot, events + [e]) == Step(c, Run(c, Boot, events), e)
  {
    assert (events + [e])[..|events|] == events;
  }

  // ------------------------------------------- a deliberate disconnect stands

  predicate Quiet(s: State) {
    s.link.suppressed && Start !in s.queue
  }

  /** Events after which nothing asks for a connection. */
  predicate NoRequest(events: seq<Event>) {
    forall e :: e in events ==> !e.Connect? && !e.ConnectTo? && e != Report(StaStarted)
  }

  lemma QuietStep(c: Config, s: State, e: Event)
    requires Quiet(s) && !e.Connect? && !e.ConnectTo? && e != Report(StaStarted)
    ensures Quiet(Step(c, s, e)) && Step(c, s, e).connects == s.connects
  {
    match e
    case Report(d) =>
    case Disconnect =>
    case Scan =>
    case Take(t) =>
      if s.queue != [] {
        assert s.queue[0] in s.queue;
      }
    case Connect =>
    case ConnectTo(_, _) =>
  }

  /** Once disconnect has been called and no start is queued, no run without a new
      request makes another connect call, whatever the driver reports, whatever is
      still queued, and whether or not a backoff was armed and expires. */
  lemma {:induction false} DisconnectIsRespected(c: Config, s: State, events: seq<Event>)
    requires Quiet(s) && NoRequest(events)
    ensures Quiet(Run(c, s, events)) && Run(c, s, events).connects == s.connects
  {
    hide Step;
    if events != [] {
      var front := events[..|events| - 1];
      assert events[|events| - 1] in events && NoRequest(front);
      DisconnectIsRespected(c, s, front);
      QuietStep(c, Run(c, s, front), events[|events| - 1]);
    }
  }

  lemma DisconnectMakesQuiet(c: Config, s: State)
    requires !s.restarted
    ensures Quiet(Step(c, s, Disconnect)) <==> Start !in s.queue
    ensures !Step(c, s, Disconnect).link.connecting
  {
  }

  lemma DisconnectOnly(c: Config, s: State)
    requires !s.restarted
    ensures Step(c, s, Disconnect) == s.(link := s.link.(suppressed := true, connecting := false))
  {
  }

  /** The condition is exact: while suppressed, the task makes a connect call if and
      only if the message it takes is a start (and there is something to try). */
  lemma SuppressedConnectsIffStart(c: Config, s: State, t: Turn)
    requires s.link.suppressed && !s.restarted
    ensures Step(c, s, Take(t)).connects > s.connects <==>
      s.queue != [] && s.queue[0] == Start && t.onStart.Tries() > 0
  {
    if s.queue != [] {
      var u := s.(queue := s.queue[1..]);
      SequencedConnects(u, t.onStart);
      SequencedKeeps(u, t.onStart);
    }
  }

  lemma {:induction false} RoundsFacts(s: State, rounds: seq<seq<Driver>>)
    ensures var t := Rounds(s, rounds);
      t.connects == s.connects + |rounds| && t.retry == s.retry && t.link.suppressed == s.link.suppressed
      && t.lost == s.lost && t.restarted == s.restarted
  {
    if rounds != [] {
      RoundsFacts(s, rounds[..|rounds| - 1]);
      var r := Rounds(s, rounds[..|rounds| - 1]);
      ReportsFacts(r.(link := r.link.(connectedBit := false, failBit := false, wifi := Connecting),
                      connects := r.connects + 1), rounds[|rounds| - 1]);
    }
  }

  lemma {:induction false} ReportsFacts(s: State, ds: seq<Driver>)
    ensures var t := ReportedAll(s, ds);
      t.connects == s.connects && t.retry == s.retry && t.link.suppressed == s.link.suppressed
      && t.lost == s.lost && t.restarted == s.restarted
  {
    if ds != [] {
      ReportsFacts(s, ds[..|ds| - 1]);
    }
  }

  lemma SequencedConnects(s: State, q: Sequence)
    ensures Sequenced(s, q).connects == s.connects + q.Tries()
  {
    hide Rounds;
    var t := s.(retry := s.retry.(pending := false));
    RoundsFacts(t.(link := t.link.(connecting := true, wifi := Connecting)), q.rounds);
  }

  lemma SequencedKeeps(s: State, q: Sequence)
    ensures var t := Sequenced(s, q);
      !t.retry.pending && t.retry.attempts == s.retry.attempts
      && t.link.suppressed == s.link.suppressed && t.lost == s.lost && t.restarted == s.restarted
  {
    hide Rounds;
    var t := s.(retry := s.retry.(pending := false));
    RoundsFacts(t.(link := t.link.(connecting := true, wifi := Connecting)), q.rounds);
  }

  // -------------------------------------------- stale disconnects are harmless

  predicate Due(r: Retry, t: Turn) {
    r.pending && B.IsDue(t.now, r.due)
  }

  predicate Attempts(c: Config, suppressed: bool, t: Turn) {
    c.autoReconnect && !suppressed && t.onDue.Tries() > 0
  }

  /** The first of these turns that finds the reconnect due makes an attempt. */
  predicate Interrupts(c: Config, r: Retry, suppressed: bool, turns: seq<Turn>)
    decreases |turns|
  {
    turns != [] &&
    if Due(r, turns[0]) then Attempts(c, suppressed, turns[0])
    else Interrupts(c, r, suppressed, turns[1..])
  }

  lemma {:induction false} NothingToInterrupt(c: Config, r: Retry, suppressed: bool, turns: seq<Turn>)
    requires !r.pending
    ensures !Interrupts(c, r, suppressed, turns)
    decreases |turns|
  {
    if turns != [] {
      NothingToInterrupt(c, r, suppressed, turns[1..]);
    }
  }

  function Drained(c: Config, s: State, turns: seq<Turn>): State
    decreases |turns|
  {
    if turns == [] then s else Drained(c, Step(c, s, Take(turns[0])), turns[1..])
  }

  /** A stale disconnect by itself does nothing; only the deadline check may. */
  lemma StaleStep(c: Config, s: State, name: string, t: Turn)
    requires !s.restarted && s.link.ssid == "" && s.link.connectedBit
    requires s.queue != [] && s.queue[0] == StaDisconnected(name)
    ensures var u := Step(c, s, Take(t));
      if Due(s.retry, t) && Attempts(c, s.link.suppressed, t) then u.connects > s.connects
      else
        && u.queue == s.queue[1..] && u.link.ssid == "" && u.link.connectedBit && !u.restarted
        && u.link.suppressed == s.link.suppressed && u.lost == s.lost && u.connects == s.connects
        && if Due(s.retry, t) then !u.retry.pending else u.retry == s.retry
  {
    NoRounds();
    hide Rounds;
    var w := s.(queue := s.queue[1..], retry := s.retry.(pending := false));
    SequencedConnects(w, t.onDue);
  }

  lemma NoRounds()
    ensures forall u :: Rounds(u, []) == u
  {
  }

  lemma {:induction false} ConnectsGrow(c: Config, s: State, turns: seq<Turn>)
    ensures Drained(c, s, turns).connects >= s.connects
    decreases |turns|
  {
    if turns != [] {
      TakeConnects(c, s, turns[0]);
      hide Step;
      ConnectsGrow(c, Step(c, s, Take(turns[0])), turns[1..]);
    }
  }

  lemma TakeConnects(c: Config, s: State, t: Turn)
    ensures Step(c, s, Take(t)).connects >= s.connects
  {
    hide Sequenced;
    if !s.restarted {
      var u := if s.queue == [] then s else Handled(c, s.(queue := s.queue[1..]), s.queue[0], t);
      if s.queue != [] {
        SequencedConnects(s.(queue := s.queue[1..]), t.onStart);
      }
      SequencedConnects(u.(retry := u.retry.(pending := false)), t.onDue);
    }
  }

  lemma NamedThenAddressed(c: Config, s: State, name: string, turns: seq<Turn>)
    requires !s.restarted && s.queue == [StaConnected(name), GotIp] && |turns| == 2
    ensures var t := Drained(c, s, turns);
      && t.link.wifi == Connected && t.link.ssid == Clip(name) && t.link.connectedBit && !t.link.connecting
      && !t.retry.pending && t.queue == [] && !t.restarted
      && t.lost == s.lost && t.connects == s.connects
  {
    var t := Step(c, s, Take(turns[0]));
    assert t.queue == [GotIp];
    var u := Step(c, t, Take(turns[1]));
    assert turns[1..][1..] == [] && turns[1..][0] == turns[1];
    assert Drained(c, u, []) == u;
  }

  /** With a connection recorded but its name not yet known, drain any number of
      queued disconnects, whatever networks they name, then the association with
      `name` and the address. No connect call is made if and only if no reconnect
      armed earlier comes due, with something to try, among the disconnects. Then
      the end is connected to `name`: no DISCONNECTED event was posted and no
      reconnect is pending. */
  lemma {:induction false} StaleDisconnectsHarmless(c: Config, s: State, stale: seq<string>, name: string, turns: seq<Turn>)
    requires !s.restarted && s.link.ssid == "" && s.link.connectedBit
    requires s.queue == StaleQueue(stale, name) && |turns| == |stale| + 2
    ensures var t := Drained(c, s, turns);
      var interrupted := Interrupts(c, s.retry, s.link.suppressed, turns[..|stale|]);
      && (t.connects == s.connects <==> !interrupted)
      && (!interrupted ==>
            && t.link.wifi == Connected && t.link.ssid == Clip(name) && t.link.connectedBit
            && !t.retry.pending && t.queue == [] && !t.restarted && t.lost == s.lost)
    decreases |stale|
  {
    hide Step;
    if stale == [] {
      NamedThenAddressed(c, s, name, turns);
    } else {
      var t := Step(c, s, Take(turns[0]));
      assert s.queue[0] == StaDisconnected(stale[0]) && s.queue[1..] == StaleQueue(stale[1..], name);
      StaleStep(c, s, stale[0], turns[0]);
      assert turns[..|stale|][1..] == turns[1..][..|stale| - 1] && turns[..|stale|][0] == turns[0];
      if Due(s.retry, turns[0]) && Attempts(c, s.link.suppressed, turns[0]) {
        ConnectsGrow(c, t, turns[1..]);
      } else {
        StaleDisconnectsHarmless(c, t, stale[1..], name, turns[1..]);
        if Due(s.retry, turns[0]) {
          NothingToInterrupt(c, t.retry, t.link.suppressed, turns[1..][..|stale| - 1]);
        }
      }
    }
  }

  function StaleQueue(stale: seq<string>, name: string): seq<Msg> {
    if stale == [] then [StaConnected(name), GotIp]
    else [StaDisconnected(stale[0])] + StaleQueue(stale[1..], name)
  }

  /** The handler and the task disagree about a 32-character name: the handler
      compares it in full with the 31 characters kept, so it clears the connected
      bit at once exactly for names the field can hold; the task, given the clipped
      name, always recognises the disconnect. */
  lemma LongNameBitLags(s: State, name: string)
    requires name != "" && s.link.ssid == Clip(name) && s.link.connectedBit
    ensures !Reported(s, Left(name)).link.connectedBit <==> |name| <= 31
    ensures IsCurrent(s.link, Clip(name))
  {
  }

  // --------------------------------------------------- reconnect exhaustion

  /** A disconnect that the reconnect limit counts. */
  predicate Counted(c: Config, s: State, e: Event) {
    && !s.restarted && e.Take? && s.queue != [] && s.queue[0].StaDisconnected?
    && IsCurrent(s.link, s.queue[0].ssid) && MayReconnect(c, s.link)
  }

  predicate TakesAddress(s: State, e: Event) {
    !s.restarted && e.Take? && s.queue != [] && s.queue[0] == GotIp
  }

  /** Counted disconnects since an address was last obtained. */
  function CountedSince(c: Config, events: seq<Event>): nat {
    if events == [] then 0
    else
      var front, e := events[..|events| - 1], events[|events| - 1];
      var s := Run(c, Boot, front);
      if TakesAddress(s, e) then 0
      else CountedSince(c, front) + if Counted(c, s, e) then 1 else 0
  }

  /** How a step moves the counter and the device. */
  lemma CounterStep(c: Config, s: State, e: Event)
    requires !s.restarted
    ensures var t := Step(c, s, e);
      (t.restarted <==> Counted(c, s, e) && Exhausted(c, s.retry.attempts) && c.onExhausted == Restart)
      && (TakesAddress(s, e) ==> t.retry.attempts == 0)
      && (Counted(c, s, e) && !t.restarted ==>
            t.retry.attempts == if Exhausted(c, s.retry.attempts) then 0 else Bumped(s.retry.attempts))
      && (!Counted(c, s, e) && !TakesAddress(s, e) ==> t.retry.attempts == s.retry.attempts)
  {
    match e
    case Report(d) =>
    case Connect =>
    case ConnectTo(_, _) =>
    case Disconnect =>
    case Scan =>
    case Take(t) =>
      var u := if s.queue == [] then s else Handled(c, s.(queue := s.queue[1..]), s.queue[0], t);
      HandledCounter(c, s, t);
      DueKeepsCounter(c, u, t);
  }

  lemma DueKeepsCounter(c: Config, s: State, t: Turn)
    ensures DueChecked(c, s, t).retry.attempts == s.retry.attempts
    ensures DueChecked(c, s, t).restarted == s.restarted
  {
    hide Sequenced;
    SequencedKeeps(s.(retry := s.retry.(pending := false)), t.onDue);
  }

  lemma HandledCounter(c: Config, s: State, t: Turn)
    requires !s.restarted
    ensures s.queue != [] ==>
      var u := Handled(c, s.(queue := s.queue[1..]), s.queue[0], t);
      var e := Take(t);
      (u.restarted <==> Counted(c, s, e) && Exhausted(c, s.retry.attempts) && c.onExhausted == Restart)
      && (TakesAddress(s, e) ==> u.retry.attempts == 0)
      && (Counted(c, s, e) && !u.restarted ==>
            u.retry.attempts == if Exhausted(c, s.retry.attempts) then 0 else Bumped(s.retry.attempts))
      && (!Counted(c, s, e) && !TakesAddress(s, e) ==> u.retry.attempts == s.retry.attempts)
  {
    hide Sequenced;
    if s.queue != [] {
      SequencedKeeps(s.(queue := s.queue[1..]), t.onStart);
    }
  }

  /** In RESTART mode, while the device runs, the counter is the number of counted
      disconnects since the last address, and below the limit. */
  lemma {:induction false} CounterIsCount(c: Config, events: seq<Event>)
    requires 0 < c.maxAttempts < 0x1_0000 && c.onExhausted == Restart
    ensures var s := Run(c, Boot, events);
      !s.restarted ==> s.retry.attempts == CountedSince(c, events) < c.maxAttempts
  {
    hide Step;
    hide Counted;
    hide TakesAddress;
    if events != [] {
      var front, e := events[..|events| - 1], events[|events| - 1];
      var s := Run(c, Boot, front);
      CounterIsCount(c, front);
      if s.restarted {
        RestartedStays(c, s, e);
      } else {
        CounterStep(c, s, e);
      }
    }
  }

  lemma RestartedStays(c: Config, s: State, e: Event)
    requires s.restarted
    ensures Step(c, s, e) == s
  {
  }

  /** The device restarts on exactly the counted disconnect that brings the count to
      the limit, neither earlier nor later. */
  lemma RestartsAtTheLimit(c: Config, events: seq<Event>, e: Event)
    requires 0 < c.maxAttempts < 0x1_0000 && c.onExhausted == Restart
    requires !Run(c, Boot, events).restarted
    ensures Run(c, Boot, events + [e]).restarted <==>
      Counted(c, Run(c, Boot, events), e) && CountedSince(c, events) + 1 == c.maxAttempts
  {
    hide Step;
    hide Counted;
    assert (events + [e])[..|events|] == events;
    CounterIsCount(c, events);
    CounterStep(c, Run(c, Boot, events), e);
  }

  /** In PROVISION mode the device never restarts and the counter stays below the
      limit in every reachable state. */
  lemma {:induction false} ProvisionNeverRestarts(c: Config, events: seq<Event>)
    requires 0 < c.maxAttempts < 0x1_0000 && c.onExhausted == Provision
    ensures var s := Run(c, Boot, events);
      !s.restarted && s.retry.attempts < c.maxAttempts
  {
    hide Step;
    hide Counted;
    hide TakesAddress;
    if events != [] {
      var front, e := events[..|events| - 1], events[|events| - 1];
      ProvisionNeverRestarts(c, front);
      CounterStep(c, Run(c, Boot, front), e);
    }
  }

  /** Without a limit nothing ever restarts either. */
  lemma {:induction false} NoLimitNeverRestarts(c: Config, events: seq<Event>)
    requires c.maxAttempts == 0
    ensures !Run(c, Boot, events).restarted
  {
    hide Step;
    hide Counted;
    hide TakesAddress;
    if events != [] {
      NoLimitNeverRestarts(c, events[..|events| - 1]);
      CounterStep(c, Run(c, Boot, events[..|events| - 1]), events[|events| - 1]);
    }
  }

  /** A reconnect scheduled at true time `start` is taken up by the first check at or
      after its deadline and by none before it, across tick wrap-around. */
  lemma ReconnectFiresOnTime(c: Config, s: State, start: nat, delay: uint32, times: seq<nat>, k: nat, t: Turn)
    requires !s.restarted && s.retry.pending && s.retry.due == B.DueTick(B.Tick(start), delay)
    requires delay < B.HALF && k < |times| && start <= times[0] < start + B.HALF
    requires forall j :: 0 < j < |times| ==> times[j - 1] <= times[j] < times[j - 1] + B.HALF
    requires forall j :: 0 <= j < k ==> times[j] < start + delay
    requires t.now == B.Tick(times[k])
    ensures DueChecked(c, s, t) == s <==> times[k] < start + delay
    ensures times[k] >= start + delay && c.autoReconnect && !s.link.suppressed ==>
      DueChecked(c, s, t).connects == s.connects + t.onDue.Tries()
  {
    hide Sequenced;
    hide B.IsDue;
    EarlierChecksNotDue(start, delay, times, k);
    B.FiresAtFirstCheckAfter(start, delay, times, k);
    var u := s.(retry := s.retry.(pending := false));
    SequencedConnects(u, t.onDue);
    SequencedKeeps(u, t.onDue);
  }

  lemma {:induction false} EarlierChecksNotDue(start: nat, delay: uint32, times: seq<nat>, k: nat)
    requires delay < B.HALF && k < |times| && start <= times[0] < start + B.HALF
    requires forall j :: 0 < j < |times| ==> times[j - 1] <= times[j] < times[j - 1] + B.HALF
    requires forall j :: 0 <= j < k ==> times[j] < start + delay
    ensures forall j :: 0 <= j < k ==> !B.IsDue(B.Tick(times[j]), B.DueTick(B.Tick(start), delay))
  {
    if k > 0 {
      EarlierChecksNotDue(start, delay, times, k - 1);
      B.FiresAtFirstCheckAfter(start, delay, times, k - 1);
    }
  }

  // ------------------------------------------------- a lost connection is taken up

  /** A counted loss that does not restart the device arms the reconnect. */
  lemma LossIsScheduled(c: Config, s: State, t: Turn)
    requires Counted(c, s, Take(t)) && !RestartsNow(c, s.retry.attempts)
    requires 0 < DelayTicks(c, s.retry.count, t) < B.HALF
    ensures var u := Step(c, s, Take(t));
      && u.retry.pending && u.retry.due == B.DueTick(t.now, DelayTicks(c, s.retry.count, t))
      && u.retry.count == s.retry.count + 1 && u.queue == s.queue[1..] && !u.restarted
      && u.link.suppressed == s.link.suppressed && u.connects == s.connects && u.lost == s.lost + 1
      && u.link.wifi == Disconnected && u.link.ssid == "" && !u.link.connectedBit
  {
    hide Sequenced, DelayTicks, B.IsDue;
    NotDueAtOnce(t.now, DelayTicks(c, s.retry.count, t));
  }

  lemma NotDueAtOnce(now: uint32, delay: uint32)
    requires 0 < delay < B.HALF
    ensures !B.IsDue(now, B.DueTick(now, delay))
  {
    B.DueIff(now, delay, now);
    assert B.Tick(now) == now;
  }

  /** From the loss to the attempt: no turn before the deadline does anything, and the
      first at or after it makes the attempts its sequence has. */
  lemma LossIsTakenUp(c: Config, s: State, t: Turn, start: nat, times: seq<nat>, turns: seq<Turn>, k: nat)
    requires Counted(c, s, Take(t)) && !RestartsNow(c, s.retry.attempts) && |s.queue| == 1
    requires 0 < DelayTicks(c, s.retry.count, t) < B.HALF && t.now == B.Tick(start)
    requires k < |times| == |turns| && start <= times[0] < start + B.HALF
    requires forall j :: 0 < j < |times| ==> times[j - 1] <= times[j] < times[j - 1] + B.HALF
    requires forall j :: 0 <= j < |times| ==> turns[j].now == B.Tick(times[j])
    requires forall j :: 0 <= j < k ==> times[j] < start + DelayTicks(c, s.retry.count, t)
    requires times[k] >= start + DelayTicks(c, s.retry.count, t)
    ensures var u := Step(c, s, Take(t));
      && Drained(c, u, turns[..k]) == u && u.connects == s.connects
      && Step(c, u, Take(turns[k])).connects == s.connects + turns[k].onDue.Tries()
  {
    var delay := DelayTicks(c, s.retry.count, t);
    var u := Step(c, s, Take(t));
    LossIsScheduled(c, s, t);
    forall j | 0 <= j < k ensures Step(c, u, Take(turns[j])) == u {
      WaitingTurn(c, u, turns[j]);
      ReconnectFiresOnTime(c, u, start, delay, times, j, turns[j]);
    }
    NothingHappens(c, u, turns[..k]);
    WaitingTurn(c, u, turns[k]);
    ReconnectFiresOnTime(c, u, start, delay, times, k, turns[k]);
  }

  lemma WaitingTurn(c: Config, s: State, t: Turn)
    requires s.queue == [] && !s.restarted
    ensures Step(c, s, Take(t)) == DueChecked(c, s, t)
  {
  }

  lemma {:induction false} NothingHappens(c: Config, s: State, turns: seq<Turn>)
    requires forall t :: t in turns ==> Step(c, s, Take(t)) == s
    ensures Drained(c, s, turns) == s
    decreases |turns|
  {
    hide Step;
    if turns != [] {
      assert turns[0] in turns;
      NothingHappens(c, s, turns[1..]);
    }
  }

  /** A turn whose sequence starts the count of losses over: it ends in success, or
      the association is reported. */
  predicate StartsOver(c: Config, s: State, t: Turn) {
    var u := if s.queue == [] then s else Handled(c, s.(queue := s.queue[1..]), s.queue[0], t);
    || (s.queue != [] && s.queue[0].StaConnected?)
    || (s.queue != [] && s.queue[0] == Start && t.onStart.saved && t.onStart.ending == Success)
    || (!u.restarted && Due(u.retry, t) && c.autoReconnect && !u.link.suppressed
        && t.onDue.saved && t.onDue.ending == Success)
  }

  /** Losses in a row: counted, and nothing in between started the count over. */
  function LossesInARow(c: Config, events: seq<Event>): nat {
    if events == [] then 0
    else
      var front, e := events[..|events| - 1], events[|events| - 1];
      var s := Run(c, Boot, front);
      if e.Take? && StartsOver(c, s, e.t) then 0
      else LossesInARow(c, front) + if Counted(c, s, e) && !RestartsNow(c, s.retry.attempts) then 1 else 0
  }

  lemma LossCountStep(c: Config, s: State, e: Event)
    requires !s.restarted
    ensures var t := Step(c, s, e);
      t.retry.count ==
        if e.Take? && StartsOver(c, s, e.t) then 0
        else s.retry.count + if Counted(c, s, e) && !RestartsNow(c, s.retry.attempts) then 1 else 0
  {
    match e
    case Report(d) =>
    case Connect =>
    case ConnectTo(_, _) =>
    case Disconnect =>
    case Scan =>
    case Take(t) =>
      var u := if s.queue == [] then s else Handled(c, s.(queue := s.queue[1..]), s.queue[0], t);
      if s.queue != [] {
        HandledLosses(c, s, t);
      }
      DueLosses(c, u, t);
  }

  lemma HandledLosses(c: Config, s: State, t: Turn)
    requires !s.restarted && s.queue != []
    ensures var u := Handled(c, s.(queue := s.queue[1..]), s.queue[0], t);
      u.retry.count ==
        if s.queue[0].StaConnected? || (s.queue[0] == Start && t.onStart.saved && t.onStart.ending == Success) then 0
        else s.retry.count + if Counted(c, s, Take(t)) && !RestartsNow(c, s.retry.attempts) then 1 else 0
  {
    hide Sequenced, DelayTicks;
    SequencedCount(s.(queue := s.queue[1..]), t.onStart);
  }

  lemma DueLosses(c: Config, s: State, t: Turn)
    ensures DueChecked(c, s, t).retry.count ==
      if !s.restarted && Due(s.retry, t) && c.autoReconnect && !s.link.suppressed
         && t.onDue.saved && t.onDue.ending == Success
      then 0 else s.retry.count
  {
    hide Sequenced;
    SequencedCount(s.(retry := s.retry.(pending := false)), t.onDue);
  }

  lemma SequencedCount(s: State, q: Sequence)
    ensures Sequenced(s, q).retry.count == if q.saved && q.ending == Success then 0 else s.retry.count
  {
    hide Rounds;
    var t := s.(retry := s.retry.(pending := false));
    RoundsFacts(t.(link := t.link.(connecting := true, wifi := Connecting)), q.rounds);
  }

  /** In every reachable state the exponent of the backoff is the number of losses in
      a row. */
  lemma {:induction false} CountIsLossesInARow(c: Config, events: seq<Event>)
    ensures !Run(c, Boot, events).restarted ==>
      Run(c, Boot, events).retry.count == LossesInARow(c, events)
  {
    hide Step, Counted, StartsOver;
    if events != [] {
      var front, e := events[..|events| - 1], events[|events| - 1];
      CountIsLossesInARow(c, front);
      if Run(c, Boot, front).restarted {
        RestartedStays(c, Run(c, Boot, front), e);
      } else {
        LossCountStep(c, Run(c, Boot, front), e);
      }
    }
  }

  /** So the delay doubles with every loss in a row, up to the cap. */
  lemma BackoffDoubles(c: Config, events: seq<Event>, t: Turn)
    requires c.base > 0 && c.base * c.max < B.WORD && LossesInARow(c, events) < 32
    requires !Run(c, Boot, events).restarted
    ensures var n := LossesInARow(c, events);
      B.Min(c.base * B.Pow2(n), c.max) < B.WORD
      && DelayTicks(c, Run(c, Boot, events).retry.count, t) == c.ticks(B.Min(c.base * B.Pow2(n), c.max))
  {
    CountIsLossesInARow(c, events);
    hide Run, LossesInARow;
    B.DelayExact(c.base, c.max, LossesInARow(c, events));
  }

  // ---------------------------------------------- requests and reports are served

  /** Messages are handled in the order they were queued. */
  lemma TakeQueue(c: Config, s: State, t: Turn)
    requires s.queue != [] && !s.restarted
    ensures s.queue[1..] <= Step(c, s, Take(t)).queue
  {
    var u := s.(queue := s.queue[1..]);
    hide Sequenced, DelayTicks;
    SequencedQueue(u, t.onStart);
    SequencedQueue(Handled(c, u, s.queue[0], t).(retry := Handled(c, u, s.queue[0], t).retry.(pending := false)), t.onDue);
  }

  lemma SequencedQueue(s: State, q: Sequence)
    ensures s.queue <= Sequenced(s, q).queue
  {
    hide Rounds;
    var t := s.(retry := s.retry.(pending := false));
    RoundsQueue(t.(link := t.link.(connecting := true, wifi := Connecting)), q.rounds);
  }

  lemma {:induction false} RoundsQueue(s: State, rounds: seq<seq<Driver>>)
    ensures s.queue <= Rounds(s, rounds).queue
  {
    if rounds != [] {
      var r := Rounds(s, rounds[..|rounds| - 1]);
      RoundsQueue(s, rounds[..|rounds| - 1]);
      ReportsQueue(r.(link := r.link.(connectedBit := false, failBit := false, wifi := Connecting),
                      connects := r.connects + 1), rounds[|rounds| - 1]);
    }
  }

  lemma {:induction false} ReportsQueue(s: State, ds: seq<Driver>)
    ensures s.queue <= ReportedAll(s, ds).queue
  {
    if ds != [] {
      ReportsQueue(s, ds[..|ds| - 1]);
    }
  }

  lemma StartConnects(c: Config, s: State, t: Turn)
    requires !s.restarted && s.queue != [] && s.queue[0] == Start
    ensures Step(c, s, Take(t)).connects >= s.connects + t.onStart.Tries()
  {
    hide Sequenced;
    var v := s.(queue := s.queue[1..]);
    var u := Handled(c, v, Start, t);
    SequencedConnects(v, t.onStart);
    SequencedConnects(u.(retry := u.retry.(pending := false)), t.onDue);
  }

  /** A start, wherever it stands in the queue, makes its attempts once the task has
      got to it, unless the device restarts first. */
  lemma {:induction false} StartIsServed(c: Config, s: State, n: nat, turns: seq<Turn>)
    requires n < |s.queue| && s.queue[n] == Start && |turns| == n + 1
    ensures Drained(c, s, turns).restarted
      || Drained(c, s, turns).connects >= s.connects + turns[n].onStart.Tries()
    decreases n
  {
    hide Step;
    if s.restarted {
      StaysRestarted(c, s, turns);
    } else {
      var t := Step(c, s, Take(turns[0]));
      if n == 0 {
        assert turns[1..] == [];
        StartConnects(c, s, turns[0]);
      } else {
        TakeQueue(c, s, turns[0]);
        TakeConnects(c, s, turns[0]);
        assert t.queue[n - 1] == s.queue[1..][n - 1];
        StartIsServed(c, t, n - 1, turns[1..]);
      }
    }
  }

  lemma {:induction false} StaysRestarted(c: Config, s: State, turns: seq<Turn>)
    requires s.restarted
    ensures Drained(c, s, turns) == s
    decreases |turns|
  {
    if turns != [] {
      StaysRestarted(c, s, turns[1..]);
    }
  }

  /** A request to connect lifts the suppression, and the task acts on it: once it has
      handled what was queued, the start has made its attempts. So it is with the
      driver's own start. */
  lemma RequestIsServed(c: Config, s: State, e: Event, turns: seq<Turn>)
    requires !s.restarted && (e == Event.Connect || e == Report(StaStarted)) && |turns| == |s.queue| + 1
    ensures var u := Step(c, s, e);
      && (e == Event.Connect ==> !u.link.suppressed)
      && (Drained(c, u, turns).restarted
          || Drained(c, u, turns).connects >= s.connects + turns[|s.queue|].onStart.Tries())
  {
    StartIsServed(c, Step(c, s, e), |s.queue|, turns);
  }

  /** By name: the suppression is lifted, and a connect call is made exactly for a
      saved network that is not the one connected to. */
  lemma ConnectToCallsIff(c: Config, s: State, known: bool, alreadyThere: bool)
    requires !s.restarted
    ensures var t := Step(c, s, ConnectTo(known, alreadyThere));
      && !t.link.suppressed && s.connects <= t.connects <= s.connects + 1
      && (t.connects > s.connects <==> known && !(s.link.wifi == Connected && alreadyThere))
      && (t.connects > s.connects ==> t.link.wifi == Connecting)
  {
  }

  /** From the driver's reports of an association and an address to CONNECTED. */
  lemma JoinEndsConnected(c: Config, s: State, name: string, turns: seq<Turn>)
    requires !s.restarted && s.queue == [] && |turns| == 2
    ensures var t := Drained(c, Step(c, Step(c, s, Report(Joined(name))), Report(Address)), turns);
      && t.link.wifi == Connected && t.link.ssid == Clip(name) && t.link.connectedBit && !t.link.connecting
      && !t.retry.pending && t.queue == [] && t.connects == s.connects && t.lost == s.lost
  {
    var u := Step(c, Step(c, s, Report(Joined(name))), Report(Address));
    assert u.queue == [StaConnected(Clip(name)), GotIp];
    hide Drained;
    NamedThenAddressed(c, u, Clip(name), turns);
  }

  /** From the driver's report that the current network was left to a counted loss. */
  lemma LeavingIsCounted(c: Config, s: State, name: string, t: Turn)
    requires !s.restarted && s.queue == [] && name != "" && s.link.ssid == Clip(name)
    ensures Counted(c, Step(c, s, Report(Left(name))), Take(t)) <==> MayReconnect(c, s.link)
    ensures Step(c, s, Report(Left(name))).queue == [StaDisconnected(Clip(name))]
    ensures Step(c, s, Report(Left(name))).retry == s.retry
  {
  }

  /** A scan gives up an attempt that was under way, and nothing else. */
  lemma ScanFrees(c: Config, s: State)
    requires !s.restarted
    ensures var t := Step(c, s, Scan);
      !t.link.connecting && t == s.(link := s.link.(connecting := false))
  {
  }

  /** What a waiting attempt finds in the bits: the fail bit tells of a disconnect,
      whosever, that no address has followed; an address that no disconnect has
      followed shows as the connected bit. Bits of an earlier attempt never show. */
  lemma {:induction false} RoundBits(s: State, ds: seq<Driver>)
    ensures var l := Round(s, ds).link;
      && l.wifi == Connecting && Round(s, ds).connects == s.connects + 1
      && (l.failBit <==> exists i :: 0 <= i < |ds| && LeftUnanswered(ds, i))
      && ((exists i :: 0 <= i < |ds| && LastIsAddress(ds, i)) ==> l.connectedBit)
      && (Address !in ds ==> !l.connectedBit)
  {
    if ds != [] {
      var front, d := ds[..|ds| - 1], ds[|ds| - 1];
      RoundBits(s, front);
      assert ds == front + [d];
      forall i | 0 <= i < |front| ensures LeftUnanswered(ds, i) <==> LeftUnanswered(front, i) && d != Address {
      }
      forall i | 0 <= i < |front| ensures LastIsAddress(ds, i) <==> LastIsAddress(front, i) && !d.Left? {
      }
      assert LeftUnanswered(ds, |front|) <==> d.Left?;
      assert LastIsAddress(ds, |front|) <==> d == Address;
      BitsStep(Round(s, front), d);
    }
  }

  lemma BitsStep(s: State, d: Driver)
    ensures var l, n := s.link, Reported(s, d).link;
      && n.wifi == l.wifi && Reported(s, d).connects == s.connects
      && (n.failBit <==> d.Left? || (l.failBit && d != Address))
      && (d == Address || (l.connectedBit && !d.Left?) ==> n.connectedBit)
      && (n.connectedBit ==> l.connectedBit || d == Address)
  {
  }

  predicate LeftUnanswered(ds: seq<Driver>, i: nat)
    requires i < |ds|
  {
    ds[i].Left? && forall j :: i < j < |ds| ==> ds[j] != Address
  }

  predicate LastIsAddress(ds: seq<Driver>, i: nat)
    requires i < |ds|
  {
    ds[i] == Address && forall j :: i < j < |ds| ==> !ds[j].Left?
  }

  /** No connect sequence of this turn is broken off by a shutdown. */
  predicate RunsOut(e: Event) {
    e.Take? ==> e.t.onStart.ending != Interrupted && e.t.onDue.ending != Interrupted
  }

  lemma RunsOutStep(c: Config, s: State, e: Event)
    requires !s.link.connecting && RunsOut(e)
    ensures !Step(c, s, e).link.connecting
  {
    if e.Take? && !s.restarted {
      hide Sequenced, DelayTicks, IsCurrent, RestartsNow, Scheduled;
      SequenceLets(s.(queue := if s.queue == [] then [] else s.queue[1..]), e.t.onStart);
      var u := if s.queue == [] then s else Handled(c, s.(queue := s.queue[1..]), s.queue[0], e.t);
      SequenceLets(u.(retry := u.retry.(pending := false)), e.t.onDue);
    }
  }

  lemma SequenceLets(s: State, q: Sequence)
    ensures q.ending != Interrupted && q.saved ==> !Sequenced(s, q).link.connecting
    ensures q.ending == GaveUp && q.saved ==> Sequenced(s, q).link.wifi == Disconnected
    ensures !q.saved ==> Sequenced(s, q).link == s.link
  {
  }

  /** `connecting` never stays set: whenever the task is between messages, a loss of
      the current network is counted unless reconnecting is off or suppressed. */
  lemma {:induction false} NeverStuckConnecting(c: Config, events: seq<Event>)
    requires forall e :: e in events ==> RunsOut(e)
    ensures !Run(c, Boot, events).link.connecting
  {
    hide Step, RunsOut;
    if events != [] {
      assert events[|events| - 1] in events;
      NeverStuckConnecting(c, events[..|events| - 1]);
      RunsOutStep(c, Run(c, Boot, events[..|events| - 1]), events[|events| - 1]);
    }
  }

  // ------------------------------------------------------------ the methods

  class Manager {
    const config: Config
    var wifi: WifiState
    var ssid: string
    var connectedBit: bool
    var failBit: bool
    var connecting: bool
    var suppressed: bool
    var pending: bool
    var due: uint32
    var retryCount: nat
    var attempts: nat
    var queue: seq<Msg>
    var connects: nat
    var lost: nat
    var restarted: bool
    ghost var history: seq<Event>

    ghost function LinkView(): Link
      reads `wifi, `ssid, `connectedBit, `failBit, `connecting, `suppressed
    {
      Link(wifi, ssid, connectedBit, failBit, connecting, suppressed)
    }

    ghost function RetryView(): Retry
      reads `pending, `due, `retryCount, `attempts
    {
      Retry(pending, due, retryCount, attempts)
    }

    ghost function View(): State
      reads `wifi, `ssid, `connectedBit, `failBit, `connecting, `suppressed, `pending, `due, `retryCount,
        `attempts, `queue, `connects, `lost, `restarted
    {
      State(LinkView(), RetryView(), queue, connects, lost, restarted)
    }

    /** The fields are what the events so far lead to. */
    ghost predicate Valid()
      reads this
    {
      View() == Run(config, Boot, history)
    }

    constructor (config: Config)
      ensures Valid() && history == [] && this.config == config
    {
      this.config := config;
      wifi, ssid, connectedBit, failBit := Disconnected, "", false, false;
      connecting, suppressed, pending, due := false, false, false, 0;
      retryCount, attempts, queue, connects, lost, restarted := 0, 0, [], 0, 0, false;
      history := [];
    }

    ghost method Record(e: Event)
      requires Valid()
      modifies `history
      ensures history == old(history) + [e] && Run(config, Boot, history) == Step(config, View(), e)
    {
      RunSnoc(config, history, e);
      history := history + [e];
    }

    method OnDriverEvent(d: Driver)
      requires Valid() && !restarted
      modifies this
      ensures Valid() && history == old(history) + [Report(d)]
    {
      Record(Report(d));
      hide Run, Reported;
      Handle(d);
    }

    /** The driver's event handlers: bits at once, the rest through the queue. */
    method Handle(d: Driver)
      modifies `connectedBit, `failBit, `queue
      ensures View() == Reported(old(View()), d)
    {
      match d {
        case StaStarted =>
          queue := queue + [Start];
        case Joined(name) =>
          queue := queue + [StaConnected(Clip(name))];
        case Left(name) =>
          var isCurrent := if ssid != "" then ssid == name else !connectedBit;
          failBit := true;
          if isCurrent {
            connectedBit := false;
          }
          queue := queue + [StaDisconnected(Clip(name))];
        case Address =>
          connectedBit, failBit := true, false;
          queue := queue + [GotIp];
        case OtherReport =>
          queue := queue + [OtherMsg];
      }
    }

    method OneRound(ds: seq<Driver>)
      modifies `wifi, `connects, `connectedBit, `failBit, `queue
      ensures View() == Round(old(View()), ds)
    {
      hide Reported;
      wifi := Connecting;
      connectedBit, failBit := false, false;
      connects := connects + 1;
      ghost var s := View();
      var i := 0;
      assert ds[..0] == [];
      while i < |ds|
        invariant 0 <= i <= |ds| && View() == ReportedAll(s, ds[..i])
      {
        assert ds[..i + 1][..i] == ds[..i];
        Handle(ds[i]);
        i := i + 1;
      }
      assert ds[..i] == ds;
    }

    method AllRounds(rounds: seq<seq<Driver>>)
      modifies `wifi, `connects, `connectedBit, `failBit, `queue
      ensures View() == Rounds(old(View()), rounds)
    {
      hide Round;
      ghost var s := View();
      var i := 0;
      assert rounds[..0] == [];
      while i < |rounds|
        invariant 0 <= i <= |rounds| && View() == Rounds(s, rounds[..i])
      {
        assert rounds[..i + 1][..i] == rounds[..i];
        OneRound(rounds[i]);
        i := i + 1;
      }
      assert rounds[..i] == rounds;
    }

    /** Attempts are made while the driver keeps reporting; see ConnectSequence for
        which networks they go to. */
    method StartConnectSequence(q: Sequence)
      modifies `pending, `connecting, `wifi, `connects, `connectedBit, `failBit, `queue, `retryCount
      ensures View() == Sequenced(old(View()), q)
    {
      hide Rounds, Ended;
      pending := false;
      if !q.saved {
        return;
      }
      connecting, wifi := true, Connecting;
      AllRounds(q.rounds);
      EndSequence(q.ending);
    }

    method EndSequence(ending: Ending)
      modifies `connecting, `wifi, `retryCount
      ensures View() == Ended(old(View()), ending)
    {
      match ending {
        case Success =>
          connecting := false;
          retryCount := 0;
        case GaveUp =>
          connecting := false;
          wifi := Disconnected;
        case Interrupted =>
      }
    }

    method HandleConnected(name: string)
      modifies `pending, `retryCount, `connecting, `ssid
      ensures View() == OnConnected(old(View()), name)
    {
      pending := false;
      retryCount := 0;
      connecting := false;
      ssid := Clip(name);
    }

    method HandleGotIp()
      modifies `pending, `wifi, `connectedBit, `failBit, `attempts
      ensures View() == OnGotIp(old(View()))
    {
      pending := false;
      wifi := Connected;
      connectedBit, failBit := true, false;
      attempts := 0;
    }

    /** Takes over a disconnect of the current connection. */
    method CountLoss()
      modifies `wifi, `ssid, `connectedBit, `failBit, `lost
      ensures LinkView() == Lost(old(LinkView())) && lost == old(lost) + 1
    {
      wifi, ssid := Disconnected, "";
      connectedBit, failBit := false, true;
      lost := lost + 1;
    }

    /** Counts the disconnect, then restarts or arms the reconnect. */
    method ScheduleReconnect(now: uint32, delay: uint32)
      modifies `attempts, `restarted, `retryCount, `due, `pending
      ensures RestartsNow(config, old(attempts)) ==>
        restarted && RetryView() == old(RetryView()).(attempts := Bumped(old(attempts)))
      ensures !RestartsNow(config, old(attempts)) ==>
        restarted == old(restarted) && RetryView() == Scheduled(config, old(RetryView()), now, delay)
    {
      attempts := (attempts + 1) % 0x1_0000;
      if config.maxAttempts > 0 && attempts >= config.maxAttempts {
        if config.onExhausted == Restart {
          restarted := true;
          return;
        }
        attempts := 0;
      }
      retryCount := retryCount + 1;
      due := B.DueTick(now, delay);
      pending := true;
    }

    method HandleDisconnected(name: string, now: uint32, delay: uint32)
      modifies `wifi, `ssid, `connectedBit, `failBit, `lost, `attempts, `restarted, `retryCount, `due, `pending
      ensures View() == OnDisconnected(config, old(View()), name, now, delay)
    {
      hide Scheduled, RestartsNow, Bumped;
      var isCurrent := if ssid != "" then ssid == name else !connectedBit;
      if isCurrent {
        CountLoss();
        if config.autoReconnect && !suppressed && !connecting {
          ScheduleReconnect(now, delay);
        }
      }
    }

    method HandleMessage(m: Msg, t: Turn)
      modifies `wifi, `ssid, `connectedBit, `failBit, `connecting, `suppressed, `pending, `due, `retryCount,
        `attempts, `queue, `connects, `lost, `restarted
      ensures View() == Handled(config, old(View()), m, t)
    {
      match m {
        case Start =>
          if t.onStart.saved {
            StartConnectSequence(t.onStart);
          }
        case StaConnected(name) => HandleConnected(name);
        case StaDisconnected(name) => HandleDisconnected(name, t.now, DelayTicks(config, retryCount, t));
        case GotIp => HandleGotIp();
        case OtherMsg =>
      }
    }

    /** The deadline is checked after every message and every timeout. */
    method CheckDeadline(t: Turn)
      modifies `wifi, `ssid, `connectedBit, `failBit, `connecting, `suppressed, `pending, `due, `retryCount,
        `attempts, `queue, `connects, `lost, `restarted
      ensures View() == DueChecked(config, old(View()), t)
    {
      if restarted {
        return;
      }
      if pending && B.IsDue(t.now, due) {
        pending := false;
        if config.autoReconnect && !suppressed {
          StartConnectSequence(t.onDue);
        }
      }
    }

    /** One iteration of the task's loop. */
    method Iterate(t: Turn)
      requires Valid() && !restarted
      modifies this
      ensures Valid() && history == old(history) + [Take(t)]
    {
      hide Run, Handled, DueChecked;
      Record(Take(t));
      if queue != [] {
        var m := queue[0];
        queue := queue[1..];
        HandleMessage(m, t);
      }
      CheckDeadline(t);
    }

    /** Asking to connect lifts the suppression; without a name the task is told. */
    method Connect()
      requires Valid() && !restarted
      modifies this
      ensures Valid() && history == old(history) + [Event.Connect]
    {
      Record(Event.Connect);
      hide Run;
      suppressed := false;
      queue := queue + [Start];
    }

    method ConnectTo(known: bool, alreadyThere: bool)
      requires Valid() && !restarted
      modifies this
      ensures Valid() && history == old(history) + [Event.ConnectTo(known, alreadyThere)]
    {
      Record(Event.ConnectTo(known, alreadyThere));
      hide Run;
      suppressed := false;
      if wifi == Connected {
        if alreadyThere {
          return;
        }
      }
      if !known {
        return;
      }
      wifi := Connecting;
      connects := connects + 1;
    }

    method Scan()
      requires Valid() && !restarted
      modifies this
      ensures Valid() && history == old(history) + [Event.Scan]
    {
      Record(Event.Scan);
      hide Run;
      if connecting || wifi == Connecting {
        connecting := false;
      }
    }

    method Disconnect()
      requires Valid() && !restarted
      modifies this
      ensures Valid() && history == old(history) + [Event.Disconnect]
    {
      DisconnectOnly(config, View());
      hide Run, Step;
      Record(Event.Disconnect);
      suppressed := true;
      connecting := false;
    }
  }
}
