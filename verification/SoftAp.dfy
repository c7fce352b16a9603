/** The SoftAP flag, the driver's mode and the re-assertion of an access point that
    something else took down (src/esp_wifi_config_ap.c, src/esp_wifi_config.c).
    Each API call and each message is one step; the queue keeps order and drops
    nothing. */
module SoftAp {
  import opened Common

  const REASSERT_MAX: nat := 3

  datatype Mode = Null | Sta | Ap | ApSta

  predicate ApOn(m: Mode) {
    m == Ap || m == ApSta
  }

  /** Messages of the manager's queue; the others do not touch this state. */
  datatype Msg = ApStarted | ApStopped | OtherMsg

  /** `ble`: the network-provisioning BLE interface is compiled in. */
  datatype Config = Config(enableAp: bool, ble: bool)

  datatype State = State(
    active: bool,          // the library's flag
    mode: Mode,            // the driver's real mode
    provisioning: bool,
    bleActive: bool,
    reasserts: nat,
    queue: seq<Msg>)

  const Boot: State := State(false, Sta, false, false, 0, [])

  /** What the foreign side does inside a call: whether applying the AP settings
      bounces the interface, whether the mode can be read, whether BLE starts, and
      whether its manager then forces station mode. */
  datatype Foreign = Foreign(bounces: bool, modeKnown: bool, bleStarts: bool, forcesSta: bool)

  datatype Event =
    | StartAp(f: Foreign)
    | StopAp
    | SetApConfig(f: Foreign)
    | ForceMode(m: Mode)            // something outside this library sets the mode
    | StartProvisioning(f: Foreign)
    | StopProvisioning
    | Post                          // a message of another kind is queued
    | Take(f: Foreign)              // the task handles the oldest message

  // -------------------------------------------------------------- functions

  /** Setting the mode queues an event exactly when the AP goes up or down. */
  function ModeSet(s: State, m: Mode): State {
    s.(mode := m,
       queue := s.queue + if ApOn(m) == ApOn(s.mode) then [] else if ApOn(m) then [ApStarted] else [ApStopped])
  }

  function ApStartedUp(s: State, f: Foreign): State {
    var t := s.(active := true);
    var u := if t.mode != ApSta then ModeSet(t, ApSta) else t;
    if f.bounces then u.(queue := u.queue + [ApStopped, ApStarted]) else u
  }

  function ApShutDown(s: State): State {
    ModeSet(s.(active := false), Sta)
  }

  function Reasserted(c: Config, s: State, f: Foreign): State {
    if !c.enableAp || !s.provisioning then s
    else if !f.modeKnown || ApOn(s.mode) then s
    else if s.reasserts >= REASSERT_MAX then s
    else ApStartedUp(s.(reasserts := s.reasserts + 1), f)
  }

  function ProvisioningStarted(c: Config, s: State, f: Foreign): State {
    if s.provisioning then s
    else
      var t := s.(reasserts := 0);
      var u := if c.enableAp && !t.active then ApStartedUp(t, f) else t;
      var v :=
        if c.ble && !u.bleActive && f.bleStarts then
          var w := u.(bleActive := true);
          Reasserted(c, if f.forcesSta then ModeSet(w, Sta) else w, f)
        else u;
      v.(provisioning := true)
  }

  function ProvisioningStopped(s: State): State {
    if !s.provisioning then s
    else
      var t := if s.active then ApShutDown(s) else s;
      t.(bleActive := false, provisioning := false)
  }

  function Handled(c: Config, s: State, m: Msg, f: Foreign): State {
    match m
    case ApStarted => s.(active := true)
    case ApStopped =>
      var t := s.(active := false);
      if s.active then Reasserted(c, t, f) else t
    case OtherMsg => s
  }

  function Step(c: Config, s: State, e: Event): State {
    match e
    case StartAp(f) => ApStartedUp(s, f)
    case StopAp => ApShutDown(s)
    case SetApConfig(f) => if s.active then ApStartedUp(s, f) else s
    case ForceMode(m) => ModeSet(s, m)
    case StartProvisioning(f) => ProvisioningStarted(c, s, f)
    case StopProvisioning => ProvisioningStopped(s)
    case Post => s.(queue := s.queue + [OtherMsg])
    case Take(f) =>
      if s.queue == [] then s else Handled(c, s.(queue := s.queue[1..]), s.queue[0], f)
  }

  function Run(c: Config, events: seq<Event>): State {
    if events == [] then Boot
    else Step(c, Run(c, events[..|events| - 1]), events[|events| - 1])
  }

  lemma RunSnoc(c: Config, events: seq<Event>, e: Event)
    ensures Run(c, events + [e]) == Step(c, Run(c, events), e)
  {
    assert (events + [e])[..|events|] == events;
  }

  // --------------------------------------------------------- flag coherence

  /** The last AP message in the queue: Some(true) for started, Some(false) for stopped. */
  function LastAp(queue: seq<Msg>): Option<bool> {
    if queue == [] then None
    else
      match queue[|queue| - 1]
      case ApStarted => Some(true)
      case ApStopped => Some(false)
      case OtherMsg => LastAp(queue[..|queue| - 1])
  }

  /** If AP messages are queued the last one tells the driver's state; if none are,
      the flag does. */
  predicate Coherent(s: State) {
    match LastAp(s.queue)
    case Some(on) => on == ApOn(s.mode)
    case None => s.active == ApOn(s.mode)
  }

  lemma LastApSnoc(queue: seq<Msg>, m: Msg)
    ensures LastAp(queue + [m]) ==
      match m { case ApStarted => Some(true) case ApStopped => Some(false) case OtherMsg => LastAp(queue) }
  {
    assert (queue + [m])[..|queue|] == queue;
  }

  lemma LastApOne(m: Msg)
    ensures LastAp([m]) == if m == OtherMsg then None else Some(m == ApStarted)
  {
    assert [m][..0] == [];
  }

  lemma {:induction false} LastApRest(queue: seq<Msg>)
    requires queue != []
    ensures LastAp(queue[1..]).Some? ==> LastAp(queue) == LastAp(queue[1..])
    ensures LastAp(queue[1..]).None? ==> LastAp(queue) == LastAp([queue[0]])
  {
    if |queue| > 1 {
      var front := queue[..|queue| - 1];
      LastApRest(front);
      assert front[1..] == queue[1..][..|queue| - 2];
    } else {
      assert queue == [queue[0]];
    }
  }

  lemma StartApCoherent(s: State, f: Foreign)
    requires Coherent(s) || !ApOn(s.mode)
    ensures Coherent(ApStartedUp(s, f)) && ApOn(ApStartedUp(s, f).mode)
  {
    var t := s.(active := true);
    var u := if t.mode != ApSta then ModeSet(t, ApSta) else t;
    LastApSnoc(s.queue, ApStarted);
    assert s.queue + [] == s.queue;
    LastApSnoc(u.queue, ApStopped);
    LastApSnoc(u.queue + [ApStopped], ApStarted);
    assert u.queue + [ApStopped, ApStarted] == u.queue + [ApStopped] + [ApStarted];
  }

  lemma StopApCoherent(s: State)
    requires Coherent(s)
    ensures Coherent(ApShutDown(s))
  {
    LastApSnoc(s.queue, ApStopped);
    assert s.queue + [] == s.queue;
  }

  lemma ForceCoherent(s: State, m: Mode)
    requires Coherent(s)
    ensures Coherent(ModeSet(s, m))
  {
    LastApSnoc(s.queue, ApStarted);
    LastApSnoc(s.queue, ApStopped);
    assert s.queue + [] == s.queue;
  }

  lemma ReassertCoherent(c: Config, s: State, f: Foreign)
    requires Coherent(s)
    ensures Coherent(Reasserted(c, s, f))
  {
    if !ApOn(s.mode) {
      StartApCoherent(s.(reasserts := s.reasserts + 1), f);
    }
  }

  lemma TakeCoherent(c: Config, s: State, f: Foreign)
    requires Coherent(s)
    ensures Coherent(Step(c, s, Take(f)))
  {
    hide ApStartedUp;
    if s.queue != [] {
      LastApRest(s.queue);
      var t := s.(queue := s.queue[1..], active := false);
      if s.queue[0] == ApStopped {
        ReassertCoherent(c, t, f);
      }
    }
  }

  lemma StepCoherent(c: Config, s: State, e: Event)
    requires Coherent(s)
    ensures Coherent(Step(c, s, e))
  {
    hide ApStartedUp;
    hide ApShutDown;
    hide ModeSet;
    hide Reasserted;
    hide Handled;
    hide Coherent;
    match e
    case StartAp(f) => StartApCoherent(s, f);
    case StopAp => StopApCoherent(s);
    case SetApConfig(f) => StartApCoherent(s, f);
    case ForceMode(m) => ForceCoherent(s, m);
    case StartProvisioning(f) => StartProvisioningCoherent(c, s, f);
    case StopProvisioning => StopProvisioningCoherent(s);
    case Post => PostCoherent(s);
    case Take(f) => TakeCoherent(c, s, f);
  }

  /** Coherence looks at three fields only. */
  lemma SameFields(s: State, t: State)
    requires Coherent(s) && t.queue == s.queue && t.mode == s.mode && t.active == s.active
    ensures Coherent(t)
  {
  }

  lemma PostCoherent(s: State)
    requires Coherent(s)
    ensures Coherent(s.(queue := s.queue + [OtherMsg]))
  {
    LastApSnoc(s.queue, OtherMsg);
  }

  lemma StopProvisioningCoherent(s: State)
    requires Coherent(s)
    ensures Coherent(ProvisioningStopped(s))
  {
    hide Coherent;
    hide ApShutDown;
    if s.provisioning {
      StopApCoherent(s);
      var t := if s.active then ApShutDown(s) else s;
      SameFields(t, t.(bleActive := false, provisioning := false));
    }
  }

  lemma StartProvisioningCoherent(c: Config, s: State, f: Foreign)
    requires Coherent(s)
    ensures Coherent(ProvisioningStarted(c, s, f))
  {
    hide Coherent;
    hide ApStartedUp;
    hide ModeSet;
    hide Reasserted;
    if !s.provisioning {
      var t := s.(reasserts := 0);
      SameFields(s, t);
      StartApCoherent(t, f);
      var u := if c.enableAp && !t.active then ApStartedUp(t, f) else t;
      var w := u.(bleActive := true);
      SameFields(u, w);
      ForceCoherent(w, Sta);
      var x := if f.forcesSta then ModeSet(w, Sta) else w;
      ReassertCoherent(c, x, f);
      var v := if c.ble && !u.bleActive && f.bleStarts then Reasserted(c, x, f) else u;
      SameFields(v, v.(provisioning := true));
    }
  }

  /** In every reachable state, under any interleaving of calls, mode changes from
      outside, and messages. */
  lemma {:induction false} AlwaysCoherent(c: Config, events: seq<Event>)
    ensures Coherent(Run(c, events))
  {
    hide Step;
    hide Coherent;
    if events == [] {
      BootCoherent();
    } else {
      AlwaysCoherent(c, events[..|events| - 1]);
      StepCoherent(c, Run(c, events[..|events| - 1]), events[|events| - 1]);
    }
  }

  lemma BootCoherent()
    ensures Coherent(Boot)
  {
  }

  /** With an empty queue the flag is the truth. */
  lemma QuiescentFlagIsTrue(c: Config, events: seq<Event>)
    requires Run(c, events).queue == []
    ensures Run(c, events).active == ApOn(Run(c, events).mode)
  {
    AlwaysCoherent(c, events);
  }

  // --------------------------------------------------- bounded re-assertion

  /** Observed from outside: handling a message put the access point up. */
  predicate PutsApUp(c: Config, s: State, e: Event) {
    e.Take? && !ApOn(s.mode) && ApOn(Step(c, s, e).mode)
  }

  /** Times the task put the AP up since provisioning last started. */
  function RestartsThisSession(c: Config, events: seq<Event>): nat {
    if events == [] then 0
    else
      var front, e := events[..|events| - 1], events[|events| - 1];
      var s := Run(c, front);
      if e.StartProvisioning? && !s.provisioning then 0
      else RestartsThisSession(c, front) + if PutsApUp(c, s, e) then 1 else 0
  }

  /** Handling a message puts the AP up only within a session, while the budget
      lasts, and charges it for exactly that. Nothing else but the start of a
      session changes the budget. */
  lemma RestartsAreCharged(c: Config, s: State, e: Event)
    ensures PutsApUp(c, s, e) ==> s.provisioning && c.enableAp && s.reasserts < REASSERT_MAX
    ensures var t := Step(c, s, e);
      if e.StartProvisioning? && !s.provisioning then t.reasserts == 0
      else t.reasserts == s.reasserts + if PutsApUp(c, s, e) then 1 else 0
  {
    match e
    case StartAp(f) =>
    case StopAp =>
    case SetApConfig(f) =>
    case ForceMode(m) =>
    case StartProvisioning(f) =>
    case StopProvisioning =>
    case Post =>
    case Take(f) =>
  }

  /** At most three per session, in every run, and none outside a session. */
  lemma {:induction false} RestartsBounded(c: Config, events: seq<Event>)
    ensures Run(c, events).reasserts == RestartsThisSession(c, events) <= 3
  {
    hide Step;
    if events != [] {
      var front, e := events[..|events| - 1], events[|events| - 1];
      RestartsBounded(c, front);
      RestartsAreCharged(c, Run(c, front), e);
    }
  }

  /** The call to re-assert inside the start of provisioning never does anything:
      it is made before the session counts as active. */
  lemma ReassertAtStartIsIdle(c: Config, s: State, f: Foreign)
    requires !s.provisioning && c.enableAp && c.ble && !s.bleActive && f.bleStarts && f.forcesSta
    ensures !ApOn(ProvisioningStarted(c, s, f).mode)
  {
  }

  /** The station goes on working beside the AP and without it: starting the AP selects
      both, stopping it the station alone. */
  lemma StationKeepsRunning(c: Config, s: State, f: Foreign)
    ensures Step(c, s, StartAp(f)).mode == ApSta && Step(c, s, StopAp).mode == Sta
    ensures !Step(c, s, StopAp).active
  {
  }

  /** Starting the AP brings it up with its flag, and new settings do so exactly for an
      AP whose flag is set. */
  lemma StartBringsUp(c: Config, s: State, f: Foreign)
    ensures Step(c, s, StartAp(f)).active && ApOn(Step(c, s, StartAp(f)).mode)
    ensures s.active ==> ApOn(Step(c, s, SetApConfig(f)).mode) && Step(c, s, SetApConfig(f)).active
    ensures !s.active ==> Step(c, s, SetApConfig(f)) == s
  {
  }

  // ------------------------------------------------- what the queue leads to

  /** The task handles one message for each element of `fs`; what is queued
      meanwhile waits behind. */
  function Drained(c: Config, s: State, fs: seq<Foreign>): State
    decreases |fs|
  {
    if fs == [] then s else Drained(c, Step(c, s, Take(fs[0])), fs[1..])
  }

  predicate Readable(fs: seq<Foreign>) {
    forall k :: 0 <= k < |fs| ==> fs[k].modeKnown
  }

  /** Some AP_STOPPED is met while the flag is set, and the mode can be read then. */
  predicate Revives(active: bool, queue: seq<Msg>, fs: seq<Foreign>)
    decreases |queue|
  {
    queue != [] && fs != [] &&
    match queue[0]
    case ApStarted => Revives(true, queue[1..], fs[1..])
    case ApStopped => (active && fs[0].modeKnown) || Revives(false, queue[1..], fs[1..])
    case OtherMsg => Revives(active, queue[1..], fs[1..])
  }

  /** The AP is to be brought back if it is found down. */
  predicate InBudget(c: Config, s: State) {
    c.enableAp && s.provisioning && s.reasserts < REASSERT_MAX
  }

  /** One message: the AP stays on if it was, and goes on exactly by an AP_STOPPED
      that finds the flag set. */
  lemma TakeOutcome(c: Config, s: State, f: Foreign)
    requires s.queue != []
    ensures var t := Step(c, s, Take(f));
      var up := !ApOn(s.mode) && InBudget(c, s) && s.queue[0] == ApStopped && s.active && f.modeKnown;
      && (ApOn(t.mode) <==> ApOn(s.mode) || up)
      && s.queue[1..] <= t.queue
      && (!up ==> InBudget(c, t) == InBudget(c, s))
      && (!up ==> t.active == if s.queue[0] == OtherMsg then s.active else s.queue[0] == ApStarted)
  {
  }

  /** Where handling the queued messages leads, from every state: the access point
      ends up on if and only if it is on already, or one of them revives it. */
  lemma {:induction false} DrainOutcome(c: Config, s: State, fs: seq<Foreign>)
    requires |fs| <= |s.queue|
    ensures ApOn(Drained(c, s, fs).mode) <==>
      ApOn(s.mode) || (InBudget(c, s) && Revives(s.active, s.queue[..|fs|], fs))
    decreases |fs|
  {
    if fs != [] {
      TakeOutcome(c, s, fs[0]);
      hide Step, InBudget;
      var t := Step(c, s, Take(fs[0]));
      DrainOutcome(c, t, fs[1..]);
      assert t.queue[..|fs| - 1] == s.queue[1..|fs|] == s.queue[..|fs|][1..];
    }
  }

  /** With the last AP message not a start, an AP_STOPPED is met while the flag is set
      if and only if the flag is set to begin with, or by a start before it. */
  lemma {:induction false} RevivesIff(active: bool, queue: seq<Msg>, fs: seq<Foreign>)
    requires |fs| == |queue| && Readable(fs) && (LastAp(queue).Some? ==> !LastAp(queue).value)
    ensures Revives(active, queue, fs) <==> ApStarted in queue || (active && LastAp(queue).Some?)
    decreases |queue|
  {
    if queue != [] {
      var rest := queue[1..];
      LastApRest(queue);
      LastApOne(queue[0]);
      assert ApStarted in queue <==> queue[0] == ApStarted || ApStarted in rest;
      match queue[0]
      case ApStarted => RevivesIff(true, rest, fs[1..]);
      case ApStopped => RevivesIff(false, rest, fs[1..]);
      case OtherMsg => RevivesIff(active, rest, fs[1..]);
    }
  }

  /** With the access point off, handling the queue brings it back if and only if the
      session has budget left and the flag is set or about to be: every teardown
      counts as foreign unless the library's own flag says otherwise in time. */
  lemma ComesBackIff(c: Config, s: State, fs: seq<Foreign>)
    requires Coherent(s) && !ApOn(s.mode) && |fs| == |s.queue| && Readable(fs)
    ensures ApOn(Drained(c, s, fs).mode) <==> InBudget(c, s) && (s.active || ApStarted in s.queue)
  {
    DrainOutcome(c, s, fs);
    RevivesIff(s.active, s.queue, fs);
    assert s.queue[..|fs|] == s.queue;
  }

  lemma {:induction false} LastIsQueued(queue: seq<Msg>)
    requires LastAp(queue) == Some(true)
    ensures ApStarted in queue
  {
    if queue[|queue| - 1] == OtherMsg {
      LastIsQueued(queue[..|queue| - 1]);
    }
  }

  /** Whatever is queued, an access point taken down from outside is up again once
      the task has got to the message about it. */
  lemma ForcedDownComesBack(c: Config, s: State, m: Mode, fs: seq<Foreign>)
    requires Coherent(s) && InBudget(c, s) && ApOn(s.mode) && !ApOn(m)
    requires |fs| == |s.queue| + 1 && Readable(fs)
    ensures ApOn(Drained(c, Step(c, s, ForceMode(m)), fs).mode)
  {
    if LastAp(s.queue) == Some(true) {
      LastIsQueued(s.queue);
    }
    ForceCoherent(s, m);
    ComesBackIff(c, Step(c, s, ForceMode(m)), fs);
  }

  /** When the library's own stop is undone, exactly: in a session with budget left,
      with an AP_STARTED still queued at the time of the stop. */
  lemma StopUndoneIff(c: Config, s: State, fs: seq<Foreign>)
    requires Coherent(s) && Readable(fs) && |fs| == |Step(c, s, StopAp).queue|
    ensures ApOn(Drained(c, Step(c, s, StopAp), fs).mode) <==> InBudget(c, s) && ApStarted in s.queue
  {
    StopApCoherent(s);
    ComesBackIff(c, Step(c, s, StopAp), fs);
  }

  lemma StartQueues(c: Config, s: State, f: Foreign)
    requires !s.provisioning && c.enableAp
    ensures var t := Step(c, s, StartProvisioning(f));
      && InBudget(c, t)
      && (ApStarted in t.queue <==> ApStarted in s.queue || (!s.active && (!ApOn(s.mode) || f.bounces)))
  {
    assert ApStarted in [ApStarted] && ApStarted in [ApStopped, ApStarted] && ApStarted !in [ApStopped];
  }

  /** A stop right after the start of provisioning is undone if and only if the start
      brought the AP up, or bounced it, or found an AP_STARTED still queued. */
  lemma {:induction false} QuickStopUndoneIff(c: Config, s: State, f: Foreign, fs: seq<Foreign>)
    requires Coherent(s) && !s.provisioning && c.enableAp && Readable(fs)
    requires |fs| == |Step(c, Step(c, s, StartProvisioning(f)), StopAp).queue|
    ensures ApOn(Drained(c, Step(c, Step(c, s, StartProvisioning(f)), StopAp), fs).mode) <==>
      ApStarted in s.queue || (!s.active && (!ApOn(s.mode) || f.bounces))
  {
    StartQueues(c, s, f);
    StartProvisioningCoherent(c, s, f);
    hide Step, InBudget, Coherent;
    StepIsStart(c, s, f);
    StopUndoneIff(c, Step(c, s, StartProvisioning(f)), fs);
  }

  lemma StepIsStart(c: Config, s: State, f: Foreign)
    ensures Step(c, s, StartProvisioning(f)) == ProvisioningStarted(c, s, f)
  {
  }

  /** So it is after the first start of all, however that goes. */
  lemma {:induction false} QuickStopIsUndone(c: Config, f: Foreign, fs: seq<Foreign>)
    requires c.enableAp && Readable(fs) && |fs| == |Run(c, [StartProvisioning(f), StopAp]).queue|
    ensures ApOn(Drained(c, Run(c, [StartProvisioning(f), StopAp]), fs).mode)
  {
    RunSnoc(c, [], StartProvisioning(f));
    RunSnoc(c, [] + [StartProvisioning(f)], StopAp);
    assert [] + [StartProvisioning(f)] + [StopAp] == [StartProvisioning(f), StopAp];
    BootCoherent();
    QuickStopUndoneIff(c, Boot, f, fs);
  }

  /** However the session starts, in every reachable state and whatever its BLE
      manager does to the mode: once the task has handled the messages then queued,
      the access point is up. */
  lemma ApComesBack(c: Config, s: State, f: Foreign, fs: seq<Foreign>)
    requires Coherent(s) && !s.provisioning && c.enableAp && Readable(fs)
    requires |fs| == |Step(c, s, StartProvisioning(f)).queue|
    ensures ApOn(Drained(c, Step(c, s, StartProvisioning(f)), fs).mode)
  {
    StartProvisioningCoherent(c, s, f);
    var t := Step(c, s, StartProvisioning(f));
    if ApOn(t.mode) {
      DrainOutcome(c, t, fs);
    } else {
      ComesBackIff(c, t, fs);
    }
  }

  // --------------------------------------------------- the end of a session

  function After(c: Config, s: State, events: seq<Event>): State {
    if events == [] then s else Step(c, After(c, s, events[..|events| - 1]), events[|events| - 1])
  }

  /** Nobody asks for an access point. */
  predicate Undemanding(e: Event) {
    && !e.StartAp? && !e.SetApConfig? && !e.StartProvisioning?
    && (e.ForceMode? ==> !ApOn(e.m))
  }

  lemma UndemandingStep(c: Config, s: State, e: Event)
    requires !s.provisioning && Undemanding(e)
    ensures var t := Step(c, s, e);
      !t.provisioning && (ApOn(t.mode) ==> ApOn(s.mode))
  {
  }

  lemma {:induction false} UndemandingKeeps(c: Config, s: State, events: seq<Event>)
    requires !s.provisioning && forall e :: e in events ==> Undemanding(e)
    ensures !After(c, s, events).provisioning && (ApOn(After(c, s, events).mode) ==> ApOn(s.mode))
  {
    hide Step, Undemanding;
    if events != [] {
      assert events[|events| - 1] in events;
      UndemandingKeeps(c, s, events[..|events| - 1]);
      UndemandingStep(c, After(c, s, events[..|events| - 1]), events[|events| - 1]);
    }
  }

  /** What ending a session leaves: the access point is off unless it was on with the
      flag unset, which is then none of the session's. */
  lemma StopLeaves(c: Config, s: State)
    requires s.provisioning
    ensures var t := Step(c, s, StopProvisioning);
      && !t.provisioning && !t.bleActive && !InBudget(c, t)
      && (ApOn(t.mode) <==> ApOn(s.mode) && !s.active)
  {
  }

  /** Stopping provisioning takes the access point down, and it stays down: no message
      still queued and nothing else brings it back until somebody asks for it. */
  lemma StopTakesDown(c: Config, s: State, events: seq<Event>)
    requires s.provisioning && (s.active || !ApOn(s.mode))
    requires forall e :: e in events ==> Undemanding(e)
    ensures !ApOn(After(c, Step(c, s, StopProvisioning), events).mode)
  {
    StopLeaves(c, s);
    UndemandingKeeps(c, Step(c, s, StopProvisioning), events);
  }

  /** Exactly: once the queue is handled the access point is on if and only if it was
      on with the flag unset when provisioning was stopped. */
  lemma StopDrainedIff(c: Config, s: State, fs: seq<Foreign>)
    requires s.provisioning && |fs| <= |Step(c, s, StopProvisioning).queue|
    ensures ApOn(Drained(c, Step(c, s, StopProvisioning), fs).mode) <==> ApOn(s.mode) && !s.active
  {
    StopLeaves(c, s);
    DrainOutcome(c, Step(c, s, StopProvisioning), fs);
  }

  /** A reachable state with an empty queue has the flag right, so the stop is clean. */
  lemma QuietStopIsClean(c: Config, before: seq<Event>, events: seq<Event>)
    requires Run(c, before).provisioning && Run(c, before).queue == []
    requires forall e :: e in events ==> Undemanding(e)
    ensures !ApOn(After(c, Step(c, Run(c, before), StopProvisioning), events).mode)
  {
    QuiescentFlagIsTrue(c, before);
    StopTakesDown(c, Run(c, before), events);
  }

  /** The next session starts its BLE manager again. */
  lemma NextSessionStartsBle(c: Config, s: State, f: Foreign)
    requires s.provisioning && c.ble && f.bleStarts
    ensures var t := Step(c, Step(c, s, StopProvisioning), StartProvisioning(f));
      t.provisioning && t.bleActive && t.reasserts == 0 && (f.forcesSta ==> !ApOn(t.mode))
  {
    StopLeaves(c, s);
    hide ApShutDown;
    BleStarts(c, Step(c, s, StopProvisioning), f);
  }

  lemma BleStarts(c: Config, s: State, f: Foreign)
    requires !s.provisioning && !s.bleActive && c.ble && f.bleStarts
    ensures var t := Step(c, s, StartProvisioning(f));
      t.provisioning && t.bleActive && t.reasserts == 0 && (f.forcesSta ==> !ApOn(t.mode))
  {
  }

  // ------------------------------------------------------------ the methods

  class Portal {
    const config: Config
    var active: bool
    var mode: Mode
    var provisioning: bool
    var bleActive: bool
    var reasserts: nat
    var queue: seq<Msg>
    ghost var history: seq<Event>

    ghost function View(): State
      reads this
    {
      State(active, mode, provisioning, bleActive, reasserts, queue)
    }

    ghost predicate Valid()
      reads this
    {
      View() == Run(config, history)
    }

    constructor (config: Config)
      ensures Valid() && history == [] && this.config == config
    {
      this.config := config;
      active, mode, provisioning, bleActive := false, Sta, false, false;
      reasserts, queue, history := 0, [], [];
    }

    /** The driver changes mode and reports an AP that goes up or down. */
    method SetMode(m: Mode)
      modifies `mode, `queue
      ensures View() == ModeSet(old(View()), m)
    {
      if ApOn(m) && !ApOn(mode) {
        queue := queue + [ApStarted];
      } else if !ApOn(m) && ApOn(mode) {
        queue := queue + [ApStopped];
      }
      mode := m;
      assert old(queue) + [] == old(queue);
    }

    method StartAp(f: Foreign)
      modifies `active, `mode, `queue
      ensures View() == ApStartedUp(old(View()), f)
    {
      active := true;
      if mode != ApSta {
        SetMode(ApSta);
      }
      if f.bounces {
        queue := queue + [ApStopped, ApStarted];
      }
    }

    method StopAp()
      modifies `active, `mode, `queue
      ensures View() == ApShutDown(old(View()))
    {
      active := false;
      SetMode(Sta);
    }

    method Reassert(f: Foreign)
      modifies `active, `mode, `queue, `reasserts
      ensures View() == Reasserted(config, old(View()), f)
    {
      if !config.enableAp || !provisioning {
        return;
      }
      if !f.modeKnown {
        return;
      }
      if ApOn(mode) {
        return;
      }
      if reasserts >= REASSERT_MAX {
        return;
      }
      reasserts := reasserts + 1;
      StartAp(f);
    }

    method StartProvisioning(f: Foreign)
      requires Valid()
      modifies this
      ensures Valid() && history == old(history) + [Event.StartProvisioning(f)]
    {
      Recorded(Event.StartProvisioning(f));
      history := history + [Event.StartProvisioning(f)];
      if provisioning {
        return;
      }
      reasserts := 0;
      if config.enableAp && !active {
        StartAp(f);
      }
      if config.ble {
        if !bleActive {
          if f.bleStarts {
            bleActive := true;
            if f.forcesSta {
              SetMode(Sta);
            }
            Reassert(f);
          }
        }
      }
      provisioning := true;
    }

    method StopProvisioning()
      requires Valid()
      modifies this
      ensures Valid() && history == old(history) + [Event.StopProvisioning]
    {
      Recorded(Event.StopProvisioning);
      history := history + [Event.StopProvisioning];
      if !provisioning {
        return;
      }
      if active {
        StopAp();
      }
      bleActive := false;
      provisioning := false;
    }

    /** The task takes the oldest message off the queue and handles it. */
    method TakeMessage(f: Foreign)
      requires Valid() && queue != []
      modifies this
      ensures Valid() && history == old(history) + [Take(f)]
    {
      Recorded(Take(f));
      history := history + [Take(f)];
      var m := queue[0];
      queue := queue[1..];
      match m {
        case ApStarted =>
          active := true;
        case ApStopped =>
          var ours := !active;
          active := false;
          if !ours {
            Reassert(f);
          }
        case OtherMsg =>
      }
    }

    lemma Recorded(e: Event)
      requires Valid()
      ensures Run(config, history + [e]) == Step(config, View(), e)
    {
      RunSnoc(config, history, e);
    }

    /** The application's own calls, and mode changes from outside. */
    method Call(e: Event, f: Foreign)
      requires Valid() && (e == Event.StartAp(f) || e == Event.StopAp || e == SetApConfig(f) || e.ForceMode? || e == Post)
      modifies this
      ensures Valid() && history == old(history) + [e]
    {
      Recorded(e);
      history := history + [e];
      match e {
        case StartAp(_) => StartAp(f);
        case StopAp => StopAp();
        case SetApConfig(_) =>
          if active {
            StartAp(f);
          }
        case ForceMode(m) => SetMode(m);
        case Post => queue := queue + [OtherMsg];
      }
    }
  }
}
