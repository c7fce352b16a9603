/** The connect sequence of src/esp_wifi_config_network.c: which networks are tried,
    in which order, how often, and how it ends. */
module ConnectSequence {
  import opened Common
  import opened NetworkSort

  datatype Mode = Always | OnFailure | WhenUnprovisioned | Manual

  /** What happens around the k-th attempt of a sequence: a stop request seen before
      it, the call itself failing, the result that arrived (or the timeout), and a
      stop request during the backoff after it. */
  datatype Result = CallError | Joined | NotJoined | StopWhileWaiting
  datatype Slot = Slot(stopBefore: bool, result: Result, stopInBackoff: bool)
  type Environment = nat -> Slot

  datatype End = Idle | Stopped | Success | AllFailed

  /** Every attempt a sequence could make: each network `m` times, in order. */
  function Schedule(nets: seq<Network>, m: nat): seq<Network> {
    if nets == [] then [] else Repeat(nets[0], m) + Schedule(nets[1..], m)
  }

  function Repeat(n: Network, m: nat): (r: seq<Network>)
    ensures |r| == m && forall k :: 0 <= k < m ==> r[k] == n
  {
    seq(m, _ => n)
  }

  /** The k-th attempt goes to network k / m. */
  lemma {:induction false} ScheduleAt(nets: seq<Network>, m: nat, i: nat, j: nat)
    requires i < |nets| && j < m
    ensures i * m + j < |Schedule(nets, m)| == |nets| * m
    ensures Schedule(nets, m)[i * m + j] == nets[i]
  {
    ScheduleLength(nets, m);
    ScheduleLength(nets[1..], m);
    if i > 0 {
      ScheduleAt(nets[1..], m, i - 1, j);
      assert i * m + j == m + ((i - 1) * m + j);
    }
  }

  lemma {:induction false} ScheduleLength(nets: seq<Network>, m: nat)
    ensures |Schedule(nets, m)| == |nets| * m
  {
    if nets != [] {
      ScheduleLength(nets[1..], m);
      assert |nets| * m == m + (|nets| - 1) * m;
    }
  }

  lemma {:induction false} ScheduleConcat(a: seq<Network>, b: seq<Network>, m: nat)
    ensures Schedule(a + b, m) == Schedule(a, m) + Schedule(b, m)
  {
    if a == [] {
      assert a + b == b;
    } else {
      assert (a + b)[1..] == a[1..] + b;
      ScheduleConcat(a[1..], b, m);
      Associative(Repeat(a[0], m), Schedule(a[1..], m), Schedule(b, m));
    }
  }

  /** Attempts are numbered through the whole plan; the last of a network, every
      m-th, is followed by no backoff, and neither is a call that failed. */
  predicate HeardInBackoff(env: Environment, k: nat, m: nat) {
    m > 0 && (k + 1) % m != 0 && env(k).result == NotJoined && env(k).stopInBackoff
  }

  /** Attempt k is made and does not end the sequence. */
  predicate GoesOn(env: Environment, k: nat, m: nat) {
    !env(k).stopBefore && env(k).result !in {Joined, StopWhileWaiting} && !HeardInBackoff(env, k, m)
  }

  /** From attempt k of a plan of `total` on: how many attempts are made in all, and
      how that ends. Neither networks nor loops appear. */
  function Outcome(env: Environment, k: nat, total: nat, m: nat): (nat, End)
    decreases total - k
  {
    if k >= total then (total, AllFailed)
    else if env(k).stopBefore then (k, Stopped)
    else if env(k).result == Joined then (k + 1, Success)
    else if env(k).result == StopWhileWaiting || HeardInBackoff(env, k, m) then (k + 1, Stopped)
    else Outcome(env, k + 1, total, m)
  }

  /** Attempt j is made, does not join, and no stop is asked for before it, during it,
      or in a backoff after it; there is none after a network's last attempt. */
  predicate MadeInVain(env: Environment, j: nat, m: nat) {
    && !env(j).stopBefore && (env(j).result == CallError || env(j).result == NotJoined)
    && (m > 0 && (j + 1) % m != 0 && env(j).result == NotJoined ==> !env(j).stopInBackoff)
  }

  /** All but the last attempt made go on; success means the last one joined;
      giving up means every attempt of the plan was made in vain, and nothing else
      gives up; a stop was asked for before the next attempt or at the last one. */
  lemma {:induction false} OutcomeMeaning(env: Environment, k: nat, total: nat, m: nat)
    requires k <= total
    ensures var (n, end) := Outcome(env, k, total, m);
      && k <= n <= total && end != Idle
      && (forall j :: k <= j < n - 1 ==> GoesOn(env, j, m))
      && (forall j :: k <= j < n ==> !env(j).stopBefore)
      && (end == Success <==> n > k && env(n - 1).result == Joined)
      && (end == AllFailed <==> forall j :: k <= j < total ==> GoesOn(env, j, m))
      && (end == AllFailed ==> n == total)
      && (end == Stopped ==>
            (n < total && env(n).stopBefore)
            || (n > k && (env(n - 1).result == StopWhileWaiting || HeardInBackoff(env, n - 1, m))))
    decreases total - k
  {
    if k < total && GoesOn(env, k, m) {
      OutcomeMeaning(env, k + 1, total, m);
    }
  }

  lemma VainGoesOn(env: Environment, j: nat, m: nat)
    ensures MadeInVain(env, j, m) <==> GoesOn(env, j, m)
  {
  }

  /** In terms of what happens alone: every attempt but the last was made in vain with
      no stop asked for, so none follows one whose backoff heard a stop; and giving up
      means that of all of them. */
  lemma {:induction false} NothingAfterStop(env: Environment, total: nat, m: nat)
    ensures var (n, end) := Outcome(env, 0, total, m);
      && (forall j :: 0 <= j < n - 1 ==> MadeInVain(env, j, m))
      && (end == AllFailed <==> forall j :: 0 <= j < total ==> MadeInVain(env, j, m))
  {
    OutcomeMeaning(env, 0, total, m);
    forall j: nat ensures MadeInVain(env, j, m) <==> GoesOn(env, j, m) {
      VainGoesOn(env, j, m);
    }
    hide MadeInVain, GoesOn, HeardInBackoff, Outcome;
  }

  class Sequencer {
    const networks: array<Network>
    const mode: Mode
    const maxRetry: byte
    var count: nat
    var state: WifiState
    var connecting: bool
    var retryCount: nat
    var reconnectPending: bool
    var provisioning: bool

    ghost predicate Valid()
      reads `count
    {
      count <= networks.Length
    }

    constructor (networks: array<Network>, count: nat, mode: Mode, maxRetry: byte)
      requires count <= networks.Length
      ensures Valid() && this.networks == networks && this.count == count
    {
      this.networks, this.count, this.mode, this.maxRetry := networks, count, mode, maxRetry;
      state, connecting, retryCount := Disconnected, false, 0;
      reconnectPending, provisioning := false, false;
    }

    /** Every attempt this sequencer could make on the networks as they are now. */
    ghost function Plan(): seq<Network>
      requires Valid()
      reads `count, networks
    {
      Schedule(StableSort(networks[..count]), maxRetry)
    }

    /** Run a whole sequence. `issued` lists the network of every connect call made:
        as much of the plan as Outcome says. Giving up ends, in ON_FAILURE mode,
        with provisioning active. */
    method Start(env: Environment, stopping: bool) returns (issued: seq<Network>, end: End)
      requires Valid()
      modifies this, networks
      ensures Valid() && count == old(count) && issued <= old(Plan())
      ensures stopping ==> end == Stopped && issued == [] && networks[..] == old(networks[..])
      ensures !stopping && count == 0 ==> end == Idle && issued == []
      ensures !stopping && count > 0 ==>
        (|issued|, end) == Outcome(env, 0, |old(Plan())|, maxRetry)
      ensures !stopping ==> networks[..count] == StableSort(old(networks[..count])) && !reconnectPending
      ensures end == Stopped && !stopping ==> connecting
      ensures end == Success ==> !connecting && state == Connecting && retryCount == 0
      ensures end != Success ==> retryCount == old(retryCount)
      ensures end == AllFailed ==> !connecting && state == Disconnected
      ensures provisioning == (old(provisioning)
        || (end == AllFailed && mode == OnFailure)
        || (end == Idle && (mode == OnFailure || mode == WhenUnprovisioned)))
    {
      issued, end := [], Stopped;
      if stopping {
        return;
      }
      reconnectPending := false;
      if count == 0 {
        assert networks[..count] == [];
        if mode == OnFailure || mode == WhenUnprovisioned {
          if !provisioning {
            provisioning := true;
          }
        }
        end := Idle;
        return;
      }
      connecting := true;
      SortByPriority(networks, count);
      issued, end := TryAll(env);
      if end == Success {
        connecting := false;
        retryCount := 0;
      } else if end == AllFailed {
        connecting := false;
        state := Disconnected;
        if mode == OnFailure && !provisioning {
          provisioning := true;
        }
      }
    }

    /** The outer loop: the networks in the order they now have. */
    method TryAll(env: Environment) returns (issued: seq<Network>, end: End)
      requires Valid()
      modifies `state
      ensures end == Success ==> state == Connecting
      ensures end != Idle && issued <= Schedule(networks[..count], maxRetry)
      ensures (|issued|, end) == Outcome(env, 0, |Schedule(networks[..count], maxRetry)|, maxRetry)
    {
      hide Schedule, Outcome;
      ghost var order := networks[..count];
      ghost var total := |Schedule(order, maxRetry)|;
      ScheduleLength(order, maxRetry);
      NothingScheduled(maxRetry);
      assert order[..0] == [];
      issued := [];
      for i := 0 to count
        invariant issued == Schedule(order[..i], maxRetry) && |issued| == i * maxRetry
        invariant Outcome(env, 0, total, maxRetry) == Outcome(env, |issued|, total, maxRetry)
      {
        state := Connecting;
        OneMore(order, i, maxRetry);
        ScheduleLength(order[..i + 1], maxRetry);
        SchedulePrefix(order, i + 1, maxRetry);
        var tried, result := TryNetwork(env, i, |issued|, total);
        RepeatPrefix(networks[i], tried, maxRetry);
        issued := issued + Repeat(networks[i], tried);
        if result != AllFailed {
          return issued, result;
        }
      }
      assert order[..count] == order;
      end := AllFailed;
      AllTried(env, total, maxRetry);
    }

    /** The inner loop: the attempts for network i, which start at number `first`. */
    method TryNetwork(env: Environment, i: nat, first: nat, ghost total: nat) returns (tried: nat, result: End)
      requires first == i * maxRetry && first + maxRetry <= total
      ensures tried <= maxRetry && result != Idle
      ensures result == AllFailed ==> tried == maxRetry
      ensures Outcome(env, first, total, maxRetry) ==
        if result == AllFailed then Outcome(env, first + maxRetry, total, maxRetry) else (first + tried, result)
    {
      tried := 0;
      for retry := 0 to maxRetry
        invariant tried == retry
        invariant Outcome(env, first, total, maxRetry) == Outcome(env, first + retry, total, maxRetry)
      {
        var slot := env(first + retry);
        LastOfNetwork(i, maxRetry, retry);
        if slot.stopBefore {
          return tried, Stopped;
        }
        tried := tried + 1;
        if slot.result == CallError {
          continue;
        }
        if slot.result == StopWhileWaiting {
          return tried, Stopped;
        }
        if slot.result == Joined {
          return tried, Success;
        }
        if retry < maxRetry - 1 {
          if slot.stopInBackoff {
            return tried, Stopped;
          }
        }
      }
      result := AllFailed;
    }
  }

  lemma AllTried(env: Environment, total: nat, m: nat)
    ensures Outcome(env, total, total, m) == (total, AllFailed)
  {
  }

  lemma LastOfNetwork(i: nat, m: nat, retry: nat)
    requires retry < m
    ensures (i * m + retry + 1) % m != 0 <==> retry < m - 1
  {
    var q, r := Split(i * m + retry + 1, m);
    Multiples(i, q, m);
    SmallMultiple(i - q, m, r - retry - 1);
    SmallMultiple(i - q + 1, m, r - retry - 1 + m);
  }

  lemma Split(a: nat, m: nat) returns (q: nat, r: nat)
    requires m > 0
    ensures a == q * m + r && r == a % m < m
  {
    q, r := a / m, a % m;
  }

  lemma Multiples(i: int, q: int, m: int)
    ensures i * m - q * m == (i - q) * m && (i - q + 1) * m == (i - q) * m + m
  {
  }

  lemma NothingScheduled(m: nat)
    ensures Schedule([], m) == []
  {
  }

  lemma OneMore(nets: seq<Network>, i: nat, m: nat)
    requires i < |nets|
    ensures Schedule(nets[..i + 1], m) == Schedule(nets[..i], m) + Repeat(nets[i], m)
  {
    assert nets[..i + 1] == nets[..i] + [nets[i]];
    ScheduleConcat(nets[..i], [nets[i]], m);
    assert [nets[i]][1..] == [];
    assert Repeat(nets[i], m) + [] == Repeat(nets[i], m);
  }

  lemma RepeatPrefix(n: Network, k: nat, m: nat)
    requires k <= m
    ensures Repeat(n, k) <= Repeat(n, m)
  {
  }

  lemma SchedulePrefix(nets: seq<Network>, i: nat, m: nat)
    requires i <= |nets|
    ensures Schedule(nets[..i], m) <= Schedule(nets, m)
  {
    assert nets[..i] + nets[i..] == nets;
    ScheduleConcat(nets[..i], nets[i..], m);
  }
}
