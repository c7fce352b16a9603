/** The SEND_WIFI_SETTINGS command and its deferred answer
    (src/esp_wifi_config_improv.c). */
module ImprovSettings {
  import opened Common
  import Rpc = ImprovRpc

  const SEND_WIFI_SETTINGS: byte := 1

  datatype Credentials = Credentials(ssid: seq<byte>, password: seq<byte>)

  /** The bytes of a zero-filled C array up to the first NUL. */
  function CText(s: seq<byte>): seq<byte> {
    if s == [] || s[0] == 0 then [] else [s[0]] + CText(s[1..])
  }

  /** [ssid length, ssid, password length, password], anything after it ignored.
      None is IMPROV_ERROR_INVALID_RPC. */
  function ParseSettings(data: seq<byte>): Option<Credentials> {
    if |data| < 1 then None
    else
      var ssidEnd := 1 + data[0] as int;
      if ssidEnd > |data| || ssidEnd >= |data| then None
      else
        var passEnd := ssidEnd + 1 + data[ssidEnd] as int;
        if passEnd > |data| then None
        else
          Some(Credentials(CText(Truncated(data[1..ssidEnd], 32)), CText(Truncated(data[ssidEnd + 1..passEnd], 63))))
  }

  lemma {:induction false} CTextOfText(s: seq<byte>)
    requires 0 !in s
    ensures CText(s) == s
  {
    if s != [] {
      CTextOfText(s[1..]);
      assert [s[0]] + s[1..] == s;
    }
  }

  /** What a client encodes is what is stored, whatever follows it: all of it when it
      fits the station's fields, and otherwise as much as they hold. */
  lemma SettingsReadBack(c: Credentials, extra: seq<byte>)
    requires |c.ssid| < 256 && |c.password| < 256 && 0 !in c.ssid && 0 !in c.password
    ensures ParseSettings(Rpc.Tlv(c.ssid) + Rpc.Tlv(c.password) + extra) ==
      Some(Credentials(Truncated(c.ssid, 32), Truncated(c.password, 63)))
    ensures |c.ssid| <= 32 && |c.password| <= 63 ==>
      ParseSettings(Rpc.Tlv(c.ssid) + Rpc.Tlv(c.password) + extra) == Some(c)
  {
    var data := Rpc.Tlv(c.ssid) + Rpc.Tlv(c.password) + extra;
    var ssidEnd := 1 + |c.ssid|;
    assert data[0] == |c.ssid| && data[1..ssidEnd] == c.ssid;
    assert data[ssidEnd] == |c.password|;
    assert data[ssidEnd + 1..ssidEnd + 1 + |c.password|] == c.password;
    CTextOfText(Truncated(c.ssid, 32));
    CTextOfText(Truncated(c.password, 63));
  }

  lemma AcceptedHasPrefix(data: seq<byte>) returns (a: seq<byte>, b: seq<byte>)
    requires ParseSettings(data).Some?
    ensures |a| < 256 && |b| < 256 && Rpc.Tlv(a) + Rpc.Tlv(b) <= data
  {
    hide CText, Truncated;
    var ssidEnd := 1 + data[0] as int;
    var passEnd := ssidEnd + 1 + data[ssidEnd] as int;
    a, b := data[1..ssidEnd], data[ssidEnd + 1..passEnd];
    assert Rpc.Tlv(a) + Rpc.Tlv(b) == data[..passEnd];
  }

  lemma PrefixIsAccepted(data: seq<byte>, a: seq<byte>, b: seq<byte>)
    requires |a| < 256 && |b| < 256 && Rpc.Tlv(a) + Rpc.Tlv(b) <= data
    ensures ParseSettings(data).Some?
  {
    hide CText, Truncated;
    var prefix := Rpc.Tlv(a) + Rpc.Tlv(b);
    assert prefix[0] == |a| && prefix[1 + |a|] == |b|;
    assert data[0] == prefix[0] && data[1 + |a|] == prefix[1 + |a|];
  }

  /** Refused exactly when the data is not a settings body followed by anything. */
  lemma RefusedIffMalformed(data: seq<byte>)
    ensures ParseSettings(data).Some? <==>
      exists a: seq<byte>, b: seq<byte> | |a| < 256 && |b| < 256 :: Rpc.Tlv(a) + Rpc.Tlv(b) <= data
  {
    hide ParseSettings, Rpc.Tlv;
    if ParseSettings(data).Some? {
      var a, b := AcceptedHasPrefix(data);
    }
    forall a: seq<byte>, b: seq<byte> | |a| < 256 && |b| < 256 && Rpc.Tlv(a) + Rpc.Tlv(b) <= data
      ensures ParseSettings(data).Some?
    {
      PrefixIsAccepted(data, a, b);
    }
  }

  // -------------------------------------------------------- deferred answer

  datatype State = Authorized | Provisioning | Provisioned
  datatype Error = NoError | InvalidRpc | UnableToConnect

  /** Everything that moves the protocol core; `client` is where to answer. */
  datatype Event = Settings(client: nat) | GotIp | Disconnected | Started

  class Core {
    var state: State
    var error: Error
    var pending: Option<nat>       // the client awaiting an answer
    ghost var history: seq<Event>

    /** Provisioning means: the last thing that happened was a settings command,
        and its sender is the one waiting. */
    ghost predicate Valid()
      reads this
    {
      && (state == Provisioning <==> history != [] && history[|history| - 1].Settings?)
      && (state == Provisioning ==> pending == Some(history[|history| - 1].client))
    }

    constructor ()
      ensures Valid() && history == []
    {
      state, error, pending, history := Authorized, NoError, None, [];
    }

    /** A malformed command only reports; a good one is handed on and answered later. */
    method SendWifiSettings(data: seq<byte>, client: nat) returns (store: Option<Credentials>)
      requires Valid()
      modifies this
      ensures Valid() && store == ParseSettings(data)
      ensures store == None ==> error == InvalidRpc
      ensures store == None ==> state == old(state) && pending == old(pending) && history == old(history)
      ensures store.Some? ==> error == NoError && history == old(history) + [Settings(client)]
    {
      store := ParseSettings(data);
      if store == None {
        error := InvalidRpc;
        return;
      }
      error := NoError;
      state := Provisioning;
      pending := Some(client);
      history := history + [Settings(client)];
    }

    /** The station got an address. A client is answered exactly when its command
        is the last thing that happened, so no command is answered twice and none
        that failed or was superseded is answered at all. */
    method OnGotIp(url: seq<byte>) returns (answer: Option<(nat, seq<byte>)>)
      requires Valid() && |url| < 64
      modifies this
      ensures Valid() && history == old(history) + [GotIp]
      ensures answer.Some? <==> old(history) != [] && old(history)[|old(history)| - 1].Settings?
      ensures error == old(error)
      ensures answer.None? ==> state == old(state) && pending == old(pending)
      ensures answer.Some? ==> state == Provisioned && pending == None
      ensures answer.Some? ==> answer.value.0 == old(history)[|old(history)| - 1].client
      ensures answer.Some? ==> answer.value.1 == [SEND_WIFI_SETTINGS, 1 + |url|] + Rpc.Tlv(url)
    {
      answer := None;
      if state == Provisioning {
        state := Provisioned;
        if pending.Some? {
          answer := Some((pending.value, Rpc.RpcResult(SEND_WIFI_SETTINGS, Rpc.Tlv(url)).value));
          pending := None;
        }
      }
      history := history + [GotIp];
    }

    method OnDisconnected()
      requires Valid()
      modifies this
      ensures Valid() && history == old(history) + [Event.Disconnected]
      ensures if old(state) == Provisioning
        then state == Authorized && error == UnableToConnect && pending == None
        else state == old(state) && error == old(error) && pending == old(pending)
    {
      if state == Provisioning {
        error := UnableToConnect;
        state := Authorized;
        pending := None;
      }
      history := history + [Event.Disconnected];
    }

    /** Provisioning starts again. A client still waiting is forgotten, though the
        slot is only overwritten by the next command. */
    method Start()
      requires Valid()
      modifies this
      ensures Valid() && history == old(history) + [Started]
      ensures state == Authorized && error == NoError && pending == old(pending)
    {
      state, error := Authorized, NoError;
      history := history + [Started];
    }
  }
}
