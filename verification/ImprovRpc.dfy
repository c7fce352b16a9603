/** Improv RPC results: TLV packing of scan results into what a transport can
    deliver (src/esp_wifi_config_improv.c), and the BLE result frame
    (src/esp_wifi_config_improv_ble.c). */
module ImprovRpc {
  import opened Common
  import opened Decimal
  import Serial = ImprovSerial

  const MAX_PAYLOAD: nat := 255
  const GET_WIFI_NETWORKS: byte := 4
  const RPC_RESULT: byte := 4
  const MTU_MIN: nat := 23

  // ------------------------------------------------- length-prefixed strings

  /** The length byte wraps; no caller passes a buffer big enough to see it. */
  function Tlv(s: seq<byte>): seq<byte> {
    [|s| % 256] + s
  }

  function TlvAll(strings: seq<seq<byte>>): seq<byte> {
    if strings == [] then [] else Tlv(strings[0]) + TlvAll(strings[1..])
  }

  /** A client's reading of a result body: length byte, then that many bytes. */
  function Strings(body: seq<byte>): Option<seq<seq<byte>>> {
    if body == [] then Some([])
    else
      var end := 1 + body[0] as int;
      if |body| < end then None
      else
        match Strings(body[end..])
        case None => None
        case Some(rest) => Some([body[1..end]] + rest)
  }

  lemma {:induction false} StringsReadBack(strings: seq<seq<byte>>)
    requires forall s :: s in strings ==> |s| < 256
    ensures Strings(TlvAll(strings)) == Some(strings)
  {
    if strings != [] {
      var s, rest := strings[0], TlvAll(strings[1..]);
      StringsReadBack(strings[1..]);
      ReadOne(s, rest);
      assert [s] + strings[1..] == strings;
    }
  }

  lemma ReadOne(s: seq<byte>, rest: seq<byte>)
    requires |s| < 256
    ensures var body := Tlv(s) + rest; var end := 1 + |s|;
      body[0] == |s| && body[1..end] == s && body[end..] == rest
  {
  }

  lemma {:induction false} TlvAllConcat(a: seq<seq<byte>>, b: seq<seq<byte>>)
    ensures TlvAll(a + b) == TlvAll(a) + TlvAll(b)
  {
    if a == [] {
      assert a + b == b;
    } else {
      assert (a + b)[1..] == a[1..] + b;
      TlvAllConcat(a[1..], b);
      Associative(Tlv(a[0]), TlvAll(a[1..]), TlvAll(b));
    }
  }

  /** The strings that go in when each is appended if there is room left for it. */
  function Kept(strings: seq<seq<byte>>, room: nat): (r: seq<seq<byte>>)
    ensures |r| <= |strings| && forall s :: s in r ==> s in strings
  {
    if strings == [] then []
    else if 1 + |strings[0]| <= room then [strings[0]] + Kept(strings[1..], room - 1 - |strings[0]|)
    else Kept(strings[1..], room)
  }

  /** They are all of the strings exactly when all of them fit together. */
  lemma {:induction false} KeptAllIff(strings: seq<seq<byte>>, room: nat)
    ensures Kept(strings, room) == strings <==> |TlvAll(strings)| <= room
    ensures |TlvAll(Kept(strings, room))| <= room
  {
    if strings != [] {
      var s, rest := strings[0], strings[1..];
      assert strings == [s] + rest;
      if 1 + |s| <= room {
        KeptAllIff(rest, room - 1 - |s|);
        var kept := Kept(rest, room - 1 - |s|);
        assert ([s] + kept)[1..] == kept;
      } else {
        KeptAllIff(rest, room);
      }
    }
  }

  /** Append a length-prefixed string at `offset`, or nothing if it would overflow. */
  method AppendTlv(buf: array<byte>, cap: nat, offset: nat, s: seq<byte>) returns (next: nat, ok: bool)
    requires offset <= cap <= buf.Length
    modifies buf
    ensures ok <==> offset + 1 + |s| <= cap
    ensures next == if ok then offset + 1 + |s| else offset
    ensures buf[..next] == old(buf[..offset]) + if ok then Tlv(s) else []
  {
    if offset + 1 + |s| > cap {
      return offset, false;
    }
    ghost var kept := buf[..offset];
    buf[offset] := |s| % 256;
    forall k | 0 <= k < |s| {
      buf[offset + 1 + k] := s[k];
    }
    next, ok := offset + 1 + |s|, true;
    assert buf[..next] == kept + Tlv(s);
  }

  // ------------------------------------------------------------ scan results

  datatype Auth = Open | Wep | Wpa | Wpa2 | WpaWpa2 | Wpa3 | Wpa2Wpa3 | Wpa2Enterprise | Wapi | OtherAuth

  type int8 = n: int | -128 <= n < 128
  type ssid = s: seq<byte> | |s| <= 32

  datatype Network = Network(name: ssid, rssi: int8, auth: Auth)

  function AuthText(a: Auth): string {
    match a
    case Open => "NO"
    case Wep => "WEP"
    case Wpa => "WPA"
    case Wpa2 => "WPA2"
    case WpaWpa2 => "WPA/WPA2"
    case Wpa3 => "WPA3"
    case Wpa2Wpa3 => "WPA2/WPA3"
    case Wpa2Enterprise => "WPA2 EAP"
    case Wapi => "WAPI"
    case OtherAuth => "WPA2"
  }

  function Bytes(s: string): (r: seq<byte>)
    ensures |r| == |s|
  {
    seq(|s|, i requires 0 <= i < |s| => s[i] as int % 256)
  }

  /** The three strings a client is sent about one network. */
  function Triple(n: Network): (r: seq<seq<byte>>)
    ensures |r| == 3
  {
    [n.name, Bytes(IntText(n.rssi)), Bytes(AuthText(n.auth))]
  }

  /** Reading a decimal number with an optional sign. */
  function ReadInt(s: string): Option<int> {
    if s == "" || !AllDigits(if s[0] == '-' then s[1..] else s) then None
    else if s[0] == '-' then Some(-(Value(s[1..]) as int))
    else Some(Value(s))
  }

  /** What the three strings say: the name, the strength as a decimal number, and the
      security, which tells all modes apart but the unknown ones from WPA2. */
  lemma TripleSays(n: Network, other: Network)
    ensures Triple(n)[0] == n.name
    ensures Triple(n)[1] == Bytes(IntText(n.rssi)) && ReadInt(IntText(n.rssi)) == Some(n.rssi)
    ensures forall i :: 0 <= i < |Triple(n)[1]| ==> Triple(n)[1][i] == IntText(n.rssi)[i] as int
    ensures Triple(n)[2] == Bytes(AuthText(n.auth))
    ensures AuthText(n.auth) == AuthText(other.auth) <==>
      n.auth == other.auth || (n.auth in {Wpa2, OtherAuth} && other.auth in {Wpa2, OtherAuth})
  {
    hide Value, Dec;
    var m: nat := if n.rssi < 0 then -(n.rssi as int) else n.rssi as int;
    DecReadsBack(m);
    assert n.rssi < 0 ==> IntText(n.rssi)[1..] == Dec(m);
    assert n.rssi >= 0 ==> IsDigit(IntText(n.rssi)[0]);
    forall i | 0 <= i < |Triple(n)[1]| ensures Triple(n)[1][i] == IntText(n.rssi)[i] as int {
      assert IntText(n.rssi)[i] == '-' || IsDigit(IntText(n.rssi)[i]);
    }
    AuthTextsDiffer(n.auth, other.auth);
  }

  lemma AuthTextsDiffer(a: Auth, b: Auth)
    ensures AuthText(a) == AuthText(b) <==> a == b || (a in {Wpa2, OtherAuth} && b in {Wpa2, OtherAuth})
  {
    var x, y := AuthText(a), AuthText(b);
    assert x == y ==> |x| == |y| && x[1] == y[1] && x[|x| - 1] == y[|y| - 1];
  }

  function Triples(nets: seq<Network>): seq<seq<byte>> {
    if nets == [] then [] else Triples(nets[..|nets| - 1]) + Triple(nets[|nets| - 1])
  }

  function Encoded(nets: seq<Network>): seq<byte> {
    TlvAll(Triples(nets))
  }

  lemma EncodedSnoc(nets: seq<Network>, n: Network)
    ensures Encoded(nets + [n]) == Encoded(nets) + TlvAll(Triple(n))
  {
    assert (nets + [n])[..|nets|] == nets;
    TlvAllConcat(Triples(nets), Triple(n));
  }

  lemma TripleParts(n: Network)
    ensures TlvAll(Triple(n)) ==
      Tlv(n.name) + Tlv(Bytes(IntText(n.rssi))) + Tlv(Bytes(AuthText(n.auth)))
    ensures |TlvAll(Triple(n))| == 3 + |n.name| + |IntText(n.rssi)| + |AuthText(n.auth)| <= 48
    ensures forall s :: s in Triple(n) ==> |s| < 256
  {
    hide IntText;
    hide AuthText;
    var a, b, c := n.name, Bytes(IntText(n.rssi)), Bytes(AuthText(n.auth));
    assert Triple(n)[1..] == [b, c] && [b, c][1..] == [c] && TlvAll([c][1..]) == [];
    assert TlvAll([b, c]) == Tlv(b) + TlvAll([c]) && TlvAll([c]) == Tlv(c) + [];
    Associative(Tlv(a), Tlv(b), Tlv(c));
    assert Tlv(c) + [] == Tlv(c);
    RssiLength(n.rssi);
    AuthLength(n.auth);
  }

  lemma RssiLength(v: int8)
    ensures |IntText(v)| <= 4
  {
    assert Pow10(3) == 1000;
    DecLength(if v < 0 then -(v as int) else v as int, 3);
  }

  lemma AuthLength(a: Auth)
    ensures |AuthText(a)| <= 9
  {
  }

  lemma {:induction false} TriplesShort(nets: seq<Network>)
    ensures forall s :: s in Triples(nets) ==> |s| < 256
  {
    if nets != [] {
      TriplesShort(nets[..|nets| - 1]);
      TripleParts(nets[|nets| - 1]);
    }
  }

  /** What a client reads from an encoded list: the networks' triples, in order. */
  lemma EncodedReadsBack(nets: seq<Network>)
    ensures Strings(Encoded(nets)) == Some(Triples(nets))
  {
    TriplesShort(nets);
    StringsReadBack(Triples(nets));
  }

  // -------------------------------------------------------------- responses

  /** [command, length, payload], or nothing when the length byte cannot say it. */
  function RpcResult(cmd: byte, payload: seq<byte>): Option<seq<byte>> {
    if 2 + |payload| > 2 + MAX_PAYLOAD then None else Some([cmd, |payload|] + payload)
  }

  datatype Style = Single | Chunked

  function Capacity(maxPayload: nat): nat {
    if maxPayload > 0 && maxPayload < MAX_PAYLOAD then maxPayload else MAX_PAYLOAD
  }

  /** `k` networks is as many as fit in `cap` bytes. */
  predicate LongestFit(nets: seq<Network>, k: nat, cap: nat) {
    && k <= |nets| && |Encoded(nets[..k])| <= cap
    && (k < |nets| ==> |Encoded(nets[..k + 1])| > cap)
  }

  predicate IsResult(packet: seq<byte>, payload: seq<byte>) {
    |payload| <= MAX_PAYLOAD && packet == [GET_WIFI_NETWORKS, |payload|] + payload
  }

  /** One response for all networks, bounded by the link. */
  method PackSingle(nets: seq<Network>, cap: nat) returns (payload: seq<byte>, sent: nat)
    requires cap <= MAX_PAYLOAD
    ensures LongestFit(nets, sent, cap) && payload == Encoded(nets[..sent])
  {
    hide Encoded, TlvAll, Triple, IntText, AuthText;
    var buf := new byte[MAX_PAYLOAD](_ => 0);
    var poff := 0;
    sent := 0;
    NothingEncoded();
    assert nets[..0] == [] && buf[..0] == [];
    while sent < |nets|
      invariant 0 <= sent <= |nets| && poff <= cap && buf[..poff] == Encoded(nets[..sent])
    {
      var net := nets[sent];
      TripleParts(net);
      EncodedSnoc(nets[..sent], net);
      assert nets[..sent] + [net] == nets[..sent + 1];
      var needed := 1 + |net.name| + 1 + |IntText(net.rssi)| + 1 + |AuthText(net.auth)|;
      if poff + needed > cap {
        break;
      }
      KeptAllIff(Triple(net), cap - poff);
      poff := AppendTriple(buf, cap, poff, net);
      sent := sent + 1;
    }
    payload := buf[..poff];
  }

  lemma NothingEncoded()
    ensures Encoded([]) == []
  {
  }

  /** One response per network, carrying whichever of its three strings fit in turn,
      then one with no strings. */
  method PackChunked(nets: seq<Network>, cap: nat) returns (responses: seq<seq<byte>>)
    requires cap <= MAX_PAYLOAD
    ensures |responses| == |nets| + 1 && IsResult(responses[|nets|], [])
    ensures forall i :: 0 <= i < |nets| ==> IsResult(responses[i], TlvAll(Kept(Triple(nets[i]), cap)))
  {
    hide Encoded, TlvAll, Kept, Triple;
    var buf := new byte[MAX_PAYLOAD](_ => 0);
    responses := [];
    for i := 0 to |nets|
      invariant |responses| == i
      invariant forall j :: 0 <= j < i ==> IsResult(responses[j], TlvAll(Kept(Triple(nets[j]), cap)))
    {
      var poff := AppendTriple(buf, cap, 0, nets[i]);
      assert buf[..0] == [];
      assert [] + TlvAll(Kept(Triple(nets[i]), cap)) == TlvAll(Kept(Triple(nets[i]), cap));
      var packet := RpcResult(GET_WIFI_NETWORKS, buf[..poff]);
      responses := responses + [packet.value];
    }
    responses := responses + [RpcResult(GET_WIFI_NETWORKS, []).value];
  }

  /** Answer GET_WIFI_NETWORKS for the scan results `nets`. `sent` counts the
      networks that went out. */
  method GetWifiNetworks(nets: seq<Network>, style: Style, maxPayload: nat)
    returns (responses: seq<seq<byte>>, sent: nat)
    ensures style == Single && sent < |nets| ==>
      |Encoded(nets[..sent + 1])| > 255 || 0 < maxPayload < |Encoded(nets[..sent + 1])|
    ensures style == Single ==>
      LongestFit(nets, sent, Capacity(maxPayload)) && |responses| == 1 &&
      IsResult(responses[0], Encoded(nets[..sent]))
    ensures style == Chunked ==>
      sent == |nets| && |responses| == |nets| + 1 && IsResult(responses[|nets|], [])
    ensures style == Chunked ==> forall i :: 0 <= i < |nets| ==>
      IsResult(responses[i], TlvAll(Kept(Triple(nets[i]), Capacity(maxPayload))))
  {
    var cap := Capacity(maxPayload);
    if style == Chunked {
      responses := PackChunked(nets, cap);
      sent := |nets|;
    } else {
      var payload;
      payload, sent := PackSingle(nets, cap);
      responses := [RpcResult(GET_WIFI_NETWORKS, payload).value];
    }
  }

  lemma EncodedOne(n: Network)
    ensures Encoded([n]) == TlvAll(Triple(n))
  {
    EncodedSnoc([], n);
    assert [] + [n] == [n];
  }

  /** What a client reads from one chunked response: the strings that fit, whole. */
  lemma ChunkReadsBack(n: Network, cap: nat, packet: seq<byte>)
    requires IsResult(packet, TlvAll(Kept(Triple(n), cap)))
    ensures Strings(packet[2..]) == Some(Kept(Triple(n), cap))
    ensures Kept(Triple(n), cap) == Triple(n) <==> |Encoded([n])| <= cap
  {
    hide Kept, Strings, Encoded;
    TripleParts(n);
    StringsReadBack(Kept(Triple(n), cap));
    assert packet[2..] == TlvAll(Kept(Triple(n), cap));
    KeptAllIff(Triple(n), cap);
    EncodedOne(n);
  }

  /** The three appends for one network. */
  method AppendTriple(buf: array<byte>, cap: nat, offset: nat, net: Network) returns (next: nat)
    requires offset <= cap <= buf.Length
    modifies buf
    ensures offset <= next <= cap
    ensures buf[..next] == old(buf[..offset]) + TlvAll(Kept(Triple(net), cap - offset))
  {
    hide TlvAll, IntText, AuthText;
    var rssi, auth := Bytes(IntText(net.rssi)), Bytes(AuthText(net.auth));
    assert [net.name] + [rssi, auth] == Triple(net);
    assert [rssi] + [auth] == [rssi, auth] && [auth] + [] == [auth];
    next := AppendOne(buf, cap, offset, net.name, [rssi, auth]);
    next := AppendOne(buf, cap, next, rssi, [auth]);
    next := AppendOne(buf, cap, next, auth, []);
    NothingKept(cap - next);
    assert buf[..next] + [] == buf[..next];
  }

  /** One append whose outcome the caller ignores; `rest` is still to come. */
  method AppendOne(buf: array<byte>, cap: nat, offset: nat, s: seq<byte>, ghost rest: seq<seq<byte>>)
    returns (next: nat)
    requires offset <= cap <= buf.Length
    modifies buf
    ensures offset <= next <= cap
    ensures buf[..next] + TlvAll(Kept(rest, cap - next)) ==
      old(buf[..offset]) + TlvAll(Kept([s] + rest, cap - offset))
  {
    hide TlvAll;
    ghost var front := buf[..offset];
    KeptStep([s] + rest, cap - offset);
    assert ([s] + rest)[1..] == rest;
    var ok;
    next, ok := AppendTlv(buf, cap, offset, s);
    assert front + [] == front;
    Associative(front, Tlv(s), TlvAll(Kept(rest, cap - next)));
  }

  lemma NothingKept(room: nat)
    ensures TlvAll(Kept([], room)) == []
  {
  }

  lemma KeptStep(strings: seq<seq<byte>>, room: nat)
    requires strings != []
    ensures TlvAll(Kept(strings, room)) ==
      if 1 + |strings[0]| <= room
      then Tlv(strings[0]) + TlvAll(Kept(strings[1..], room - 1 - |strings[0]|))
      else TlvAll(Kept(strings[1..], room))
  {
    if 1 + |strings[0]| <= room {
      assert Kept(strings, room)[1..] == Kept(strings[1..], room - 1 - |strings[0]|);
    }
  }

  /** The networks that fit are a longest prefix in the strong sense: no longer
      prefix fits either, and the number is determined. */
  lemma {:induction false} EncodedGrows(nets: seq<Network>, j: nat, k: nat)
    requires j <= k <= |nets|
    ensures |Encoded(nets[..j])| <= |Encoded(nets[..k])|
    decreases k - j
  {
    hide Encoded, TlvAll;
    if j < k {
      EncodedGrows(nets, j, k - 1);
      assert nets[..k] == nets[..k - 1] + [nets[k - 1]];
      EncodedSnoc(nets[..k - 1], nets[k - 1]);
    }
  }

  lemma LongestFitIsLongest(nets: seq<Network>, k: nat, cap: nat, j: nat)
    requires LongestFit(nets, k, cap) && j <= |nets|
    ensures |Encoded(nets[..j])| <= cap <==> j <= k
  {
    if j <= k {
      EncodedGrows(nets, j, k);
    } else {
      EncodedGrows(nets, k + 1, j);
    }
  }

  /** Nothing is cut mid-string: what a client reads from a single response is
      exactly the triples of the leading networks that went out. */
  lemma SingleReadsBack(nets: seq<Network>, sent: nat, packet: seq<byte>)
    requires sent <= |nets| && IsResult(packet, Encoded(nets[..sent]))
    ensures |packet| == 2 + packet[1] as int && Strings(packet[2..]) == Some(Triples(nets[..sent]))
  {
    EncodedReadsBack(nets[..sent]);
    assert packet[2..] == Encoded(nets[..sent]);
  }

  // ------------------------------------------------------------- BLE results

  /** The stored and notified result: the packet and the sum of its bytes. */
  function BleResult(packet: seq<byte>): Option<seq<byte>> {
    if |packet| + 1 > 2 + MAX_PAYLOAD + 1 then None else Some(packet + [Serial.Sum(packet)])
  }

  /** [command, length, that many bytes, checksum of everything before]. */
  predicate BleParts(data: seq<byte>, cmd: byte, payload: seq<byte>) {
    && |payload| <= MAX_PAYLOAD
    && data == [cmd, |payload|] + payload + [Serial.Sum([cmd, |payload|] + payload)]
  }

  ghost predicate BleFrame(data: seq<byte>) {
    exists cmd: byte, payload: seq<byte> :: BleParts(data, cmd, payload)
  }

  /** The check on an incoming frame accepts exactly the complete frames. */
  method BleFrameValid(data: seq<byte>) returns (ok: bool)
    ensures ok <==> BleFrame(data)
  {
    if BleFrame(data) {
      ghost var cmd: byte, payload: seq<byte> :| BleParts(data, cmd, payload);
      assert data[..|data| - 1] == [cmd, |payload|] + payload;
    }
    if |data| < 3 {
      return false;
    }
    if data[1] as int + 3 != |data| {
      return false;
    }
    var sum := Serial.Checksum(data[..|data| - 1]);
    ok := sum == data[|data| - 1];
    if ok {
      ghost var payload := data[2..|data| - 1];
      assert [data[0], |payload|] + payload == data[..|data| - 1];
      assert BleParts(data, data[0], payload);
    }
  }

  /** Payload budget of one connection: three bytes of notification overhead and
      three of result overhead under the MTU, and never above the format's own. */
  function Budget(mtu: nat): nat {
    var m := if mtu < MTU_MIN then MTU_MIN else mtu;
    if m - 6 > MAX_PAYLOAD then MAX_PAYLOAD else m - 6
  }

  /** What the link cannot carry: more payload than the format can state, or a frame of
      `k` networks longer than the MTU less the notification's three bytes. */
  predicate NoRoom(nets: seq<Network>, k: nat, mtu: nat)
    requires k <= |nets|
  {
    var m := if mtu < 23 then 23 else mtu;
    |Encoded(nets[..k])| > 255 || |Encoded(nets[..k])| + 3 > m - 3
  }

  /** End to end over BLE: whatever the scan found and the link negotiated, the
      result that goes out is a valid frame no longer than a notification carries,
      the client reads the leading networks from it, and there was no room for one
      more. */
  method AnswerScanOverBle(nets: seq<Network>, mtu: nat) returns (result: seq<byte>, sent: nat)
    ensures BleFrame(result)
    ensures sent <= |nets| && (sent < |nets| ==> NoRoom(nets, sent + 1, mtu))
    ensures |result| <= (if mtu < MTU_MIN then MTU_MIN else mtu) - 3
    ensures LongestFit(nets, sent, Budget(mtu))
    ensures |result| >= 3 && Strings(result[2..|result| - 1]) == Some(Triples(nets[..sent]))
  {
    var responses;
    responses, sent := GetWifiNetworks(nets, Single, Budget(mtu));
    var packet, payload := responses[0], Encoded(nets[..sent]);
    result := BleResult(packet).value;
    assert BleParts(result, GET_WIFI_NETWORKS, payload);
    assert result[2..|result| - 1] == packet[2..];
    SingleReadsBack(nets, sent, packet);
  }

  /** What one serial response for a network looks like from the other side. */
  predicate TellsOf(d: Serial.Delivery, n: Network) {
    IsResult(d.packet.data, Encoded([n]))
  }

  /** The bytes that carry `responses`, one frame each. */
  method SendAll(responses: seq<seq<byte>>) returns (wire: seq<byte>)
    requires forall p :: p in responses ==> |p| <= Serial.MAX_DATA
    ensures var r := Serial.Receive(Serial.Fresh, wire);
      |r.got| == |responses|
      && forall i :: 0 <= i < |responses| ==> r.got[i].packet == Serial.Packet(RPC_RESULT, responses[i])
  {
    hide Serial.Receive;
    hide Serial.Frame;
    ghost var bursts: seq<Serial.Burst> := [];
    wire := [];
    for i := 0 to |responses|
      invariant |bursts| == i && Serial.GoodBursts(bursts) && wire == Serial.Wire(bursts)
      invariant forall j :: 0 <= j < i ==> bursts[j].packet == Serial.Packet(RPC_RESULT, responses[j])
    {
      var frame := Serial.SendPacket(RPC_RESULT, responses[i], true);
      ghost var burst := Serial.Burst([], Serial.Packet(RPC_RESULT, responses[i]));
      assert (bursts + [burst])[..i] == bursts;
      assert wire + [] == wire;
      bursts := bursts + [burst];
      wire := wire + frame.value;
    }
    Serial.AllFramesDelivered(bursts, []);
    assert wire + [] == wire;
  }

  /** End to end over serial: every response fits a frame, so none is dropped, and
      a receiver is handed all of them in order, the empty one last. */
  method AnswerScanOverSerial(nets: seq<Network>) returns (wire: seq<byte>)
    ensures var r := Serial.Receive(Serial.Fresh, wire);
      && |r.got| == |nets| + 1
      && (forall i :: 0 <= i < |nets| ==> TellsOf(r.got[i], nets[i]))
      && IsResult(r.got[|nets|].packet.data, [])
  {
    hide Serial.Receive;
    hide Encoded;
    var responses, sent := GetWifiNetworks(nets, Chunked, Serial.MAX_DATA - 2);
    forall i | 0 <= i < |nets|
      ensures IsResult(responses[i], Encoded([nets[i]])) && |responses[i]| <= 50
    {
      EncodedOne(nets[i]);
      TripleParts(nets[i]);
      KeptAllIff(Triple(nets[i]), Serial.MAX_DATA - 2);
    }
    wire := SendAll(responses);
  }
}
