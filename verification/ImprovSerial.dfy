/** Improv Wi-Fi Serial framing: the packet printer and the byte-at-a-time
    receiver of src/esp_wifi_config_improv_serial.c. */
module ImprovSerial {
  import opened Common

  const HEADER: seq<byte> := [0x49, 0x4D, 0x50, 0x52, 0x4F, 0x56]   // "IMPROV"
  const VERSION: byte := 1
  const MAX_DATA: nat := 255

  // ---------------------------------------------------------------- checksum

  /** Sum of the bytes, keeping the low one. */
  function Sum(data: seq<byte>): byte {
    if data == [] then 0 else (Sum(data[..|data| - 1]) + data[|data| - 1]) % 256
  }

  lemma SumSnoc(data: seq<byte>, b: byte)
    ensures Sum(data + [b]) == (Sum(data) + b) % 256
  {
    assert (data + [b])[..|data|] == data;
  }

  /** The checksum of one byte is that byte. */
  lemma SumOne(b: byte)
    ensures Sum([b]) == b
  {
    assert [b][..0] == [];
  }

  lemma LowBytes(x: nat, y: nat, z: nat)
    ensures ((x + y) % 256 + z) % 256 == (x + (y + z) % 256) % 256
  {
  }

  lemma SumNothing(a: seq<byte>)
    ensures Sum(a + []) == (Sum(a) + Sum([])) % 256
  {
    assert a + [] == a;
    assert Sum([]) == 0;
    hide Sum;
  }

  lemma SumOneMore(a: seq<byte>, front: seq<byte>, last: byte)
    requires Sum(a + front) == (Sum(a) + Sum(front)) % 256
    ensures Sum(a + (front + [last])) == (Sum(a) + Sum(front + [last])) % 256
  {
    Associative(a, front, [last]);
    SumSnoc(a + front, last);
    SumSnoc(front, last);
    hide Sum;
    LowBytes(Sum(a), Sum(front), last);
  }

  /** The checksum of a whole is the sum of those of its parts, wherever it is cut. */
  lemma {:induction false} SumIsAdditive(a: seq<byte>, b: seq<byte>)
    ensures Sum(a + b) == (Sum(a) + Sum(b)) % 256
  {
    hide Sum;
    if b == [] {
      SumNothing(a);
    } else {
      var front := b[..|b| - 1];
      SumIsAdditive(a, front);
      SumOneMore(a, front, b[|b| - 1]);
      assert front + [b[|b| - 1]] == b;
    }
  }

  method Checksum(data: seq<byte>) returns (sum: byte)
    ensures sum == Sum(data)
  {
    sum := 0;
    for i := 0 to |data|
      invariant sum == Sum(data[..i])
    {
      SumSnoc(data[..i], data[i]);
      assert data[..i] + [data[i]] == data[..i + 1];
      sum := (sum + data[i]) % 256;
    }
    assert data[..|data|] == data;
  }

  // ----------------------------------------------------------------- frames

  datatype Packet = Packet(kind: byte, data: seq<byte>)

  function Prologue(kind: byte, len: byte): seq<byte> {
    HEADER + [VERSION, kind, len]
  }

  /** Header, version, type, length, data, and the checksum of all of those. */
  function Frame(p: Packet): seq<byte>
    requires |p.data| <= MAX_DATA
  {
    var body := Prologue(p.kind, |p.data|) + p.data;
    body + [Sum(body)]
  }

  /** The layout byte by byte: "IMPROV", version 1, type, length, the data, and the
      checksum of all before it. */
  lemma FrameLayout(p: Packet)
    requires |p.data| <= MAX_DATA
    ensures var f := Frame(p); var n := |p.data|;
      && |f| == n + 10 && f[..6] == [0x49, 0x4D, 0x50, 0x52, 0x4F, 0x56]
      && f[6] == 1 && f[7] == p.kind && f[8] == n && f[9..n + 9] == p.data
      && f[n + 9] == Sum(f[..n + 9])
  {
    var f, n := Frame(p), |p.data|;
    assert f[..n + 9] == Prologue(p.kind, n) + p.data;
  }

  /** What is written to the wire: the frame, or nothing when the length field
      could not express the data. */
  method SendPacket(kind: byte, data: seq<byte>, running: bool) returns (wire: Option<seq<byte>>)
    ensures wire.Some? <==> running && |data| <= MAX_DATA
    ensures wire.Some? ==> wire.value == Frame(Packet(kind, data))
  {
    if !running {
      return None;
    }
    var buf := new byte[MAX_DATA + 10](_ => 0);
    forall k | 0 <= k < |HEADER| {
      buf[k] := HEADER[k];
    }
    var offset := |HEADER|;
    buf[offset] := VERSION;
    buf[offset + 1] := kind;
    offset := offset + 2;
    if |data| > MAX_DATA {
      return None;
    }
    buf[offset] := |data|;
    offset := offset + 1;
    assert buf[..offset] == Prologue(kind, |data|);
    forall k | 0 <= k < |data| {
      buf[offset + k] := data[k];
    }
    assert buf[..offset + |data|] == Prologue(kind, |data|) + data;
    offset := offset + |data|;
    var sum := Checksum(buf[..offset]);
    buf[offset] := sum;
    offset := offset + 1;
    wire := Some(buf[..offset]);
  }

  // --------------------------------------------------- the receive automaton

  datatype Stage = InHeader | InVersion | InType | InLength | InData | InChecksum

  datatype Machine = Machine(stage: Stage, idx: nat, kind: byte, len: byte, data: seq<byte>, sum: byte)

  const Idle: Machine := Machine(InHeader, 0, 0, 0, [], 0)

  /** The automaton's reaction to one byte, and the packet it completes if any. */
  function Step(m: Machine, b: byte): (Machine, Option<Packet>)
    requires m.idx < |HEADER|
  {
    match m.stage
    case InHeader =>
      if b != HEADER[m.idx] then (m.(idx := 0), None)
      else if m.idx + 1 < |HEADER| then (m.(idx := m.idx + 1), None)
      else (m.(stage := InVersion, idx := 0, sum := Sum(HEADER)), None)
    case InVersion =>
      (m.(stage := if b == VERSION then InType else InHeader, sum := (m.sum + b) % 256), None)
    case InType =>
      (m.(stage := InLength, kind := b, sum := (m.sum + b) % 256), None)
    case InLength =>
      (m.(stage := if b == 0 then InChecksum else InData, len := b, data := [],
          sum := (m.sum + b) % 256), None)
    case InData =>
      (m.(stage := if |m.data| + 1 >= m.len then InChecksum else InData, data := m.data + [b],
          sum := (m.sum + b) % 256), None)
    case InChecksum =>
      (m.(stage := InHeader), if b == m.sum then Some(Packet(m.kind, m.data)) else None)
  }

  /** The bytes of the frame in progress. */
  function Pending(m: Machine): seq<byte>
    requires m.idx < |HEADER|
  {
    match m.stage
    case InHeader => HEADER[..m.idx]
    case InVersion => HEADER
    case InType => HEADER + [VERSION]
    case InLength => HEADER + [VERSION, m.kind]
    case _ => Prologue(m.kind, m.len) + m.data
  }

  predicate Consistent(m: Machine) {
    && m.idx < |HEADER|
    && (m.stage != InHeader ==> m.idx == 0 && m.sum == Sum(Pending(m)))
    && (m.stage == InData ==> |m.data| < m.len)
    && (m.stage == InChecksum ==> |m.data| == m.len)
  }

  /** A byte extends the frame in progress, abandons it, or completes it. */
  lemma StepCases(m: Machine, b: byte)
    requires Consistent(m)
    ensures var (next, packet) := Step(m, b);
      && Consistent(next)
      && (packet.Some? ==> |packet.value.data| <= MAX_DATA && Pending(m) + [b] == Frame(packet.value))
      && (packet.Some? ==> next.stage == InHeader && next.idx == 0)
      && (packet == None ==> Pending(next) == Pending(m) + [b] || (next.stage == InHeader && next.idx == 0))
  {
    SumSnoc(Pending(m), b);
    hide Sum;
    match m.stage
    case InHeader =>
      if b == HEADER[m.idx] {
        assert HEADER[..m.idx] + [b] == HEADER[..m.idx + 1];
        assert HEADER[..6] == HEADER;
      }
    case InVersion =>
    case InType =>
      assert HEADER + [VERSION] + [b] == HEADER + [VERSION, b];
    case InLength =>
      assert HEADER + [VERSION, m.kind] + [b] == Prologue(m.kind, b) + [];
    case InData =>
      Associative(Prologue(m.kind, m.len), m.data, [b]);
    case InChecksum =>
  }

  /** A whole run: the bytes seen so far and every packet delivered, with the
      position its frame starts at. */
  datatype Delivery = Delivery(packet: Packet, start: int)
  datatype Run = Run(machine: Machine, seen: seq<byte>, got: seq<Delivery>)

  const Fresh: Run := Run(Idle, [], [])

  function Receive1(r: Run, b: byte): (next: Run)
    requires Consistent(r.machine)
    ensures Consistent(next.machine)
  {
    StepCases(r.machine, b);
    var (m, packet) := Step(r.machine, b);
    Run(m, r.seen + [b],
        if packet.Some? then r.got + [Delivery(packet.value, |r.seen| - |Pending(r.machine)|)] else r.got)
  }

  function Receive(r: Run, bytes: seq<byte>): (next: Run)
    requires Consistent(r.machine)
    ensures Consistent(next.machine)
  {
    if bytes == [] then r else Receive1(Receive(r, bytes[..|bytes| - 1]), bytes[|bytes| - 1])
  }

  lemma ReceiveSnoc(r: Run, bytes: seq<byte>, b: byte)
    requires Consistent(r.machine)
    ensures Receive(r, bytes + [b]) == Receive1(Receive(r, bytes), b)
  {
    assert (bytes + [b])[..|bytes|] == bytes;
  }

  lemma {:induction false} ReceiveConcat(r: Run, a: seq<byte>, b: seq<byte>)
    requires Consistent(r.machine)
    ensures Receive(r, a + b) == Receive(Receive(r, a), b)
  {
    if b == [] {
      assert a + b == a;
    } else {
      var front, last := b[..|b| - 1], b[|b| - 1];
      assert a + b == (a + front) + [last];
      ReceiveSnoc(r, a + front, last);
      ReceiveConcat(r, a, front);
    }
  }

  // --------------------------------------------------------------- soundness

  function End(d: Delivery): int {
    d.start + |HEADER| + 4 + |d.packet.data|
  }

  /** The delivery is a complete frame, checksum included, in the stream. */
  predicate IsFrameIn(d: Delivery, stream: seq<byte>) {
    && |d.packet.data| <= MAX_DATA && 0 <= d.start && End(d) <= |stream|
    && stream[d.start..End(d)] == Frame(d.packet)
  }

  predicate FramesApart(ds: seq<Delivery>) {
    forall i, j :: 0 <= i < j < |ds| ==> End(ds[i]) <= ds[j].start
  }

  predicate SuffixIs(stream: seq<byte>, tail: seq<byte>) {
    |tail| <= |stream| && stream[|stream| - |tail|..] == tail
  }

  predicate SoundRun(r: Run) {
    && Consistent(r.machine) && SuffixIs(r.seen, Pending(r.machine))
    && (forall d :: d in r.got ==> IsFrameIn(d, r.seen) && End(d) <= |r.seen| - |Pending(r.machine)|)
    && FramesApart(r.got)
  }

  /** Whatever bytes arrive, every delivered packet is a contiguous frame of the
      stream with a correct checksum, and no two of them overlap. */
  lemma {:induction false} DeliveriesAreFrames(stream: seq<byte>)
    ensures SoundRun(Receive(Fresh, stream)) && Receive(Fresh, stream).seen == stream
  {
    hide SoundRun;
    hide Receive;
    hide Receive1;
    hide Consistent;
    NothingSeen();
    if stream != [] {
      var front, b := stream[..|stream| - 1], stream[|stream| - 1];
      DeliveriesAreFrames(front);
      SoundIsConsistent(Receive(Fresh, front));
      SeenGrows(Receive(Fresh, front), b);
      SoundStep(Receive(Fresh, front), b);
      assert front + [b] == stream;
      ReceiveSnoc(Fresh, front, b);
    }
  }

  lemma NothingSeen()
    ensures Consistent(Idle) && Receive(Fresh, []) == Fresh && SoundRun(Fresh) && Fresh.seen == []
  {
  }

  lemma SoundIsConsistent(r: Run)
    requires SoundRun(r)
    ensures Consistent(r.machine)
  {
  }

  lemma SeenGrows(r: Run, b: byte)
    requires Consistent(r.machine)
    ensures Receive1(r, b).seen == r.seen + [b]
  {
  }

  lemma SoundStep(r: Run, b: byte)
    requires SoundRun(r)
    ensures SoundRun(Receive1(r, b))
  {
    hide Step;
    hide Pending;
    hide Frame;
    StepCases(r.machine, b);
    var next := Receive1(r, b);
    var at := |r.seen| - |Pending(r.machine)|;
    PendingAtHome(next.machine);
    assert next.seen[at..] == Pending(r.machine) + [b];
    forall d | d in r.got ensures IsFrameIn(d, next.seen) {
      assert next.seen[d.start..End(d)] == r.seen[d.start..End(d)];
    }
    var (m, packet) := Step(r.machine, b);
    if packet.Some? {
      var d := Delivery(packet.value, at);
      FrameLength(packet.value);
      assert |Pending(r.machine) + [b]| == |Frame(packet.value)|;
      assert next.seen[at..End(d)] == next.seen[at..];
      assert next.got == r.got + [d];
    }
  }

  lemma PendingAtHome(m: Machine)
    requires m.idx < |HEADER|
    ensures m.stage == InHeader && m.idx == 0 ==> Pending(m) == []
  {
  }

  lemma FrameLength(p: Packet)
    requires |p.data| <= MAX_DATA
    ensures |Frame(p)| == |HEADER| + 4 + |p.data|
  {
  }

  // ------------------------------------------------------------ completeness

  predicate AtStart(m: Machine) {
    m.stage == InHeader && m.idx == 0
  }

  predicate Noise(bytes: seq<byte>) {
    forall k :: 0 <= k < |bytes| ==> bytes[k] != HEADER[0]
  }

  lemma {:induction false} NoiseIsIgnored(r: Run, bytes: seq<byte>)
    requires Consistent(r.machine) && AtStart(r.machine) && Noise(bytes)
    ensures var next := Receive(r, bytes);
      AtStart(next.machine) && next.got == r.got && next.seen == r.seen + bytes
  {
    if bytes == [] {
      assert r.seen + bytes == r.seen;
    } else {
      NoiseIsIgnored(r, bytes[..|bytes| - 1]);
      assert bytes[..|bytes| - 1] + [bytes[|bytes| - 1]] == bytes;
      Associative(r.seen, bytes[..|bytes| - 1], [bytes[|bytes| - 1]]);
    }
  }

  /** While a frame's bytes arrive the automaton is in step with them. */
  predicate Reading(r: Run, before: Run, done: seq<byte>, stage: Stage) {
    && Consistent(r.machine) && r.machine.stage == stage
    && Pending(r.machine) == done && r.got == before.got && r.seen == before.seen + done
  }

  lemma ReadOne(r: Run, before: Run, done: seq<byte>, stage: Stage, b: byte)
    requires Reading(r, before, done, stage) && stage != InChecksum
    requires stage == InHeader ==> b == HEADER[r.machine.idx]
    requires stage == InVersion ==> b == VERSION
    ensures r.machine.idx < |HEADER| && r.machine.stage == stage
    ensures Receive1(r, b).machine == Step(r.machine, b).0
    ensures Reading(Receive1(r, b), before, done + [b], Receive1(r, b).machine.stage)
  {
    StepCases(r.machine, b);
    Associative(before.seen, done, [b]);
  }

  lemma {:induction false} HeaderIsRead(before: Run, k: nat)
    requires Consistent(before.machine) && AtStart(before.machine) && k <= |HEADER|
    ensures var r := Receive(before, HEADER[..k]);
      Reading(r, before, HEADER[..k], if k < |HEADER| then InHeader else InVersion)
      && (k < |HEADER| ==> r.machine.idx == k)
  {
    if k == 0 {
      assert before.seen + [] == before.seen;
    } else {
      hide Receive1;
      HeaderIsRead(before, k - 1);
      assert HEADER[..k] == HEADER[..k - 1] + [HEADER[k - 1]];
      ReceiveSnoc(before, HEADER[..k - 1], HEADER[k - 1]);
      ReadOne(Receive(before, HEADER[..k - 1]), before, HEADER[..k - 1], InHeader, HEADER[k - 1]);
    }
  }

  lemma PrologueIsRead(before: Run, kind: byte, len: byte)
    requires Consistent(before.machine) && AtStart(before.machine)
    ensures var r := Receive(before, Prologue(kind, len));
      Reading(r, before, Prologue(kind, len), if len == 0 then InChecksum else InData)
      && r.machine.kind == kind && r.machine.len == len && r.machine.data == []
  {
    HeaderIsRead(before, |HEADER|);
    assert HEADER[..|HEADER|] == HEADER;
    var r0 := Receive(before, HEADER);
    ReadOne(r0, before, HEADER, InVersion, VERSION);
    ReceiveSnoc(before, HEADER, VERSION);
    var r1 := Receive(before, HEADER + [VERSION]);
    ReadOne(r1, before, HEADER + [VERSION], InType, kind);
    ReceiveSnoc(before, HEADER + [VERSION], kind);
    var upToKind := HEADER + [VERSION] + [kind];
    var r2 := Receive(before, upToKind);
    ReadOne(r2, before, upToKind, InLength, len);
    ReceiveSnoc(before, upToKind, len);
    assert upToKind + [len] == Prologue(kind, len);
  }

  lemma {:induction false} DataIsRead(before: Run, p: Packet, k: nat)
    requires Consistent(before.machine) && AtStart(before.machine)
    requires |p.data| <= MAX_DATA && k <= |p.data|
    ensures var r := Receive(before, Prologue(p.kind, |p.data|) + p.data[..k]);
      Reading(r, before, Prologue(p.kind, |p.data|) + p.data[..k], if k < |p.data| then InData else InChecksum)
      && r.machine.kind == p.kind && r.machine.len == |p.data| && r.machine.data == p.data[..k]
  {
    hide Receive;
    hide Receive1;
    hide Reading;
    hide Prologue;
    var start := Prologue(p.kind, |p.data|);
    if k == 0 {
      PrologueIsRead(before, p.kind, |p.data|);
      assert start + p.data[..0] == start;
    } else {
      var done := start + p.data[..k - 1];
      DataIsRead(before, p, k - 1);
      assert p.data[..k] == p.data[..k - 1] + [p.data[k - 1]];
      Associative(start, p.data[..k - 1], [p.data[k - 1]]);
      ReceiveSnoc(before, done, p.data[k - 1]);
      ReadOne(Receive(before, done), before, done, InData, p.data[k - 1]);
    }
  }

  /** A printed frame met from header index 0 is delivered, exactly once, with the
      position it starts at, and the automaton is back at index 0. */
  lemma FrameIsDelivered(before: Run, p: Packet)
    requires Consistent(before.machine) && AtStart(before.machine) && |p.data| <= MAX_DATA
    ensures var next := Receive(before, Frame(p));
      && AtStart(next.machine) && next.seen == before.seen + Frame(p)
      && next.got == before.got + [Delivery(p, |before.seen|)]
  {
    hide Receive;
    hide Prologue;
    var body := Prologue(p.kind, |p.data|) + p.data;
    DataIsRead(before, p, |p.data|);
    assert p.data[..|p.data|] == p.data;
    ReceiveSnoc(before, body, Sum(body));
    Associative(before.seen, body, [Sum(body)]);
  }

  datatype Burst = Burst(noise: seq<byte>, packet: Packet)

  predicate GoodBursts(bursts: seq<Burst>) {
    forall b :: b in bursts ==> Noise(b.noise) && |b.packet.data| <= MAX_DATA
  }

  function Wire(bursts: seq<Burst>): seq<byte>
    requires GoodBursts(bursts)
  {
    if bursts == [] then []
    else
      var last := bursts[|bursts| - 1];
      Wire(bursts[..|bursts| - 1]) + last.noise + Frame(last.packet)
  }

  /** At header index 0, having delivered the packets of `bursts` in order. */
  predicate Delivered(r: Run, bursts: seq<Burst>) {
    && Consistent(r.machine) && AtStart(r.machine) && |r.got| == |bursts|
    && forall i :: 0 <= i < |bursts| ==> r.got[i].packet == bursts[i].packet
  }

  lemma OneBurstMore(r: Run, front: seq<Burst>, last: Burst)
    requires Delivered(r, front) && Noise(last.noise) && |last.packet.data| <= MAX_DATA
    ensures Delivered(Receive(r, last.noise + Frame(last.packet)), front + [last])
  {
    hide Frame;
    hide Receive;
    NoiseIsIgnored(r, last.noise);
    FrameIsDelivered(Receive(r, last.noise), last.packet);
    ReceiveConcat(r, last.noise, Frame(last.packet));
  }

  lemma {:induction false} WireDelivered(bursts: seq<Burst>)
    requires GoodBursts(bursts)
    ensures Delivered(Receive(Fresh, Wire(bursts)), bursts)
  {
    hide Receive;
    hide Frame;
    hide Delivered;
    if bursts == [] {
      NoneDelivered();
    } else {
      var front, last := bursts[..|bursts| - 1], bursts[|bursts| - 1];
      WireDelivered(front);
      assert front + [last] == bursts;
      OneBurstMore(Receive(Fresh, Wire(front)), front, last);
      ReceiveConcat(Fresh, Wire(front), last.noise + Frame(last.packet));
      Associative(Wire(front), last.noise, Frame(last.packet));
    }
  }

  lemma NoneDelivered()
    ensures Delivered(Receive(Fresh, []), [])
  {
  }

  /** Any frames, separated by noise that never contains the header's first byte,
      are delivered exactly once each and in order, and nothing else is. */
  lemma AllFramesDelivered(bursts: seq<Burst>, tail: seq<byte>)
    requires GoodBursts(bursts) && Noise(tail)
    ensures Delivered(Receive(Fresh, Wire(bursts) + tail), bursts)
  {
    hide Receive;
    hide Wire;
    WireDelivered(bursts);
    ReceiveConcat(Fresh, Wire(bursts), tail);
    NoiseIsIgnored(Receive(Fresh, Wire(bursts)), tail);
  }

  // ---------------------------------------- when the header match is mid-way

  lemma SwallowFirst(r: Run)
    requires Consistent(r.machine) && r.machine.stage == InHeader && r.machine.idx > 0
    ensures var next := Receive(r, [HEADER[0]]);
      AtStart(next.machine) && next.got == r.got
  {
    ReceiveSnoc(r, [], HEADER[0]);
    assert [] + [HEADER[0]] == [HEADER[0]];
    assert HEADER[r.machine.idx] != HEADER[0];
  }

  /** After the six header bytes the automaton expects a version exactly when it
      started from index 0: a byte 'I' met after an 'I' is swallowed, so a frame
      that begins mid-match is lost. */
  lemma HeaderFoundIffFromZero(r: Run)
    requires Consistent(r.machine) && r.machine.stage == InHeader
    ensures var next := Receive(r, HEADER);
      (next.machine.stage == InVersion <==> r.machine.idx == 0)
      && (r.machine.idx > 0 ==> AtStart(next.machine) && next.got == r.got)
  {
    hide Receive;
    hide Pending;
    if r.machine.idx == 0 {
      HeaderIsRead(r, |HEADER|);
      assert HEADER[..|HEADER|] == HEADER;
    } else {
      SwallowFirst(r);
      NoiseIsIgnored(Receive(r, [HEADER[0]]), HEADER[1..]);
      assert [HEADER[0]] + HEADER[1..] == HEADER;
      ReceiveConcat(r, [HEADER[0]], HEADER[1..]);
    }
  }

  /** The frame in progress does not start at `at`, and none that does was delivered. */
  predicate Misses(r: Run, at: nat) {
    && Consistent(r.machine) && at <= |r.seen|
    && |r.seen| - |Pending(r.machine)| != at
    && forall d :: d in r.got ==> d.start != at
  }

  /** A byte moves the start of the frame in progress to just behind it or not at all. */
  lemma MissesStep(r: Run, at: nat, b: byte)
    requires Misses(r, at)
    ensures Misses(Receive1(r, b), at)
  {
    hide Step, Pending;
    StepCases(r.machine, b);
    PendingAtHome(Step(r.machine, b).0);
  }

  lemma {:induction false} KeepsMissing(r: Run, at: nat, bytes: seq<byte>)
    requires Misses(r, at)
    ensures Misses(Receive(r, bytes), at)
  {
    hide Receive1, Pending;
    if bytes != [] {
      KeepsMissing(r, at, bytes[..|bytes| - 1]);
      MissesStep(Receive(r, bytes[..|bytes| - 1]), at, bytes[|bytes| - 1]);
    }
  }

  lemma PendingIsEmpty(m: Machine)
    requires Consistent(m)
    ensures Pending(m) == [] <==> AtStart(m)
  {
  }

  /** From every state a run can be in, a printed frame that comes next is delivered
      if and only if the automaton is at header index 0. */
  lemma DeliveredIffAtStart(r: Run, p: Packet)
    requires SoundRun(r) && |p.data| <= MAX_DATA
    ensures Delivery(p, |r.seen|) in Receive(r, Frame(p)).got <==> AtStart(r.machine)
  {
    hide Receive, Pending, Frame;
    PendingIsEmpty(r.machine);
    if AtStart(r.machine) {
      FrameIsDelivered(r, p);
    } else {
      forall d | d in r.got ensures d.start != |r.seen| {
        assert IsFrameIn(d, r.seen);
      }
      KeepsMissing(r, |r.seen|, Frame(p));
    }
  }

  lemma LeavesStart(r: Run, b: byte)
    requires Consistent(r.machine) && AtStart(r.machine)
    ensures AtStart(Receive1(r, b).machine) <==> b != HEADER[0]
  {
  }

  lemma {:induction false} FirstByte(b: byte)
    ensures AtStart(Receive(Fresh, [b]).machine) <==> b != HEADER[0]
  {
    hide Receive, Receive1, SoundRun, Sum;
    NothingSeen();
    LeavesStart(Fresh, b);
    ReceiveSnoc(Fresh, [], b);
    assert [] + [b] == [b];
  }

  /** One stray byte in front of a first frame loses it if and only if it is an 'I'. */
  lemma StrayByteLosesFrame(b: byte, p: Packet)
    requires |p.data| <= MAX_DATA
    ensures Delivery(p, 1) in Receive(Fresh, [b] + Frame(p)).got <==> b != HEADER[0]
  {
    hide Receive, Frame, SoundRun;
    FirstByte(b);
    DeliveriesAreFrames([b]);
    DeliveredIffAtStart(Receive(Fresh, [b]), p);
    ReceiveConcat(Fresh, [b], Frame(p));
  }

  // ------------------------------------------------------ the receiving task

  lemma Bounds(m: Machine)
    requires Consistent(m)
    ensures m.idx < |HEADER| && (m.stage == InData ==> |m.data| < m.len)
    ensures m.stage == InChecksum ==> |m.data| == m.len
  {
  }

  lemma Receive1Machine(r: Run, b: byte)
    requires Consistent(r.machine)
    ensures r.machine.idx < |HEADER| && Receive1(r, b).machine == Step(r.machine, b).0
  {
  }

  /** The receive task's variables, updated byte by byte. */
  class Receiver {
    var stage: Stage
    var headerIdx: nat
    var kind: byte
    var len: byte
    var dataIdx: nat
    var sum: byte
    var buf: array<byte>
    ghost var run: Run

    ghost predicate Valid()
      reads this, buf
      ensures Valid() ==> run.machine.idx < |HEADER| && Consistent(run.machine)
    {
      && buf.Length == MAX_DATA && dataIdx <= buf.Length
      && var m := run.machine;
      && Consistent(m)
      && stage == m.stage && headerIdx == m.idx
      && (stage != InHeader ==> sum == m.sum)
      && (stage == InLength || stage == InData || stage == InChecksum ==> kind == m.kind)
      && (stage == InData || stage == InChecksum ==> len == m.len && buf[..dataIdx] == m.data)
    }

    constructor ()
      ensures Valid() && fresh(buf) && run == Fresh
    {
      stage, headerIdx, kind, len, dataIdx, sum := InHeader, 0, 0, 0, 0, 0;
      buf := new byte[MAX_DATA](_ => 0);
      run := Fresh;
    }

    /** Handle one byte; a packet is returned when it completes one. */
    method OnByte(b: byte) returns (packet: Option<Packet>)
      requires Valid()
      modifies this, buf
      ensures Valid() && buf == old(buf) && run == Receive1(old(run), b)
      ensures packet == Step(old(run).machine, b).1
    {
      hide Consistent;
      hide Receive1;
      ghost var m := run.machine;
      Bounds(m);
      Bounds(Receive1(run, b).machine);
      Receive1Machine(run, b);
      run := Receive1(run, b);
      packet := None;
      match stage {
        case InHeader =>
          if b == HEADER[headerIdx] {
            headerIdx := headerIdx + 1;
            if headerIdx == |HEADER| {
              headerIdx := 0;
              sum := Checksum(HEADER);
              stage := InVersion;
            }
          } else {
            headerIdx := 0;
          }
        case InVersion =>
          sum := (sum + b) % 256;
          stage := if b == VERSION then InType else InHeader;
        case InType =>
          kind := b;
          sum := (sum + b) % 256;
          stage := InLength;
        case InLength =>
          len := b;
          sum := (sum + b) % 256;
          dataIdx := 0;
          stage := if len == 0 then InChecksum else InData;
        case InData =>
          buf[dataIdx] := b;
          assert buf[..dataIdx + 1] == m.data + [b];
          dataIdx := dataIdx + 1;
          sum := (sum + b) % 256;
          if dataIdx >= len {
            stage := InChecksum;
          }
        case InChecksum =>
          if b == sum {
            packet := Some(Packet(kind, buf[..len]));
          }
          stage := InHeader;
      }
    }
  }
}
