/** The streaming JSON writer of src/esp_wifi_config_json.c: a bounded scratch
    buffer flushed through a sink, proved to emit exactly what the plain printer
    of JsonPrinter prints. */
module JsonWriter {
  import opened Common
  import opened Decimal
  import opened JsonPrinter

  /** Writer status. `SinkFailed` carries whatever code the sink returned. */
  datatype Status = Ok | InvalidArg | InvalidState | NoMemory | SinkFailed(code: int)

  /** A sink's answer to a chunk, given every chunk offered so far including it:
      None for ESP_OK, otherwise the code it returned. */
  type Sink = seq<string> -> Option<int>

  ghost predicate AllAccepted(sink: Sink, chunks: seq<string>) {
    forall k :: 0 < k <= |chunks| ==> sink(chunks[..k]) == None
  }

  /** Nothing is offered any more once a chunk has been refused. */
  ghost predicate OnlyLastRefused(sink: Sink, chunks: seq<string>) {
    forall k :: 0 < k < |chunks| ==> sink(chunks[..k]) == None
  }

  class Writer {
    const sink: Option<Sink>      // None is buffer mode
    const buf: array<char>
    var len: nat
    var needComma: bool
    var depth: nat
    var err: Status
    var chunks: seq<string>       // what the sink has been offered
    ghost var want: string        // everything the caller asked to be written
    ghost var out: string         // the part of it that was taken
    ghost var log: seq<Call>      // public calls so far
    ghost var printed: Printed    // what the plain printer makes of them

    /** How the buffer and the offered chunks represent the text taken so far.
        Only full buffers are flushed, so no chunk is empty. */
    ghost predicate Stored()
      reads `len, `err, `chunks, `out, buf
    {
      && len <= buf.Length
      && out == Flat(chunks) + (if err.SinkFailed? then "" else buf[..len])
      && (forall c :: c in chunks ==> |c| == buf.Length > 0)
      && match sink
         case None => chunks == [] && !err.SinkFailed?
         case Some(s) =>
           && err != NoMemory && (err.SinkFailed? <==> !AllAccepted(s, chunks))
           && OnlyLastRefused(s, chunks)
    }

    ghost predicate Valid()
      reads `len, `err, `chunks, `out, `depth, `want, buf
    {
      && Stored()
      && len <= buf.Length
      && depth <= MAX_DEPTH
      && (err != InvalidArg <==> buf.Length > 0)
      && (err == Ok ==> out == want)
      && (err == NoMemory ==> |want| > buf.Length)
      && out <= want
    }

    /** The writer agrees with the plain printer run over the calls made so far. */
    ghost predicate Coherent()
      reads this, buf
    {
      && Valid()
      && printed == PrintAll(log)
      && (err == Ok ==> printed == Printed(want, needComma, depth, false))
      && (err == InvalidState ==> printed.broken)
      && (err == NoMemory ==> |printed.text| > buf.Length)
      && out <= printed.text
      && (err == InvalidState ==> out == printed.text)
    }

    constructor (buf: array<char>, sink: Option<Sink>)
      ensures Coherent()
      ensures this.buf == buf && this.sink == sink && log == [] && chunks == []
    {
      this.sink := sink;
      this.buf := buf;
      len, needComma, depth, chunks := 0, false, 0, [];
      err := if buf.Length > 0 then Ok else InvalidArg;
      want, out, log, printed := "", "", [], Blank;
    }

    /** Nothing but the text advanced by `s`; a writer that had failed takes no
        more of it. */
    twostate predicate Advanced(s: string)
      reads `err, `out, `depth, `want, `log, `printed
    {
      && want == old(want) + s
      && log == old(log) && printed == old(printed) && depth == old(depth)
      && (old(err) == Ok ==> err == Ok || err == NoMemory || err.SinkFailed?)
      && (old(err) != Ok ==> err == old(err) && out == old(out))
    }

    method Raw(s: string)
      requires Valid()
      modifies this, buf
      ensures Valid() && Advanced(s) && needComma == old(needComma)
    {
      hide Stored;
      want := want + s;
      if err != Ok {
        return;
      }
      var i := 0;
      while i < |s|
        invariant 0 <= i <= |s| && err == Ok && len <= buf.Length && buf.Length > 0
        invariant Stored() && out == old(want) + s[..i]
        invariant want == old(want) + s && needComma == old(needComma)
        invariant log == old(log) && printed == old(printed) && depth == old(depth)
      {
        if len == buf.Length {
          PrefixOfWhole(old(want), s, i);
          if sink.None? {
            OutOfRoom();
            return;
          }
          Flush();
          if err != Ok {
            return;
          }
        }
        i := Copy(s, i);
        assert old(want) + s[..i] == out;
      }
      assert s[..i] == s;
    }

    /** Buffer mode: there is nowhere to put more. */
    method OutOfRoom()
      requires Stored() && err == Ok && sink.None? && len == buf.Length
      modifies `err
      ensures Stored() && err == NoMemory && |out| == buf.Length
    {
      err := NoMemory;
      assert Flat(chunks) == "";
    }

    /** Offer the whole buffer to the sink. */
    method Flush()
      requires Stored() && err == Ok && sink.Some? && len == buf.Length > 0
      modifies `len, `err, `chunks
      ensures Stored() && out == old(out) && len <= buf.Length
      ensures (err == Ok && len == 0) || err.SinkFailed?
    {
      hide AllAccepted, OnlyLastRefused;
      var chunk := buf[..len];
      FlatSnoc(chunks, chunk);
      AcceptedSnoc(sink.value, chunks, chunk);
      chunks := chunks + [chunk];
      var answer := sink.value(chunks);
      if answer.Some? {
        err := SinkFailed(answer.value);
      } else {
        len := 0;
      }
    }

    /** Offer what is left at the end. */
    method FlushRest()
      requires Stored() && err == Ok && sink.Some? && 0 < len
      modifies `len, `err, `chunks
      ensures len == 0 && Flat(chunks) == out
      ensures forall c :: c in chunks ==> 0 < |c| <= buf.Length
      ensures err == Ok || err.SinkFailed?
      ensures err == Ok <==> AllAccepted(sink.value, chunks)
      ensures OnlyLastRefused(sink.value, chunks)
    {
      hide AllAccepted, OnlyLastRefused;
      var chunk := buf[..len];
      FlatSnoc(chunks, chunk);
      AcceptedSnoc(sink.value, chunks, chunk);
      chunks := chunks + [chunk];
      var answer := sink.value(chunks);
      if answer.Some? {
        err := SinkFailed(answer.value);
      }
      len := 0;
    }

    /** Copy as much of s[i..] as the buffer has room for. */
    method Copy(s: string, i: nat) returns (next: nat)
      requires Stored() && err == Ok && len < buf.Length && i < |s|
      modifies `len, `out, buf
      ensures Stored() && len <= buf.Length && i < next <= |s| && out == old(out) + s[i..next]
    {
      var take := if |s| - i < buf.Length - len then |s| - i else buf.Length - len;
      ghost var kept := buf[..len];
      forall k | 0 <= k < take {
        buf[len + k] := s[i + k];
      }
      next := i + take;
      assert buf[..len + take] == kept + s[i..next];
      Associative(Flat(chunks), kept, s[i..next]);
      len := len + take;
      out := out + s[i..next];
    }

    /** Runs of ordinary characters are written in one piece, escapes one by one. */
    method EscapedText(text: Option<cstring>)
      requires Valid()
      modifies this, buf
      ensures Valid() && needComma == old(needComma)
      ensures Advanced(if text.Some? then Escaped(text.value) else "")
    {
      hide Stored;
      hide EscapedChar;
      var s := if text.Some? then text.value else "";
      var run, p := 0, 0;
      while p < |s|
        invariant 0 <= run <= p <= |s| && Plain(s[run..p])
        invariant Valid() && Advanced(Escaped(s[..run])) && needComma == old(needComma)
      {
        var esc := EscapedChar(s[p]);
        if esc != [s[p]] {
          RunThenEscape(old(want), s, run, p);
          if p > run {
            Raw(s[run..p]);
          }
          Raw(esc);
          run := p + 1;
        } else {
          assert s[run..p + 1] == s[run..p] + [s[p]];
        }
        p := p + 1;
      }
      assert s[run..] == s[run..p];
      LastRun(old(want), s, run);
      if run < |s| {
        Raw(s[run..]);
      }
    }

    /** Digits are produced least significant first, then reversed. */
    method IntegerText(val: int64)
      requires Valid()
      modifies this, buf
      ensures Valid() && Advanced(IntText(val)) && needComma == old(needComma)
    {
      hide Stored;
      var text := SignedDigits(val);
      Raw(text);
    }

    method Pre(key: Option<cstring>)
      requires Valid()
      modifies this, buf
      ensures Valid() && Advanced(Lead(old(needComma), key)) && needComma
    {
      hide Stored;
      hide Lead;
      LeadText(want, needComma, key);
      if needComma {
        Raw(",");
      }
      if key.Some? {
        Raw("\"");
        EscapedText(key);
        Raw("\":");
      }
      needComma := true;
    }

    method Refuse()
      requires Valid()
      modifies `err
      ensures Valid() && err == if old(err) == Ok then InvalidState else old(err)
    {
      if err == Ok {
        err := InvalidState;
      }
    }

    method Open(key: Option<cstring>, bracket: Bracket)
      requires Coherent()
      modifies this, buf
      ensures Coherent() && log == old(log) + [Call.Open(key, bracket)]
    {
      hide Stored;
      hide Lead;
      hide PrintAll;
      Record(Call.Open(key, bracket));
      if depth >= MAX_DEPTH {
        Refuse();
        return;
      }
      Pre(key);
      Raw([bracket.OpenChar()]);
      Associative(old(want), Lead(old(needComma), key), [bracket.OpenChar()]);
      depth := depth + 1;
      needComma := false;
    }

    method Close(bracket: Bracket)
      requires Coherent()
      modifies this, buf
      ensures Coherent() && log == old(log) + [Call.Close(bracket)]
    {
      hide Stored;
      Record(Call.Close(bracket));
      if depth == 0 {
        Refuse();
        return;
      }
      Raw([bracket.CloseChar()]);
      depth := depth - 1;
      needComma := true;
    }

    method Str(key: Option<cstring>, text: Option<cstring>)
      requires Coherent()
      modifies this, buf
      ensures Coherent() && log == old(log) + [Call.Str(key, text)]
    {
      hide Stored;
      Record(Call.Str(key, text));
      Pre(key);
      Raw("\"");
      EscapedText(text);
      Raw("\"");
      Associative3(old(want) + Lead(old(needComma), key), "\"",
                   if text.Some? then Escaped(text.value) else "", "\"");
      Associative(old(want), Lead(old(needComma), key), Quoted(text));
    }

    method Int(key: Option<cstring>, val: int64)
      requires Coherent()
      modifies this, buf
      ensures Coherent() && log == old(log) + [Call.Int(key, val)]
    {
      hide Stored;
      Record(Call.Int(key, val));
      Pre(key);
      IntegerText(val);
      Associative(old(want), Lead(old(needComma), key), IntText(val));
    }

    method Bool(key: Option<cstring>, val: bool)
      requires Coherent()
      modifies this, buf
      ensures Coherent() && log == old(log) + [Call.Bool(key, val)]
    {
      hide Stored;
      Record(Call.Bool(key, val));
      Pre(key);
      var text := if val then "true" else "false";
      Raw(text);
      Associative(old(want), Lead(old(needComma), key), text);
    }

    ghost method Record(call: Call)
      requires Coherent()
      modifies `log, `printed
      ensures log == old(log) + [call] && printed == Print1(old(printed), call)
      ensures printed == PrintAll(log) && old(printed).text <= printed.text
      ensures Valid()
    {
      PrintSnoc(Blank, log, call);
      PrintGrows(printed, call);
      log := log + [call];
      printed := Print1(printed, call);
    }

    /** Flush and report. In streaming mode success means the chunks, none of
        them empty, are the printed text; in buffer mode that the text and its
        NUL are in the buffer. Both success conditions are exact. */
    method Finish() returns (r: Status)
      requires Coherent()
      modifies this, buf
      ensures r == err && log == old(log)
      ensures forall c :: c in chunks ==> 0 < |c| <= buf.Length
      ensures Flat(chunks) <= PrintAll(log).text
      ensures sink.Some? ==>
        (r == Ok <==> buf.Length > 0 && Balanced(log) && AllAccepted(sink.value, chunks))
      ensures sink.Some? && r == Ok ==> Flat(chunks) == PrintAll(log).text
      ensures sink.Some? ==> OnlyLastRefused(sink.value, chunks)
      ensures sink.None? ==>
        (r == Ok <==> Balanced(log) && |PrintAll(log).text| + 1 <= buf.Length)
      ensures sink.None? ==> chunks == []
      ensures sink.None? && r == Ok ==>
        len < buf.Length && buf[..len] == PrintAll(log).text && buf[len] == '\0'
    {
      hide AllAccepted, OnlyLastRefused, PrintAll, WithinDepth, Level, Flat;
      BrokenIffDepthLeft(log);
      FlatNothing();
      if err == Ok && depth != 0 {
        err := InvalidState;
      }
      if err == Ok && sink.Some? && len > 0 {
        FlushRest();
      }
      if err == Ok && sink.None? {
        if len < buf.Length {
          buf[len] := '\0';
        } else {
          err := NoMemory;
        }
      }
      r := err;
    }
  }

  /** The body a client of chunked transfer coding (section 7.1 of RFC 9112)
      reassembles: everything up to the first empty chunk, which ends it. */
  function ChunkedBody(wire: seq<string>): Option<string> {
    if wire == [] then None
    else if wire[0] == "" then Some("")
    else
      match ChunkedBody(wire[1..])
      case None => None
      case Some(rest) => Some(wire[0] + rest)
  }

  lemma {:induction false} BodyIsAllChunks(chunks: seq<string>)
    requires forall k :: 0 <= k < |chunks| ==> |chunks[k]| > 0
    ensures ChunkedBody(chunks + [""]) == Some(Flat(chunks))
  {
    if chunks == [] {
      assert chunks + [""] == [""];
    } else {
      assert (chunks + [""])[1..] == chunks[1..] + [""];
      BodyIsAllChunks(chunks[1..]);
      FlatConcat([chunks[0]], chunks[1..]);
      assert [chunks[0]] + chunks[1..] == chunks;
      assert Flat([chunks[0]]) == chunks[0] by {
        FlatSnoc([], chunks[0]);
        assert [] + [chunks[0]] == [chunks[0]];
      }
    }
  }

  lemma FlatNothing()
    ensures Flat<char>([]) == []
  {
  }

  /** The chunks that reach the client: those the server did not refuse. */
  function Received(sink: Sink, offered: seq<string>): seq<string> {
    if offered == [] then []
    else Received(sink, offered[..|offered| - 1]) + if sink(offered) == None then [offered[|offered| - 1]] else []
  }

  lemma {:induction false} ReceivedAll(sink: Sink, chunks: seq<string>)
    requires AllAccepted(sink, chunks)
    ensures Received(sink, chunks) == chunks
  {
    if chunks != [] {
      var front := chunks[..|chunks| - 1];
      assert front + [chunks[|chunks| - 1]] == chunks;
      AcceptedSnoc(sink, front, chunks[|chunks| - 1]);
      ReceivedAll(sink, front);
    }
  }

  /** With only the last chunk refused, what is received is a part from the front. */
  lemma ReceivedFront(sink: Sink, chunks: seq<string>)
    requires OnlyLastRefused(sink, chunks)
    ensures Received(sink, chunks) <= chunks && Flat(Received(sink, chunks)) <= Flat(chunks)
    ensures AllAccepted(sink, chunks) ==> Received(sink, chunks) == chunks
  {
    if AllAccepted(sink, chunks) {
      ReceivedAll(sink, chunks);
    } else {
      var front, last := chunks[..|chunks| - 1], chunks[|chunks| - 1];
      assert front + [last] == chunks;
      forall k | 0 < k <= |front| ensures sink(front[..k]) == None {
        assert front[..k] == chunks[..k];
      }
      AcceptedSnoc(sink, front, last);
      ReceivedAll(sink, front);
      FlatSnoc(front, last);
      assert front + [] == front;
    }
  }

  lemma {:induction false} NeverEnds(chunks: seq<string>)
    requires forall c :: c in chunks ==> |c| > 0
    ensures ChunkedBody(chunks) == None
  {
    if chunks != [] {
      NeverEnds(chunks[1..]);
    }
  }

  /** Ending an HTTP response: flush, then the empty chunk either way. The client
      reassembles a body exactly when the server takes that last one; what it has by
      then is a part of the text from the front, and all of it if the call succeeds. */
  method ResponseEnd(w: Writer) returns (ok: bool, ghost wire: seq<string>)
    requires w.Coherent() && w.sink.Some?
    modifies w, w.buf
    ensures wire == Received(w.sink.value, w.chunks + [""])
    ensures ChunkedBody(wire).Some? <==> w.sink.value(w.chunks + [""]) == None
    ensures ChunkedBody(wire).Some? ==> ChunkedBody(wire).value <= PrintAll(w.log).text
    ensures ok ==> Balanced(w.log) && ChunkedBody(wire) == Some(PrintAll(w.log).text)
    ensures ok <==> w.buf.Length > 0 && Balanced(w.log) && AllAccepted(w.sink.value, w.chunks + [""])
    ensures w.log == old(w.log)
  {
    var status := w.Finish();
    var offered := w.chunks + [""];
    AcceptedSnoc(w.sink.value, w.chunks, "");
    var sent := w.sink.value(offered);
    ok := status == Ok && sent.None?;
    ghost var received := Received(w.sink.value, w.chunks);
    ReceivedFront(w.sink.value, w.chunks);
    assert offered[..|w.chunks|] == w.chunks;
    wire := Received(w.sink.value, offered);
    forall k | 0 <= k < |received| ensures |received[k]| > 0 {
      assert received[k] == w.chunks[k] && w.chunks[k] in w.chunks;
    }
    if sent.None? {
      BodyIsAllChunks(received);
    } else {
      assert received + [] == received;
      NeverEnds(received);
    }
  }

  lemma AcceptedSnoc(sink: Sink, chunks: seq<string>, chunk: string)
    ensures AllAccepted(sink, chunks + [chunk]) <==>
      AllAccepted(sink, chunks) && sink(chunks + [chunk]) == None
    ensures AllAccepted(sink, chunks) ==> OnlyLastRefused(sink, chunks + [chunk])
  {
    var all := chunks + [chunk];
    assert all[..|all|] == all;
    assert forall k :: 0 < k <= |chunks| ==> all[..k] == chunks[..k];
  }

  lemma PrefixOfWhole(a: string, s: string, i: nat)
    requires i <= |s|
    ensures a + s[..i] <= a + s
    ensures i < |s| ==> |a + s[..i]| < |a + s|
  {
  }

  lemma LeadText(before: string, comma: bool, key: Option<cstring>)
    ensures key == None ==> before + Lead(comma, key) == before + (if comma then "," else "")
    ensures key.Some? && comma ==>
      before + Lead(comma, key) == before + "," + "\"" + Escaped(key.value) + "\":"
    ensures key.Some? && !comma ==>
      before + Lead(comma, key) == before + "\"" + Escaped(key.value) + "\":"
  {
    hide Escaped;
    if key.Some? {
      var name := Escaped(key.value);
      assert comma ==> Lead(comma, key) == "," + ("\"" + name + "\":");
      assert !comma ==> Lead(comma, key) == "\"" + name + "\":";
    }
  }

  /** Writing a plain run and then one escaped character extends the escaped text
      from `run` to just past `p`. */
  lemma RunThenEscape(before: string, s: string, run: nat, p: nat)
    requires run <= p < |s| && Plain(s[run..p])
    ensures before + Escaped(s[..run]) + s[run..p] + EscapedChar(s[p])
         == before + Escaped(s[..p + 1])
    ensures p == run ==>
      before + Escaped(s[..run]) + EscapedChar(s[p]) == before + Escaped(s[..p + 1])
  {
    hide EscapedChar;
    EscapedPlain(s[run..p]);
    assert s[..run] + s[run..p] == s[..p];
    EscapedConcat(s[..run], s[run..p]);
    assert s[..p] + [s[p]] == s[..p + 1];
    EscapedSnoc(s[..p], s[p]);
    Regroup(before, Escaped(s[..run]), s[run..p], EscapedChar(s[p]));
  }

  lemma Regroup(a: string, b: string, c: string, d: string)
    ensures a + b + c + d == a + ((b + c) + d)
    ensures c == "" ==> a + b + d == a + ((b + c) + d)
  {
  }

  lemma LastRun(before: string, s: string, run: nat)
    requires run <= |s| && Plain(s[run..])
    ensures before + Escaped(s[..run]) + s[run..] == before + Escaped(s)
    ensures run == |s| ==> before + Escaped(s[..run]) == before + Escaped(s)
  {
    hide Escaped, EscapedChar;
    EscapedPlain(s[run..]);
    EscapedConcat(s[..run], s[run..]);
    assert s[..run] + s[run..] == s;
    Associative(before, Escaped(s[..run]), s[run..]);
  }

  const TWO64: nat := 0x1_0000_0000_0000_0000

  /** Digits least significant first, as repeated division by ten yields them. */
  method LowDigitsFirst(magnitude: nat, digits: array<char>) returns (n: nat)
    requires digits.Length > 0 && magnitude < Pow10(digits.Length)
    modifies digits
    ensures 1 <= n <= digits.Length && Backwards(digits[..n]) == Dec(magnitude)
  {
    hide Dec;
    var u: nat := magnitude;
    var more := true;
    n := 0;
    while more
      invariant 0 <= n <= digits.Length && u < Pow10(digits.Length - n)
      invariant more <==> n == 0 || u != 0
      invariant Dec(magnitude) == (if more then Dec(u) else "") + Backwards(digits[..n])
      decreases more, u
    {
      ghost var kept := digits[..n];
      DecStep(u, Backwards(kept));
      digits[n] := DigitChar(u % 10);
      assert digits[..n + 1] == kept + [digits[n]];
      BackwardsSnoc(kept, digits[n]);
      n := n + 1;
      u := u / 10;
      more := u != 0;
    }
  }

  lemma DecStep(u: nat, tail: string)
    ensures Dec(u) + tail == (if u < 10 then "" else Dec(u / 10)) + ([DigitChar(u % 10)] + tail)
  {
    Associative(if u < 10 then "" else Dec(u / 10), [DigitChar(u % 10)], tail);
    assert "" + [DigitChar(u % 10)] == [DigitChar(u % 10)];
  }

  /** Append the digits to out[..start] in reading order. */
  method AppendBackwards(digits: array<char>, count: nat, out: array<char>, start: nat) returns (end: nat)
    requires digits != out && count <= digits.Length && start + count <= out.Length
    modifies out
    ensures end == start + count && out[..end] == old(out[..start]) + Backwards(digits[..count])
  {
    var n, j := count, start;
    while n > 0
      invariant 0 <= n <= count && j + n == start + count
      invariant out[..j] + Backwards(digits[..n]) == old(out[..start]) + Backwards(digits[..count])
    {
      n := n - 1;
      ghost var kept := out[..j];
      assert digits[..n + 1] == digits[..n] + [digits[n]];
      BackwardsSnoc(digits[..n], digits[n]);
      out[j] := digits[n];
      assert out[..j + 1] == kept + [digits[n]];
      Associative(kept, [digits[n]], Backwards(digits[..n]));
      j := j + 1;
    }
    end := j;
  }

  /** The magnitude in 64-bit unsigned arithmetic: cast, complement, increment,
      all modulo 2^64, so that the smallest integer does not overflow. */
  function Magnitude(val: int64): (u: nat)
    ensures u == (if val < 0 then -(val as int) else val as int) < TWO64
  {
    var cast := if val < 0 then val as int + TWO64 else val as int;
    if val < 0 then ((TWO64 - 1 - cast) + 1) % TWO64 else cast
  }

  method SignedDigits(val: int64) returns (text: string)
    ensures text == IntText(val)
  {
    hide Dec;
    hide Pow10;
    var digits, out := new char[20], new char[21];
    Pow10Twenty();
    var n := LowDigitsFirst(Magnitude(val), digits);
    var j := 0;
    if val < 0 {
      out[0] := '-';
      j := 1;
    }
    assert out[..j] == if val < 0 then "-" else "";
    j := AppendBackwards(digits, n, out, j);
    text := out[..j];
  }

  function Backwards(s: string): (r: string)
    ensures |r| == |s|
  {
    if s == [] then [] else [s[|s| - 1]] + Backwards(s[..|s| - 1])
  }

  lemma BackwardsSnoc(s: string, c: char)
    ensures Backwards(s + [c]) == [c] + Backwards(s)
  {
    assert (s + [c])[..|s|] == s;
  }

  lemma Pow10Twenty()
    ensures Pow10(20) == 100_000_000_000_000_000_000
  {
    assert Pow10(10) == 10_000_000_000;
  }
}
