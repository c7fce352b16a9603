/** Answering with a JSON tree, end to end: the streaming writer driven over the
    tree (src/esp_wifi_config_json.c), the response ended
    (src/esp_wifi_config_http.c), and the body the client parses. */
module JsonResponse {
  import opened Common
  import opened JsonText
  import opened JsonRoundTrip
  import opened JsonWriter
  import P = JsonPrinter

  /** The calls a handler makes for a tree. */
  method Write(w: Writer, t: Json, key: Option<cstring>)
    requires w.Coherent() && Writable(t)
    modifies w, w.buf
    ensures w.Coherent() && w.log == old(w.log) + Drive(t, key)
    decreases t, 0
  {
    match t {
      case Bool(b) => w.Bool(key, b);
      case Int(v) => w.Int(key, v);
      case Str(text) => w.Str(key, Some(text));
      case Arr(items) =>
        w.Open(key, P.Square);
        WriteItems(w, items);
        w.Close(P.Square);
        Regrouped(old(w.log), [P.Call.Open(key, P.Square)], DriveItems(items), [P.Call.Close(P.Square)]);
      case Obj(members) =>
        w.Open(key, P.Curly);
        WriteMembers(w, members);
        w.Close(P.Curly);
        Regrouped(old(w.log), [P.Call.Open(key, P.Curly)], DriveMembers(members), [P.Call.Close(P.Curly)]);
    }
  }

  method WriteItems(w: Writer, items: seq<Json>)
    requires w.Coherent() && WritableItems(items)
    modifies w, w.buf
    ensures w.Coherent() && w.log == old(w.log) + DriveItems(items)
    decreases items
  {
    if items == [] {
      assert w.log + [] == w.log;
      return;
    }
    Write(w, items[0], None);
    WriteItems(w, items[1..]);
    Associative(old(w.log), Drive(items[0], None), DriveItems(items[1..]));
  }

  method WriteMembers(w: Writer, members: seq<Member>)
    requires w.Coherent() && WritableMembers(members)
    modifies w, w.buf
    ensures w.Coherent() && w.log == old(w.log) + DriveMembers(members)
    decreases members
  {
    if members == [] {
      assert w.log + [] == w.log;
      return;
    }
    var m := members[0];
    Write(w, m.value, Some(m.name));
    WriteMembers(w, members[1..]);
    Associative(old(w.log), Drive(m.value, Some(m.name)), DriveMembers(members[1..]));
  }

  lemma Regrouped(a: seq<P.Call>, b: seq<P.Call>, c: seq<P.Call>, d: seq<P.Call>)
    ensures a + b + c + d == a + (b + c + d)
  {
  }

  lemma DrivenIsBalanced(t: Json)
    requires Writable(t) && Depth(t) <= 8
    ensures P.Balanced(Drive(t, None)) && ParseText(P.PrintAll(Drive(t, None)).text) == Some(t)
  {
    RoundTrip(t);
    P.BrokenIffDepthLeft(Drive(t, None));
  }

  /** Over HTTP: for every tree within the depth limit, every buffer and every server,
      the call succeeds exactly when there is a buffer and the server takes every
      chunk, and then the client parses the tree. */
  method Respond(w: Writer, t: Json) returns (ok: bool, ghost wire: seq<string>)
    requires w.Coherent() && w.log == [] && w.sink.Some?
    requires Writable(t) && Depth(t) <= 8
    modifies w, w.buf
    ensures wire == Received(w.sink.value, w.chunks + [""])
    ensures ok <==> w.buf.Length > 0 && AllAccepted(w.sink.value, w.chunks + [""])
    ensures ok ==> ChunkedBody(wire).Some? && ParseText(ChunkedBody(wire).value) == Some(t)
  {
    Write(w, t, None);
    assert [] + Drive(t, None) == Drive(t, None);
    DrivenIsBalanced(t);
    hide *;
    ok, wire := ResponseEnd(w);
  }

  /** Into a buffer: success exactly when the compact text and its NUL fit, and then
      what is there parses to the tree. */
  method Store(w: Writer, t: Json) returns (r: Status)
    requires w.Coherent() && w.log == [] && w.sink.None?
    requires Writable(t) && Depth(t) <= 8
    modifies w, w.buf
    ensures r == Ok <==> |Text(t)| + 1 <= w.buf.Length
    ensures r == Ok ==> w.len < w.buf.Length && w.buf[w.len] == '\0' && ParseText(w.buf[..w.len]) == Some(t)
  {
    Write(w, t, None);
    assert [] + Drive(t, None) == Drive(t, None);
    DrivenIsBalanced(t);
    DrivenText(t);
    hide *;
    r := w.Finish();
  }

  lemma DrivenText(t: Json)
    requires Writable(t) && Depth(t) <= 8
    ensures P.PrintAll(Drive(t, None)).text == Text(t)
  {
    DrivePrints(P.Blank, t, None);
    assert P.Lead(false, None) == "";
  }
}
