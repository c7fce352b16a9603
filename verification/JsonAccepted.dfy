/** Whatever calls are made, the writer's text is accepted by the nesting scan:
    the scanner's depth is the writer's depth after every call. */
module JsonAccepted {
  import opened Common
  import opened Decimal
  import opened JsonPrinter
  import opened JsonDepth

  function ScanAll(st: Scan, s: string): Scan {
    ScanRange(st, s, 0, |s|)
  }

  lemma {:induction false} ScanSame(st: Scan, s: string, i: nat, t: string, j: nat, n: nat)
    requires i + n <= |s| && j + n <= |t|
    requires s[i..i + n] == t[j..j + n]
    ensures ScanRange(st, s, i, i + n) == ScanRange(st, t, j, j + n)
    decreases n
  {
    if n > 0 {
      assert s[i..i + n][0] == t[j..j + n][0];
      assert s[i + 1..i + n] == s[i..i + n][1..] == t[j..j + n][1..] == t[j + 1..j + n];
      ScanSame(ScanChar(st, s[i]), s, i + 1, t, j + 1, n - 1);
    }
  }

  lemma ScanConcat(st: Scan, a: string, b: string)
    ensures ScanAll(st, a + b) == ScanAll(ScanAll(st, a), b)
  {
    ScanSplit(st, a + b, 0, |a|, |a + b|);
    ScanSame(st, a + b, 0, a, 0, |a|);
    ScanSame(ScanAll(st, a), a + b, |a|, b, 0, |b|);
  }

  lemma ScanOne(st: Scan, c: char)
    ensures ScanAll(st, [c]) == ScanChar(st, c)
  {
    assert ScanRange(ScanChar(st, c), [c], 1, 1) == ScanChar(st, c);
  }

  lemma ScanEscapedChar(d: nat, c: char)
    ensures ScanAll(Inside(d), EscapedChar(c)) == Inside(d)
  {
    var esc := EscapedChar(c);
    if esc == [c] {
      ScanOne(Inside(d), c);
    } else {
      ScanConcat(Inside(d), [esc[0]], esc[1..]);
      assert [esc[0]] + esc[1..] == esc;
      ScanOne(Inside(d), esc[0]);
      ScanConcat(Inside(d).(skip := true), [esc[1]], esc[2..]);
      assert [esc[1]] + esc[2..] == esc[1..];
      ScanOne(Inside(d).(skip := true), esc[1]);
      ScanInertInside(esc[2..], 0, |esc[2..]|, d);
    }
  }

  lemma {:induction false} ScanEscaped(d: nat, s: string)
    ensures ScanAll(Inside(d), Escaped(s)) == Inside(d)
  {
    hide EscapedChar;
    if s != [] {
      var front, last := s[..|s| - 1], s[|s| - 1];
      ScanEscaped(d, front);
      ScanEscapedChar(d, last);
      ScanConcat(Inside(d), Escaped(front), EscapedChar(last));
    }
  }

  lemma ScanQuotedText(d: nat, s: string)
    ensures ScanAll(Outside(d), "\"" + Escaped(s) + "\"") == Outside(d)
  {
    hide Escaped;
    ScanOne(Outside(d), '\"');
    ScanConcat(Outside(d), "\"", Escaped(s));
    ScanEscaped(d, s);
    ScanConcat(Outside(d), "\"" + Escaped(s), "\"");
    ScanOne(Inside(d), '\"');
  }

  lemma ScanLead(d: nat, comma: bool, key: Option<cstring>)
    ensures ScanAll(Outside(d), Lead(comma, key)) == Outside(d)
  {
    hide Escaped;
    var first := if comma then "," else "";
    ScanInert(first, 0, |first|, d);
    if key.Some? {
      var name := "\"" + Escaped(key.value) + "\"";
      assert Lead(comma, key) == first + (name + ":");
      ScanConcat(Outside(d), first, name + ":");
      ScanConcat(Outside(d), name, ":");
      ScanQuotedText(d, key.value);
      ScanOne(Outside(d), ':');
    } else {
      assert Lead(comma, key) == first;
    }
  }

  lemma ScanInteger(d: nat, v: int)
    ensures ScanAll(Outside(d), IntText(v)) == Outside(d)
  {
    hide Dec;
    DecReadsBack(if v < 0 then -v else v);
    ScanInert(IntText(v), 0, |IntText(v)|, d);
  }

  lemma ScanToken(d: nat, call: Call)
    requires call.Str? || call.Int? || call.Bool?
    ensures ScanAll(Outside(d), CallText(false, call)[|Lead(false, call.key)|..]) == Outside(d)
  {
    hide Lead;
    hide Escaped;
    match call
    case Str(key, text) =>
      var s := if text.Some? then text.value else "";
      ScanQuotedText(d, s);
      assert Escaped("") == "" by { EmptyEscaped(); }
      assert CallText(false, call)[|Lead(false, key)|..] == "\"" + Escaped(s) + "\"";
    case Int(key, v) =>
      ScanInteger(d, v);
      assert CallText(false, call)[|Lead(false, key)|..] == IntText(v);
    case Bool(key, b) =>
      var word := if b then "true" else "false";
      ScanInert(word, 0, |word|, d);
      assert CallText(false, call)[|Lead(false, key)|..] == word;
  }

  lemma EmptyEscaped()
    ensures Escaped("") == ""
  {
  }

  /** One accepted call moves the scanner's depth exactly as it moves the writer's. */
  lemma ScanCall(d: nat, comma: bool, call: Call)
    requires !Refused(d, call) && d <= MAX_DEPTH
    ensures ScanAll(Outside(d), CallText(comma, call)) ==
      Outside(if call.Open? then d + 1 else if call.Close? then d - 1 else d)
  {
    hide Lead;
    hide Quoted;
    hide IntText;
    match call
    case Open(key, b) =>
      ScanLead(d, comma, key);
      ScanConcat(Outside(d), Lead(comma, key), [b.OpenChar()]);
      ScanOne(Outside(d), b.OpenChar());
    case Close(b) =>
      ScanOne(Outside(d), b.CloseChar());
    case _ =>
      var token := CallText(false, call)[|Lead(false, call.key)|..];
      ScanLead(d, comma, call.key);
      ScanToken(d, call);
      assert CallText(comma, call) == Lead(comma, call.key) + token;
      ScanConcat(Outside(d), Lead(comma, call.key), token);
  }

  /** For every sequence of calls, well matched or not. */
  lemma {:induction false} WriterTextAccepted(calls: seq<Call>)
    ensures Accepts(PrintAll(calls).text)
    ensures ScanAll(Start, PrintAll(calls).text) == Outside(PrintAll(calls).depth)
    ensures PrintAll(calls).depth <= MAX_DEPTH
  {
    hide CallText;
    if calls != [] {
      var p := PrintAll(calls[..|calls| - 1]);
      var call := calls[|calls| - 1];
      WriterTextAccepted(calls[..|calls| - 1]);
      if !p.broken && !Refused(p.depth, call) {
        ScanCall(p.depth, p.comma, call);
        ScanConcat(Start, p.text, CallText(p.comma, call));
      }
    }
  }
}
