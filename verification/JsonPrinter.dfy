/** A plain, unbuffered JSON printer over a log of writer calls: the meaning the
    streaming writer of src/esp_wifi_config_json.c is proved to have. */
module JsonPrinter {
  import opened Common
  import opened Decimal

  const MAX_DEPTH: nat := 8

  datatype Bracket = Curly | Square {
    function OpenChar(): char { if Curly? then '{' else '[' }
    function CloseChar(): char { if Curly? then '}' else ']' }
  }

  /** One call of the public writer interface. A key of None is C's NULL. */
  datatype Call =
    | Open(key: Option<cstring>, bracket: Bracket)
    | Close(bracket: Bracket)
    | Str(key: Option<cstring>, text: Option<cstring>)
    | Int(key: Option<cstring>, number: int64)
    | Bool(key: Option<cstring>, truth: bool)

  // ---------------------------------------------------------------- escaping

  /** How one character appears inside a JSON string: the seven short escapes,
      \u00xx in lower case below 0x20, everything else verbatim. */
  function EscapedChar(c: char): string {
    if c == '\\' then "\\\\"
    else if c == '\"' then "\\\""
    else if c == 8 as char then "\\b"
    else if c == 12 as char then "\\f"
    else if c == '\n' then "\\n"
    else if c == '\r' then "\\r"
    else if c == '\t' then "\\t"
    else if c < 0x20 as char then
      "\\u00" + [HexDigit(c as int / 16, 'a'), HexDigit(c as int % 16, 'a')]
    else [c]
  }

  /** Exactly the characters that section 7 of RFC 8259 requires are escaped, those with
      a short escape by two characters and the other control characters by six. */
  lemma EscapesExactly(c: char)
    ensures EscapedChar(c) == [c] <==> c >= ' ' && c != '\"' && c != '\\'
    ensures EscapedChar(c) != [c] ==> EscapedChar(c)[0] == '\\'
    ensures |EscapedChar(c)| == 2 <==> c in {'\"', '\\', '\n', '\r', '\t', 8 as char, 12 as char}
    ensures |EscapedChar(c)| in {1, 2, 6}
  {
  }

  function Escaped(s: string): string {
    if s == [] then [] else Escaped(s[..|s| - 1]) + EscapedChar(s[|s| - 1])
  }

  predicate Plain(s: string) {
    forall i :: 0 <= i < |s| ==> EscapedChar(s[i]) == [s[i]]
  }

  lemma EscapedSnoc(s: string, c: char)
    ensures Escaped(s + [c]) == Escaped(s) + EscapedChar(c)
  {
    assert (s + [c])[..|s|] == s;
  }

  lemma {:induction false} EscapedConcat(a: string, b: string)
    ensures Escaped(a + b) == Escaped(a) + Escaped(b)
  {
    if b == [] {
      assert a + b == a;
    } else {
      hide EscapedChar;
      var front, last := b[..|b| - 1], b[|b| - 1];
      assert a + b == (a + front) + [last] && b == front + [last];
      EscapedSnoc(a + front, last);
      EscapedSnoc(front, last);
      EscapedConcat(a, front);
      Associative(Escaped(a), Escaped(front), EscapedChar(last));
    }
  }

  /** A run of characters none of which needs escaping is its own escaped form. */
  lemma {:induction false} EscapedPlain(s: string)
    requires Plain(s)
    ensures Escaped(s) == s
  {
    if s != [] {
      EscapedPlain(s[..|s| - 1]);
      assert s[..|s| - 1] + [s[|s| - 1]] == s;
    }
  }

  // ------------------------------------------------------------ the printer

  /** What has been printed, whether a sibling would need a comma, how many
      containers are open, and whether a call broke the nesting rules (after
      which nothing more is printed). */
  datatype Printed = Printed(text: string, comma: bool, depth: nat, broken: bool)

  const Blank: Printed := Printed("", false, 0, false)

  /** The text before a value: a comma after a sibling, then the key if any. */
  function Lead(comma: bool, key: Option<cstring>): string {
    (if comma then "," else "") + match key {
      case None => ""
      case Some(k) => "\"" + Escaped(k) + "\":"
    }
  }

  function Quoted(text: Option<cstring>): string {
    "\"" + (if text.Some? then Escaped(text.value) else "") + "\""
  }

  /** The characters one call adds when it is not refused. */
  function CallText(comma: bool, call: Call): string {
    match call
    case Open(key, b) => Lead(comma, key) + [b.OpenChar()]
    case Close(b) => [b.CloseChar()]
    case Str(key, t) => Lead(comma, key) + Quoted(t)
    case Int(key, v) => Lead(comma, key) + IntText(v)
    case Bool(key, t) => Lead(comma, key) + if t then "true" else "false"
  }

  predicate Refused(depth: nat, call: Call) {
    (call.Open? && depth >= MAX_DEPTH) || (call.Close? && depth == 0)
  }

  function Print1(p: Printed, call: Call): Printed {
    if p.broken then p
    else if Refused(p.depth, call) then p.(broken := true)
    else
      Printed(p.text + CallText(p.comma, call), !call.Open?,
              if call.Open? then p.depth + 1 else if call.Close? then p.depth - 1 else p.depth,
              false)
  }

  function PrintFrom(p: Printed, calls: seq<Call>): Printed {
    if calls == [] then p else Print1(PrintFrom(p, calls[..|calls| - 1]), calls[|calls| - 1])
  }

  function PrintAll(calls: seq<Call>): Printed {
    PrintFrom(Blank, calls)
  }

  lemma PrintSnoc(p: Printed, calls: seq<Call>, call: Call)
    ensures PrintFrom(p, calls + [call]) == Print1(PrintFrom(p, calls), call)
  {
    assert (calls + [call])[..|calls|] == calls;
  }

  /** A null string is written as an empty one. */
  lemma NullIsEmpty(comma: bool, key: Option<cstring>)
    ensures CallText(comma, Call.Str(key, None)) == CallText(comma, Call.Str(key, Some("")))
    ensures CallText(comma, Call.Str(key, None)) == Lead(comma, key) + "\"\""
  {
    assert "\"" + "" + "\"" == "\"\"";
  }

  /** No call ever takes back what was printed. */
  lemma PrintGrows(p: Printed, call: Call)
    ensures p.text <= Print1(p, call).text
  {
  }

  lemma {:induction false} PrintConcat(p: Printed, a: seq<Call>, b: seq<Call>)
    ensures PrintFrom(p, a + b) == PrintFrom(PrintFrom(p, a), b)
  {
    if b == [] {
      assert a + b == a;
    } else {
      var front, last := b[..|b| - 1], b[|b| - 1];
      assert a + b == (a + front) + [last];
      PrintSnoc(p, a + front, last);
      PrintConcat(p, a, front);
    }
  }

  // ---------------------------------------------------- balanced containers

  /** Containers opened minus containers closed. */
  function Level(calls: seq<Call>): int {
    if calls == [] then 0
    else
      var last := calls[|calls| - 1];
      Level(calls[..|calls| - 1]) + (if last.Open? then 1 else if last.Close? then -1 else 0)
  }

  /** Every prefix keeps between 0 and MAX_DEPTH containers open. */
  predicate WithinDepth(calls: seq<Call>) {
    forall k :: 0 <= k <= |calls| ==> 0 <= Level(calls[..k]) <= MAX_DEPTH
  }

  predicate Balanced(calls: seq<Call>) {
    WithinDepth(calls) && Level(calls) == 0
  }

  lemma WithinDepthSnoc(calls: seq<Call>, last: Call)
    ensures WithinDepth(calls + [last]) <==>
      WithinDepth(calls) && 0 <= Level(calls + [last]) <= MAX_DEPTH
  {
    var all := calls + [last];
    assert all[..|all|] == all;
    assert forall k :: 0 <= k <= |calls| ==> all[..k] == calls[..k];
  }

  /** The printer refuses a call exactly when the nesting leaves [0, MAX_DEPTH]. */
  lemma {:induction false} BrokenIffDepthLeft(calls: seq<Call>)
    ensures PrintAll(calls).broken <==> !WithinDepth(calls)
    ensures !PrintAll(calls).broken ==> PrintAll(calls).depth == Level(calls)
  {
    hide CallText;
    hide WithinDepth;
    if calls == [] {
      assert WithinDepth([]) by { Nothing(); }
    } else {
      var front, last := calls[..|calls| - 1], calls[|calls| - 1];
      assert calls == front + [last];
      BrokenIffDepthLeft(front);
      WithinDepthSnoc(front, last);
      WithinDepthEnd(front);
    }
  }

  lemma Nothing()
    ensures WithinDepth([])
  {
  }

  lemma WithinDepthEnd(calls: seq<Call>)
    ensures WithinDepth(calls) ==> 0 <= Level(calls) <= MAX_DEPTH
  {
    assert calls[..|calls|] == calls;
  }
}
