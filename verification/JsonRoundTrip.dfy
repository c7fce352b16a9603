/** Driving the writer over a JSON tree yields text that the RFC 8259 parser maps
    back to the same tree. */
module JsonRoundTrip {
  import opened Common
  import opened Decimal
  import opened JsonText
  import P = JsonPrinter

  /** The trees the writer can be driven over: C strings, 64-bit integers and
      booleans in objects and arrays. It has no call for null or fractions. */
  predicate Writable(t: Json) {
    match t
    case Null => false
    case Bool(_) => true
    case Int(v) => -0x8000_0000_0000_0000 <= v < 0x8000_0000_0000_0000
    case Real(_) => false
    case Str(text) => '\0' !in text
    case Arr(items) => WritableItems(items)
    case Obj(members) => WritableMembers(members)
  }

  predicate WritableItems(items: seq<Json>) {
    items == [] || (Writable(items[0]) && WritableItems(items[1..]))
  }

  predicate WritableMembers(members: seq<Member>) {
    members == [] ||
    ('\0' !in members[0].name && Writable(members[0].value) && WritableMembers(members[1..]))
  }

  // -------------------------------------------------- the calls, and the text

  /** The calls that write `t`, as a value in an array (no key) or in an object. */
  function Drive(t: Json, key: Option<cstring>): seq<P.Call>
    requires Writable(t)
    decreases t, 0
  {
    match t
    case Bool(b) => [P.Call.Bool(key, b)]
    case Int(v) => [P.Call.Int(key, v)]
    case Str(text) => [P.Call.Str(key, Some(text))]
    case Arr(items) => [P.Call.Open(key, P.Square)] + DriveItems(items) + [P.Call.Close(P.Square)]
    case Obj(members) => [P.Call.Open(key, P.Curly)] + DriveMembers(members) + [P.Call.Close(P.Curly)]
  }

  function DriveItems(items: seq<Json>): seq<P.Call>
    requires WritableItems(items)
  {
    if items == [] then [] else Drive(items[0], None) + DriveItems(items[1..])
  }

  function DriveMembers(members: seq<Member>): seq<P.Call>
    requires WritableMembers(members)
  {
    if members == [] then []
    else Drive(members[0].value, Some(members[0].name)) + DriveMembers(members[1..])
  }

  /** Compact JSON text of a tree, by plain recursion. */
  function Text(t: Json): string {
    match t
    case Null => "null"
    case Bool(b) => if b then "true" else "false"
    case Int(v) => IntText(v)
    case Real(lexeme) => lexeme
    case Str(text) => Name(text)
    case Arr(items) => "[" + ItemsText(items) + "]"
    case Obj(members) => "{" + MembersText(members) + "}"
  }

  function Name(text: string): string {
    "\"" + P.Escaped(text) + "\""
  }

  function ItemsText(items: seq<Json>): string {
    if items == [] then ""
    else if |items| == 1 then Text(items[0])
    else Text(items[0]) + "," + ItemsText(items[1..])
  }

  function MembersText(members: seq<Member>): string {
    if members == [] then ""
    else if |members| == 1 then MemberText(members[0])
    else MemberText(members[0]) + "," + MembersText(members[1..])
  }

  function MemberText(m: Member): string {
    Name(m.name) + ":" + Text(m.value)
  }

  // ------------------------------------------------ the writer prints the text

  function After(p: P.Printed, piece: string): P.Printed {
    P.Printed(p.text + piece, true, p.depth, false)
  }

  lemma {:induction false} DrivePrints(p: P.Printed, t: Json, key: Option<cstring>)
    requires Writable(t) && !p.broken && p.depth + Depth(t) <= P.MAX_DEPTH
    ensures P.PrintFrom(p, Drive(t, key)) == After(p, P.Lead(p.comma, key) + Text(t))
    decreases t
  {
    hide P.Lead;
    hide P.Escaped;
    hide P.PrintFrom;
    match t
    case Arr(items) =>
      var q := P.Print1(p, P.Call.Open(key, P.Square));
      DriveItemsPrints(q, items);
      ContainerPrints(p, key, P.Square, DriveItems(items), ItemsText(items));
    case Obj(members) =>
      var q := P.Print1(p, P.Call.Open(key, P.Curly));
      DriveMembersPrints(q, members);
      ContainerPrints(p, key, P.Curly, DriveMembers(members), MembersText(members));
    case Bool(b) =>
      PrintOne(p, P.Call.Bool(key, b));
    case Int(v) =>
      PrintOne(p, P.Call.Int(key, v));
    case Str(text) =>
      PrintOne(p, P.Call.Str(key, Some(text)));
    case Null =>
    case Real(_) =>
  }

  /** A bracket pair around calls that print `body` inside it. */
  lemma ContainerPrints(p: P.Printed, key: Option<cstring>, bracket: P.Bracket, inner: seq<P.Call>, body: string)
    requires !p.broken && p.depth < P.MAX_DEPTH
    requires var q := P.Print1(p, P.Call.Open(key, bracket));
      P.PrintFrom(q, inner) == After(q, body) || (body == "" && P.PrintFrom(q, inner) == q)
    ensures P.PrintFrom(p, [P.Call.Open(key, bracket)] + inner + [P.Call.Close(bracket)])
         == After(p, P.Lead(p.comma, key) + ([bracket.OpenChar()] + body + [bracket.CloseChar()]))
  {
    hide P.Lead;
    var open := P.Call.Open(key, bracket);
    PrintOne(p, open);
    P.PrintConcat(p, [open], inner);
    P.PrintSnoc(p, [open] + inner, P.Call.Close(bracket));
    Bracketed(p.text, P.Lead(p.comma, key), [bracket.OpenChar()], body, [bracket.CloseChar()]);
  }

  lemma PrintOne(p: P.Printed, call: P.Call)
    ensures P.PrintFrom(p, [call]) == P.Print1(p, call)
  {
    assert [call][..0] == [];
  }

  lemma Bracketed(a: string, lead: string, open: string, body: string, close: string)
    ensures (a + (lead + open)) + body + close == a + (lead + (open + body + close))
    ensures body == "" ==> (a + (lead + open)) + close == a + (lead + (open + body + close))
  {
  }

  /** The text and comma state after a list of siblings. */
  function Siblings(p: P.Printed, empty: bool, body: string): P.Printed {
    if empty then p else After(p, (if p.comma then "," else "") + body)
  }

  lemma {:induction false} DriveItemsPrints(p: P.Printed, items: seq<Json>)
    requires WritableItems(items) && !p.broken && p.depth + ItemsDepth(items) <= P.MAX_DEPTH
    ensures P.PrintFrom(p, DriveItems(items)) == Siblings(p, items == [], ItemsText(items))
    decreases items
  {
    if items != [] {
      var head, rest := Drive(items[0], None), DriveItems(items[1..]);
      DrivePrints(p, items[0], None);
      P.PrintConcat(p, head, rest);
      var q := P.PrintFrom(p, head);
      DriveItemsPrints(q, items[1..]);
      assert P.Lead(p.comma, None) == if p.comma then "," else "";
      Chain(p.text, P.Lead(p.comma, None), Text(items[0]), ItemsText(items[1..]));
      if |items| == 1 {
        assert rest == [];
      }
    }
  }

  lemma {:induction false} DriveMembersPrints(p: P.Printed, members: seq<Member>)
    requires WritableMembers(members) && !p.broken
    requires p.depth + MembersDepth(members) <= P.MAX_DEPTH
    ensures P.PrintFrom(p, DriveMembers(members)) == Siblings(p, members == [], MembersText(members))
    decreases members
  {
    hide P.Escaped;
    if members != [] {
      var m := members[0];
      var head, rest := Drive(m.value, Some(m.name)), DriveMembers(members[1..]);
      DrivePrints(p, m.value, Some(m.name));
      P.PrintConcat(p, head, rest);
      var q := P.PrintFrom(p, head);
      DriveMembersPrints(q, members[1..]);
      LeadMember(p.comma, m);
      Chain(p.text, if p.comma then "," else "", MemberText(m), MembersText(members[1..]));
      if |members| == 1 {
        assert rest == [];
      }
    }
  }

  lemma LeadMember(comma: bool, m: Member)
    requires '\0' !in m.name
    ensures P.Lead(comma, Some(m.name)) + Text(m.value) == (if comma then "," else "") + MemberText(m)
  {
    hide P.Escaped;
    hide Text;
    var name := P.Escaped(m.name);
    assert "\"" + name + "\":" == ("\"" + name + "\"") + ":";
    Associative(if comma then "," else "", "\"" + name + "\":", Text(m.value));
  }

  lemma Chain(a: string, comma: string, x: string, y: string)
    ensures (a + (comma + x)) + ("," + y) == a + (comma + (x + "," + y))
  {
  }

  // ------------------------------------------------- reading the text back

  /** What may follow a value in the printed text. */
  predicate Follow(s: string, j: nat) {
    j >= |s| || s[j] == ',' || s[j] == ']' || s[j] == '}'
  }

  lemma AtSplit(s: string, i: nat, a: string, b: string)
    requires At(s, i, a + b)
    ensures At(s, i, a) && At(s, i + |a|, b) && i + |a + b| <= |s|
  {
    assert (a + b)[..|a|] == a && (a + b)[|a|..] == b;
    assert s[i..i + |a + b|][..|a|] == s[i..i + |a|];
    assert s[i..i + |a + b|][|a|..] == s[i + |a|..i + |a| + |b|];
  }

  lemma AtChar(s: string, i: nat, piece: string, k: nat)
    requires At(s, i, piece) && k < |piece|
    ensures i + k < |s| && s[i + k] == piece[k]
  {
    assert s[i..i + |piece|][k] == s[i + k];
  }

  /** An escape sequence printed for one character denotes that character. */
  lemma UnescapeInverts(s: string, i: nat, c: char)
    requires P.EscapedChar(c) != [c] && At(s, i, P.EscapedChar(c))
    ensures s[i] == '\\' && Unescape(s, i) == Some(([c], i + |P.EscapedChar(c)|))
  {
    var esc := P.EscapedChar(c);
    AtChar(s, i, esc, 0);
    AtChar(s, i, esc, 1);
    if |esc| == 6 {
      AtChar(s, i, esc, 2);
      AtChar(s, i, esc, 3);
      AtChar(s, i, esc, 4);
      AtChar(s, i, esc, 5);
      var u := c as int;
      assert HexValue(HexDigit(u / 16, 'a')) == u / 16;
      assert HexValue(HexDigit(u % 16, 'a')) == u % 16;
      assert Hex4(s, i + 2) == Some(u);
    }
  }

  lemma VerbatimChar(c: char)
    requires P.EscapedChar(c) == [c]
    ensures c >= ' ' && c != '\"' && c != '\\'
  {
  }

  lemma {:induction false} CharsReadBack(s: string, i: nat, text: string)
    requires At(s, i, P.Escaped(text) + "\"")
    ensures ParseChars(s, i) == Some((text, i + |P.Escaped(text)| + 1))
    decreases |text|
  {
    hide P.EscapedChar;
    hide Unescape;
    var all := P.Escaped(text) + "\"";
    if text == [] {
      AtChar(s, i, all, 0);
    } else {
      var c, rest := text[0], text[1..];
      assert [c] + rest == text;
      P.EscapedConcat([c], rest);
      assert P.Escaped([c]) == P.EscapedChar(c) by {
        P.EscapedSnoc([], c);
        assert [] + [c] == [c];
      }
      var esc := P.EscapedChar(c);
      Associative(esc, P.Escaped(rest), "\"");
      AtSplit(s, i, esc, P.Escaped(rest) + "\"");
      CharsReadBack(s, i + |esc|, rest);
      if esc == [c] {
        VerbatimChar(c);
        AtChar(s, i, esc, 0);
      } else {
        UnescapeInverts(s, i, c);
        NotControl(s[i]);
      }
    }
  }

  lemma NotControl(c: char)
    requires c == '\\'
    ensures c >= ' ' && c != '\"'
  {
  }

  lemma NameReadsBack(s: string, i: nat, text: string)
    requires At(s, i, Name(text))
    ensures i < |s| && s[i] == '\"'
    ensures ParseChars(s, i + 1) == Some((text, i + |Name(text)|))
  {
    hide P.Escaped;
    Associative("\"", P.Escaped(text), "\"");
    AtSplit(s, i, "\"", P.Escaped(text) + "\"");
    AtChar(s, i, "\"", 0);
    CharsReadBack(s, i + 1, text);
  }

  lemma {:induction false} DigitsEnd(s: string, i: nat, j: nat)
    requires i <= j <= |s| && (forall k :: i <= k < j ==> IsDigit(s[k]))
    requires j < |s| ==> !IsDigit(s[j])
    ensures SkipDigits(s, i) == j
    decreases j - i
  {
    if i < j {
      DigitsEnd(s, i + 1, j);
    }
  }

  /** Digits in place: where they end. */
  lemma DigitsAt(s: string, first: nat, digits: string)
    requires At(s, first, digits) && digits != "" && AllDigits(digits) && Follow(s, first + |digits|)
    ensures var j := first + |digits|;
      first < j <= |s| && SkipDigits(s, first) == j && s[first..j] == digits && s[first] == digits[0]
  {
    hide SkipDigits;
    var j := first + |digits|;
    forall k | first <= k < j ensures IsDigit(s[k]) {
      assert s[k] == s[first..j][k - first];
    }
    DigitsEnd(s, first, j);
  }

  lemma FirstDigit(n: nat)
    ensures Dec(n) != "" && AllDigits(Dec(n)) && Value(Dec(n)) == n
    ensures IsDigit(Dec(n)[0]) && (Dec(n)[0] == '0' ==> |Dec(n)| == 1)
  {
    DecReadsBack(n);
    ZeroIsShort();
  }

  lemma WholeNumber(s: string, i: nat, first: nat, j: nat)
    requires i < |s| && first == (if s[i] == '-' then i + 1 else i) && first < j <= |s|
    requires SkipDigits(s, first) == j && AllDigits(s[first..j]) && Follow(s, j)
    requires s[first] == '0' ==> j == first + 1
    ensures var n: int := Value(s[first..j]);
      ParseNumber(s, i) == Some((Int(if s[i] == '-' then -n else n), j))
  {
    hide SkipDigits, Value;
  }

  lemma {:induction false} NumberReadsBack(s: string, i: nat, v: int)
    requires At(s, i, IntText(v)) && Follow(s, i + |IntText(v)|)
    ensures ParseNumber(s, i) == Some((Int(v), i + |IntText(v)|))
    ensures s[i] == '-' || IsDigit(s[i])
  {
    hide Dec, Value, SkipDigits, ParseNumber, Follow, AllDigits, At;
    var n: nat := if v < 0 then -v else v;
    FirstDigit(n);
    if v < 0 {
      AtSplit(s, i, "-", Dec(n));
      AtChar(s, i, "-", 0);
      DigitsAt(s, i + 1, Dec(n));
      WholeNumber(s, i, i + 1, i + 1 + |Dec(n)|);
    } else {
      DigitsAt(s, i, Dec(n));
      WholeNumber(s, i, i, i + |Dec(n)|);
    }
  }

  lemma IntReadsBack(s: string, i: nat, v: int)
    requires At(s, i, IntText(v)) && Follow(s, i + |IntText(v)|)
    ensures ParseValue(s, i) == Some((Int(v), i + |IntText(v)|))
    ensures s[i] == '-' || IsDigit(s[i])
  {
    hide ParseNumber;
    hide IntText;
    hide ParseItems;
    hide ParseMembers;
    hide ParseChars;
    NumberReadsBack(s, i, v);
    if At(s, i, "true") { AtChar(s, i, "true", 0); }
    if At(s, i, "false") { AtChar(s, i, "false", 0); }
    if At(s, i, "null") { AtChar(s, i, "null", 0); }
  }

  lemma ZeroIsShort()
    ensures |Dec(0)| == 1
  {
  }

  lemma LiteralReadsBack(s: string, i: nat, b: bool)
    requires At(s, i, if b then "true" else "false")
    ensures ParseValue(s, i) == Some((Bool(b), i + if b then 4 else 5))
    ensures s[i] == if b then 't' else 'f'
  {
    AtChar(s, i, if b then "true" else "false", 0);
    if At(s, i, "true") { AtChar(s, i, "true", 0); }
  }

  /** Printed text has no white space to skip. */
  lemma NoSpaceAt(s: string, i: nat)
    requires i <= |s| && (i < |s| ==> !IsSpace(s[i]))
    ensures SkipSpace(s, i) == i
  {
  }

  /** Reading a container once its opening bracket and body are in place. */
  lemma ContainerReadsBack(s: string, i: nat, t: Json)
    requires i < |s| && (t.Arr? || t.Obj?) && s[i] == if t.Arr? then '[' else '{'
    requires var body := if t.Arr? then ItemsText(t.items) else MembersText(t.members);
      At(s, i + 1, body + if t.Arr? then "]" else "}")
    requires t.Arr? && t.items != [] ==>
      !IsSpace(s[i + 1]) && s[i + 1] != ']' &&
      ParseItems(s, i + 1) == Some((t.items, i + |ItemsText(t.items)| + 2))
    requires t.Obj? && t.members != [] ==>
      s[i + 1] == '\"' && ParseMembers(s, i + 1) == Some((t.members, i + |MembersText(t.members)| + 2))
    ensures ParseValue(s, i) == Some((t, i + |Text(t)|))
  {
    hide ParseItems;
    hide ParseMembers;
    hide ParseChars;
    hide ParseNumber;
    if (t.Arr? && t.items == []) || (t.Obj? && t.members == []) {
      AtChar(s, i + 1, "" + if t.Arr? then "]" else "}", 0);
    }
    NoSpaceAt(s, i + 1);
  }

  lemma StringReadsBack(s: string, i: nat, text: string)
    requires At(s, i, Name(text))
    ensures i < |s| && s[i] == '\"' && ParseValue(s, i) == Some((Str(text), i + |Name(text)|))
  {
    hide ParseChars;
    hide P.Escaped;
    NameReadsBack(s, i, text);
  }

  lemma {:induction false} ValueReadsBack(s: string, i: nat, t: Json)
    requires Writable(t) && At(s, i, Text(t)) && Follow(s, i + |Text(t)|)
    ensures ParseValue(s, i) == Some((t, i + |Text(t)|)) && i < |s| && !IsSpace(s[i])
    ensures s[i] != ']' && s[i] != '}'
    decreases t
  {
    hide ParseValue;
    hide At;
    hide ItemsText;
    hide MembersText;
    hide Name;
    hide IntText;
    match t
    case Bool(b) =>
      LiteralReadsBack(s, i, b);
    case Int(v) =>
      IntReadsBack(s, i, v);
    case Str(text) =>
      StringReadsBack(s, i, text);
    case Arr(items) =>
      ArrReadsBack(s, i, items);
    case Obj(members) =>
      ObjReadsBack(s, i, members);
  }

  lemma {:induction false} ArrReadsBack(s: string, i: nat, items: seq<Json>)
    requires WritableItems(items) && At(s, i, "[" + ItemsText(items) + "]")
    ensures i < |s| && s[i] == '['
    ensures ParseValue(s, i) == Some((Arr(items), i + |Text(Arr(items))|))
    decreases items, 1
  {
    hide ParseValue;
    hide At;
    hide ItemsText, ParseItems, Writable;
    Associative("[", ItemsText(items), "]");
    AtSplit(s, i, "[", ItemsText(items) + "]");
    AtChar(s, i, "[", 0);
    if items != [] {
      ItemsReadBack(s, i + 1, items);
    }
    ContainerReadsBack(s, i, Arr(items));
  }

  lemma {:induction false} ObjReadsBack(s: string, i: nat, members: seq<Member>)
    requires WritableMembers(members) && At(s, i, "{" + MembersText(members) + "}")
    ensures i < |s| && s[i] == '{'
    ensures ParseValue(s, i) == Some((Obj(members), i + |Text(Obj(members))|))
    decreases members, 1
  {
    hide ParseValue;
    hide At;
    hide MembersText, ParseMembers, Writable;
    Associative("{", MembersText(members), "}");
    AtSplit(s, i, "{", MembersText(members) + "}");
    AtChar(s, i, "{", 0);
    if members != [] {
      MembersReadBack(s, i + 1, members);
    }
    ContainerReadsBack(s, i, Obj(members));
  }

  lemma ItemsTextParts(items: seq<Json>)
    requires items != []
    ensures ItemsText(items) + "]" ==
      Text(items[0]) + if |items| == 1 then "]" else "," + (ItemsText(items[1..]) + "]")
    ensures |ItemsText(items)| ==
      |Text(items[0])| + if |items| == 1 then 0 else 1 + |ItemsText(items[1..])|
  {
    hide Text;
    if |items| > 1 {
      Regroup(Text(items[0]), ",", ItemsText(items[1..]), "]");
    }
  }

  lemma Regroup(a: string, b: string, c: string, d: string)
    ensures a + b + c + d == a + (b + (c + d))
  {
    Associative(a + b, c, d);
    Associative(a, b, c + d);
  }

  lemma LastItem(s: string, i: nat, v: Json, j: nat)
    requires i <= |s| && ParseValue(s, i) == Some((v, j)) && j < |s| && s[j] == ']'
    ensures ParseItems(s, i) == Some(([v], j + 1))
  {
    hide ParseValue;
    NoSpaceAt(s, j);
  }

  lemma NextItem(s: string, i: nat, v: Json, j: nat, rest: seq<Json>, e: nat)
    requires i <= |s| && ParseValue(s, i) == Some((v, j))
    requires j + 1 < |s| && s[j] == ',' && !IsSpace(s[j + 1])
    requires ParseItems(s, j + 1) == Some((rest, e))
    ensures ParseItems(s, i) == Some(([v] + rest, e))
  {
    hide ParseValue;
    NoSpaceAt(s, j);
    NoSpaceAt(s, j + 1);
  }

  lemma {:induction false} ItemsReadBack(s: string, i: nat, items: seq<Json>)
    requires items != [] && WritableItems(items) && At(s, i, ItemsText(items) + "]")
    ensures ParseItems(s, i) == Some((items, i + |ItemsText(items)| + 1))
    ensures i < |s| && !IsSpace(s[i]) && s[i] != ']'
    decreases items, 0
  {
    hide ParseItems, ParseValue, Writable;
    hide Text;
    hide ItemsText;
    hide At;
    ItemsTextParts(items);
    var head := Text(items[0]);
    var tail := if |items| == 1 then "]" else "," + (ItemsText(items[1..]) + "]");
    var j := i + |head|;
    AtSplit(s, i, head, tail);
    AtChar(s, j, tail, 0);
    ValueReadsBack(s, i, items[0]);
    if |items| == 1 {
      LastItem(s, i, items[0], j);
      assert [items[0]] == items;
    } else {
      AtSplit(s, j, ",", ItemsText(items[1..]) + "]");
      ItemsReadBack(s, j + 1, items[1..]);
      NextItem(s, i, items[0], j, items[1..], j + 2 + |ItemsText(items[1..])|);
      assert [items[0]] + items[1..] == items;
    }
  }

  lemma {:induction false} MemberReadsBack(s: string, i: nat, m: Member)
    requires Writable(m.value) && At(s, i, MemberText(m)) && Follow(s, i + |MemberText(m)|)
    ensures ParseMember(s, i) == Some((m, i + |MemberText(m)|)) && i < |s| && s[i] == '\"'
    decreases m
  {
    hide ParseValue;
    hide ParseChars;
    hide Text;
    hide Name;
    var n, c := i + |Name(m.name)|, i + |Name(m.name)| + 1;
    Associative(Name(m.name), ":", Text(m.value));
    AtSplit(s, i, Name(m.name), ":" + Text(m.value));
    AtSplit(s, n, ":", Text(m.value));
    AtChar(s, n, ":", 0);
    NameReadsBack(s, i, m.name);
    NoSpaceAt(s, n);
    ValueReadsBack(s, c, m.value);
    NoSpaceAt(s, c);
  }

  lemma MembersTextParts(members: seq<Member>)
    requires members != []
    ensures MembersText(members) + "}" ==
      MemberText(members[0]) + if |members| == 1 then "}" else "," + (MembersText(members[1..]) + "}")
    ensures |MembersText(members)| ==
      |MemberText(members[0])| + if |members| == 1 then 0 else 1 + |MembersText(members[1..])|
  {
    hide MemberText;
    if |members| > 1 {
      Regroup(MemberText(members[0]), ",", MembersText(members[1..]), "}");
    }
  }

  lemma LastMember(s: string, i: nat, m: Member, j: nat)
    requires i <= |s| && ParseMember(s, i) == Some((m, j)) && j < |s| && s[j] == '}'
    ensures ParseMembers(s, i) == Some(([m], j + 1))
  {
    hide ParseMember;
    NoSpaceAt(s, j);
  }

  lemma NextMember(s: string, i: nat, m: Member, j: nat, rest: seq<Member>, e: nat)
    requires i <= |s| && ParseMember(s, i) == Some((m, j))
    requires j + 1 < |s| && s[j] == ',' && !IsSpace(s[j + 1])
    requires ParseMembers(s, j + 1) == Some((rest, e))
    ensures ParseMembers(s, i) == Some(([m] + rest, e))
  {
    hide ParseMember;
    NoSpaceAt(s, j);
    NoSpaceAt(s, j + 1);
  }

  lemma {:induction false} MembersReadBack(s: string, i: nat, members: seq<Member>)
    requires members != [] && WritableMembers(members) && At(s, i, MembersText(members) + "}")
    ensures ParseMembers(s, i) == Some((members, i + |MembersText(members)| + 1))
    ensures i < |s| && s[i] == '\"'
    decreases members, 0
  {
    hide ParseMembers, ParseMember, Writable;
    hide MemberText;
    hide MembersText;
    hide At;
    MembersTextParts(members);
    var head := MemberText(members[0]);
    var tail := if |members| == 1 then "}" else "," + (MembersText(members[1..]) + "}");
    var j := i + |head|;
    AtSplit(s, i, head, tail);
    AtChar(s, j, tail, 0);
    MemberReadsBack(s, i, members[0]);
    if |members| == 1 {
      LastMember(s, i, members[0], j);
      assert [members[0]] == members;
    } else {
      AtSplit(s, j, ",", MembersText(members[1..]) + "}");
      MembersReadBack(s, j + 1, members[1..]);
      NextMember(s, i, members[0], j, members[1..], j + 2 + |MembersText(members[1..])|);
      assert [members[0]] + members[1..] == members;
    }
  }

  /** The round trip: for every tree nested at most eight deep, the text the
      writer is asked for parses back to the tree, and the calls are balanced. */
  lemma RoundTrip(t: Json)
    requires Writable(t) && Depth(t) <= 8
    ensures var p := P.PrintAll(Drive(t, None));
      !p.broken && p.depth == 0 && ParseText(p.text) == Some(t)
  {
    var text := Text(t);
    DrivePrints(P.Blank, t, None);
    assert P.Lead(false, None) == "";
    assert P.PrintAll(Drive(t, None)).text == text;
    assert At(text, 0, text);
    ValueReadsBack(text, 0, t);
    NoSpaceAt(text, 0);
    NoSpaceAt(text, |text|);
  }

  /** A ninth level is refused: the depth bound above is exact. */
  lemma {:induction false} TooDeepIsRefused(p: P.Printed, t: Json, key: Option<cstring>)
    requires Writable(t) && p.depth <= P.MAX_DEPTH < p.depth + Depth(t)
    ensures P.PrintFrom(p, Drive(t, key)).broken
    decreases t
  {
    hide P.CallText;
    var bracket := if t.Arr? then P.Square else P.Curly;
    var open, close := P.Call.Open(key, bracket), P.Call.Close(bracket);
    var inner := if t.Arr? then DriveItems(t.items) else DriveMembers(t.members);
    PrintOne(p, open);
    var q := P.Print1(p, open);
    P.PrintConcat(p, [open], inner);
    P.PrintSnoc(p, [open] + inner, close);
    if q.broken {
      BrokenStays(q, inner);
    } else if t.Arr? {
      TooDeepItems(q, t.items);
    } else {
      TooDeepMembers(q, t.members);
    }
  }

  /** So a tree is written in full if and only if it is nested at most eight deep. */
  lemma WrittenIffShallow(t: Json)
    requires Writable(t)
    ensures !P.PrintAll(Drive(t, None)).broken <==> Depth(t) <= 8
  {
    if Depth(t) <= 8 {
      RoundTrip(t);
    } else {
      TooDeepIsRefused(P.Blank, t, None);
    }
  }

  lemma {:induction false} BrokenStays(p: P.Printed, calls: seq<P.Call>)
    requires p.broken
    ensures P.PrintFrom(p, calls) == p
  {
    if calls != [] {
      BrokenStays(p, calls[..|calls| - 1]);
    }
  }

  lemma {:induction false} TooDeepItems(p: P.Printed, items: seq<Json>)
    requires WritableItems(items) && p.depth <= P.MAX_DEPTH < p.depth + ItemsDepth(items)
    ensures P.PrintFrom(p, DriveItems(items)).broken
    decreases items
  {
    hide P.Print1;
    hide P.Lead;
    hide Text;
    var head, rest := Drive(items[0], None), DriveItems(items[1..]);
    P.PrintConcat(p, head, rest);
    var q := P.PrintFrom(p, head);
    if p.broken {
      BrokenStays(p, DriveItems(items));
    } else if p.depth + Depth(items[0]) <= P.MAX_DEPTH {
      DrivePrints(p, items[0], None);
      TooDeepItems(q, items[1..]);
    } else {
      TooDeepIsRefused(p, items[0], None);
      BrokenStays(q, rest);
    }
  }

  lemma {:induction false} TooDeepMembers(p: P.Printed, members: seq<Member>)
    requires WritableMembers(members) && p.depth <= P.MAX_DEPTH < p.depth + MembersDepth(members)
    ensures P.PrintFrom(p, DriveMembers(members)).broken
    decreases members
  {
    hide P.Print1;
    hide P.Lead;
    hide Text;
    var m := members[0];
    var head, rest := Drive(m.value, Some(m.name)), DriveMembers(members[1..]);
    P.PrintConcat(p, head, rest);
    var q := P.PrintFrom(p, head);
    if p.broken {
      BrokenStays(p, DriveMembers(members));
    } else if p.depth + Depth(m.value) <= P.MAX_DEPTH {
      DrivePrints(p, m.value, Some(m.name));
      TooDeepMembers(q, members[1..]);
    } else {
      TooDeepIsRefused(p, m.value, Some(m.name));
      BrokenStays(q, rest);
    }
  }
}
