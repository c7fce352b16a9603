/** The nesting scan of src/esp_wifi_config_http.c against true nesting depth. */
module JsonDepth {
  import opened JsonText

  const LIMIT: nat := 16

  /** Scanner state: `skip` means the next character was escaped. */
  datatype Scan = Scan(depth: nat, inString: bool, skip: bool, rejected: bool)

  const Start: Scan := Scan(0, false, false, false)

  function ScanChar(st: Scan, c: char): Scan {
    if st.rejected then st
    else if st.skip then st.(skip := false)
    else if st.inString then
      if c == '\\' then st.(skip := true) else if c == '\"' then st.(inString := false) else st
    else if c == '\"' then st.(inString := true)
    else if c == '[' || c == '{' then
      if st.depth + 1 > LIMIT then st.(rejected := true) else st.(depth := st.depth + 1)
    else if c == ']' || c == '}' then
      if st.depth > 0 then st.(depth := st.depth - 1) else st
    else st
  }

  /** The state after scanning s[i..j]. */
  function ScanRange(st: Scan, s: string, i: nat, j: nat): Scan
    requires i <= j <= |s|
    decreases j - i
  {
    if i == j then st else ScanRange(ScanChar(st, s[i]), s, i + 1, j)
  }

  predicate Accepts(s: string) {
    !ScanRange(Start, s, 0, |s|).rejected
  }

  /** The scan as the source runs it: one pass, skipping two at a backslash. */
  method WithinLimit(buf: seq<char>) returns (ok: bool)
    ensures ok <==> Accepts(buf)
  {
    var depth: int := 0;
    var inString := false;
    var i := 0;
    while i < |buf|
      invariant 0 <= depth <= LIMIT && 0 <= i
      invariant i <= |buf| ==>
        ScanRange(Start, buf, 0, |buf|) == ScanRange(Scan(depth, inString, false, false), buf, i, |buf|)
      invariant i > |buf| ==> Accepts(buf)
    {
      var c := buf[i];
      if inString {
        if c == '\\' {
          i := i + 1;
        } else if c == '\"' {
          inString := false;
        }
      } else {
        match c
        case '\"' =>
          inString := true;
        case '[' | '{' =>
          depth := depth + 1;
          if depth > LIMIT {
            RejectedStays(Scan(LIMIT, false, false, true), buf, i + 1, |buf|);
            return false;
          }
        case ']' | '}' =>
          if depth > 0 {
            depth := depth - 1;
          }
        case _ =>
      }
      i := i + 1;
    }
    ok := true;
  }

  // ------------------------------------------------------------- scan algebra

  lemma {:induction false} RejectedStays(st: Scan, s: string, i: nat, j: nat)
    requires i <= j <= |s| && st.rejected
    ensures ScanRange(st, s, i, j) == st
    decreases j - i
  {
    if i < j {
      RejectedStays(st, s, i + 1, j);
    }
  }

  lemma {:induction false} ScanSplit(st: Scan, s: string, i: nat, k: nat, j: nat)
    requires i <= k <= j <= |s|
    ensures ScanRange(st, s, i, j) == ScanRange(ScanRange(st, s, i, k), s, k, j)
    decreases k - i
  {
    if i < k {
      ScanSplit(ScanChar(st, s[i]), s, i + 1, k, j);
    }
  }

  /** Outside strings, with d containers open. */
  function Outside(d: nat): Scan { Scan(d, false, false, false) }

  function Inside(d: nat): Scan { Scan(d, true, false, false) }

  predicate Structural(c: char) {
    c == '\"' || c == '[' || c == ']' || c == '{' || c == '}'
  }

  lemma {:induction false} ScanInert(s: string, i: nat, j: nat, d: nat)
    requires i <= j <= |s| && forall k :: i <= k < j ==> !Structural(s[k])
    ensures ScanRange(Outside(d), s, i, j) == Outside(d)
    decreases j - i
  {
    if i < j {
      ScanInert(s, i + 1, j, d);
    }
  }

  lemma {:induction false} ScanInertInside(s: string, i: nat, j: nat, d: nat)
    requires i <= j <= |s| && forall k :: i <= k < j ==> s[k] != '\"' && s[k] != '\\'
    ensures ScanRange(Inside(d), s, i, j) == Inside(d)
    decreases j - i
  {
    if i < j {
      ScanInertInside(s, i + 1, j, d);
    }
  }

  /** An escape sequence leaves the scanner inside the string. */
  lemma ScanEscape(s: string, i: nat, d: nat)
    requires i < |s| && s[i] == '\\' && Unescape(s, i).Some?
    ensures ScanRange(Inside(d), s, i, Unescape(s, i).value.1) == Inside(d)
  {
    var j := Unescape(s, i).value.1;
    ScanSplit(Inside(d), s, i, i + 2, j);
    assert ScanRange(Inside(d), s, i, i + 2) == Inside(d) by {
      assert ScanRange(Inside(d).(skip := true), s, i + 1, i + 2) == Inside(d);
    }
    if s[i + 1] == 'u' {
      assert Hex4(s, i + 2).Some?;
      ScanInertInside(s, i + 2, i + 6, d);
      if j == i + 12 {
        ScanSplit(Inside(d), s, i + 2, i + 6, j);
        ScanSplit(Inside(d), s, i + 6, i + 8, j);
        assert ScanRange(Inside(d), s, i + 6, i + 8) == Inside(d) by {
          assert ScanRange(Inside(d).(skip := true), s, i + 7, i + 8) == Inside(d);
        }
        assert Hex4(s, i + 8).Some?;
        ScanInertInside(s, i + 8, j, d);
      }
    }
  }

  lemma {:induction false} ScanString(s: string, i: nat, d: nat)
    requires i <= |s| && ParseChars(s, i).Some?
    ensures ScanRange(Inside(d), s, i, ParseChars(s, i).value.1) == Outside(d)
    decreases |s| - i
  {
    var j := ParseChars(s, i).value.1;
    if s[i] == '\"' {
    } else if s[i] == '\\' {
      var k := Unescape(s, i).value.1;
      ScanEscape(s, i, d);
      ScanString(s, k, d);
      ScanSplit(Inside(d), s, i, k, j);
    } else {
      ScanString(s, i + 1, d);
    }
  }

  lemma ScanQuoted(s: string, i: nat, d: nat)
    requires i < |s| && s[i] == '\"' && ParseChars(s, i + 1).Some?
    ensures ScanRange(Outside(d), s, i, ParseChars(s, i + 1).value.1) == Outside(d)
  {
    ScanString(s, i + 1, d);
  }

  lemma ScanNumber(s: string, i: nat, d: nat)
    requires i < |s| && ParseNumber(s, i).Some?
    ensures ScanRange(Outside(d), s, i, ParseNumber(s, i).value.1) == Outside(d)
  {
    ScanInert(s, i, ParseNumber(s, i).value.1, d);
  }

  lemma ScanLiteral(s: string, i: nat, word: string, d: nat)
    requires At(s, i, word) && forall k :: 0 <= k < |word| ==> !Structural(word[k])
    ensures ScanRange(Outside(d), s, i, i + |word|) == Outside(d)
  {
    forall k | i <= k < i + |word| ensures !Structural(s[k]) {
      assert s[k] == s[i..i + |word|][k - i];
    }
    ScanInert(s, i, i + |word|, d);
  }

  lemma ScanCloser(s: string, k: nat, d: nat)
    requires k < |s| && (s[k] == ']' || s[k] == '}') && d > 0
    ensures ScanRange(Outside(d), s, k, k + 1) == Outside(d - 1)
  {
    assert ScanRange(Outside(d - 1), s, k + 1, k + 1) == Outside(d - 1);
  }

  lemma ScanOpener(s: string, i: nat, j: nat, d: nat)
    requires i < j <= |s| && (s[i] == '[' || s[i] == '{')
    ensures d < LIMIT ==> ScanRange(Outside(d), s, i, j) == ScanRange(Outside(d + 1), s, i + 1, j)
    ensures d == LIMIT ==> ScanRange(Outside(d), s, i, j).rejected
  {
    if d == LIMIT {
      RejectedStays(Outside(d).(rejected := true), s, i + 1, j);
    }
  }

  // ------------------------------------------------------------ main theorem

  /** What scanning a well-formed piece does when `extra` more levels are needed. */
  predicate ScansTo(st: Scan, d: nat, extra: nat, final: nat) {
    if d + extra <= LIMIT then st == Outside(final) else st.rejected
  }

  lemma ScanScalar(s: string, i: nat, d: nat)
    requires i < |s| && s[i] != '[' && s[i] != '{' && ParseValue(s, i).Some?
    ensures var (t, j) := ParseValue(s, i).value;
      Depth(t) == 0 && ScanRange(Outside(d), s, i, j) == Outside(d)
  {
    hide ParseChars;
    hide ParseNumber;
    hide ScanRange;
    if s[i] == '\"' {
      ScanQuoted(s, i, d);
    } else if At(s, i, "true") {
      ScanLiteral(s, i, "true", d);
    } else if At(s, i, "false") {
      ScanLiteral(s, i, "false", d);
    } else if At(s, i, "null") {
      ScanLiteral(s, i, "null", d);
    } else {
      ScanNumber(s, i, d);
    }
  }

  lemma {:induction false} ScanValue(s: string, i: nat, d: nat)
    requires i <= |s| && ParseValue(s, i).Some? && d <= LIMIT
    ensures var (t, j) := ParseValue(s, i).value;
      ScansTo(ScanRange(Outside(d), s, i, j), d, Depth(t), d)
    decreases |s| - i, 0
  {
    hide ScanRange;
    hide ParseItems;
    hide ParseMembers;
    hide ParseChars;
    hide ParseNumber;
    hide At;
    hide SkipSpace;
    var (t, j) := ParseValue(s, i).value;
    if s[i] != '[' && s[i] != '{' {
      ScanScalar(s, i, d);
    } else {
      ScanOpener(s, i, j, d);
      if d < LIMIT {
        var k := SkipSpace(s, i + 1);
        ScanInert(s, i + 1, k, d + 1);
        ScanSplit(Outside(d + 1), s, i + 1, k, j);
        if s[i] == '[' && s[k] != ']' {
          ScanItems(s, k, d + 1);
        } else if s[i] == '{' && s[k] != '}' {
          ScanMembers(s, k, d + 1);
        } else {
          ScanCloser(s, k, d + 1);
        }
      }
    }
  }

  lemma {:induction false} ScanItems(s: string, i: nat, d: nat)
    requires i <= |s| && ParseItems(s, i).Some? && 0 < d <= LIMIT
    ensures var (items, j) := ParseItems(s, i).value;
      ScansTo(ScanRange(Outside(d), s, i, j), d, ItemsDepth(items), d - 1)
    decreases |s| - i, 1
  {
    hide ParseValue;
    hide ScanRange;
    hide SkipSpace;
    var (items, e) := ParseItems(s, i).value;
    var (v, j) := ParseValue(s, i).value;
    var k := SkipSpace(s, j);
    ScanValue(s, i, d);
    AfterValue(s, i, j, k, e, d, Depth(v));
    if s[k] == ',' {
      assert items[0] == v && items[1..] == ParseItems(s, SkipSpace(s, k + 1)).value.0;
      AfterComma(s, k, SkipSpace(s, k + 1), e, d);
      ScanItems(s, SkipSpace(s, k + 1), d);
    } else {
      assert items == [v] && items[1..] == [];
      ScanCloser(s, k, d);
    }
  }

  lemma {:induction false} ScanMember(s: string, i: nat, d: nat)
    requires i <= |s| && ParseMember(s, i).Some? && 0 < d <= LIMIT
    ensures var (m, j) := ParseMember(s, i).value;
      ScansTo(ScanRange(Outside(d), s, i, j), d, Depth(m.value), d)
    decreases |s| - i, 1
  {
    hide ParseValue;
    hide ParseChars;
    hide ScanRange;
    var (m, j) := ParseMember(s, i).value;
    var n := ParseChars(s, i + 1).value.1;
    var a := SkipSpace(s, SkipSpace(s, n) + 1);
    ScanQuoted(s, i, d);
    ScanInert(s, n, a, d);
    ScanSplit(Outside(d), s, i, n, j);
    ScanSplit(Outside(d), s, n, a, j);
    ScanValue(s, a, d);
  }

  lemma {:induction false} ScanMembers(s: string, i: nat, d: nat)
    requires i <= |s| && ParseMembers(s, i).Some? && 0 < d <= LIMIT
    ensures var (members, j) := ParseMembers(s, i).value;
      ScansTo(ScanRange(Outside(d), s, i, j), d, MembersDepth(members), d - 1)
    decreases |s| - i, 2
  {
    hide ParseMember;
    hide ScanRange;
    hide SkipSpace;
    var (members, e) := ParseMembers(s, i).value;
    var (m, j) := ParseMember(s, i).value;
    var k := SkipSpace(s, j);
    ScanMember(s, i, d);
    AfterValue(s, i, j, k, e, d, Depth(m.value));
    if s[k] == ',' {
      assert members[0] == m && members[1..] == ParseMembers(s, SkipSpace(s, k + 1)).value.0;
      AfterComma(s, k, SkipSpace(s, k + 1), e, d);
      ScanMembers(s, SkipSpace(s, k + 1), d);
    } else {
      assert members == [m] && members[1..] == [];
      ScanCloser(s, k, d);
    }
  }

  /** White space after a value changes nothing; a rejection is final. */
  lemma AfterValue(s: string, i: nat, j: nat, k: nat, e: nat, d: nat, extra: nat)
    requires i <= j <= k <= e <= |s| && forall x :: j <= x < k ==> IsSpace(s[x])
    requires ScansTo(ScanRange(Outside(d), s, i, j), d, extra, d)
    ensures if d + extra <= LIMIT
      then ScanRange(Outside(d), s, i, e) == ScanRange(Outside(d), s, k, e)
      else ScanRange(Outside(d), s, i, e).rejected
  {
    ScanSplit(Outside(d), s, i, j, e);
    if d + extra <= LIMIT {
      ScanSplit(Outside(d), s, j, k, e);
      ScanInert(s, j, k, d);
    } else {
      RejectedStays(ScanRange(Outside(d), s, i, j), s, j, e);
    }
  }

  lemma AfterComma(s: string, k: nat, next: nat, e: nat, d: nat)
    requires k < next <= e <= |s| && s[k] == ','
    requires forall x :: k < x < next ==> IsSpace(s[x])
    ensures ScanRange(Outside(d), s, k, e) == ScanRange(Outside(d), s, next, e)
  {
    ScanSplit(Outside(d), s, k, next, e);
    ScanInert(s, k, next, d);
  }

  /** On every well-formed JSON text the scan accepts exactly when containers are
      nested at most 16 deep, whatever strings and escapes contain. */
  lemma ScanExact(s: string)
    requires ParseText(s).Some?
    ensures Accepts(s) <==> Depth(ParseText(s).value) <= 16
  {
    var i := SkipSpace(s, 0);
    var (t, j) := ParseValue(s, i).value;
    ScanInert(s, 0, i, 0);
    ScanSplit(Start, s, 0, i, |s|);
    ScanValue(s, i, 0);
    AfterValue(s, i, j, |s|, |s|, 0, Depth(t));
  }
}
