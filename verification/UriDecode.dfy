/** Percent-decoding of one URI path segment, src/esp_wifi_config_uri.h
    (section 2.1 of RFC 3986). */
module UriDecode {
  import opened Common

  datatype Result = Ok | Empty | Malformed | TooLong

  /** "%" and two hex digits, other than the escape of NUL. */
  predicate GoodEscape(e: string) {
    |e| >= 3 && e[0] == '%' && HexValue(e[1]) >= 0 && HexValue(e[2]) >= 0 &&
    !(HexValue(e[1]) == 0 && HexValue(e[2]) == 0)
  }

  /** `e` is `name` with some characters escaped, in either hex case. The first
      unit of an encoding is one verbatim character other than '%', or an escape. */
  predicate Encodes(e: string, name: string) {
    if name == "" then e == ""
    else
      || (e != "" && e[0] != '%' && e[0] == name[0] && Encodes(e[1..], name[1..]))
      || (GoodEscape(e) && name[0] as int == 16 * HexValue(e[1]) + HexValue(e[2])
          && Encodes(e[3..], name[1..]))
  }

  /** Decoding of the longest well-formed prefix, and whether that is everything. */
  function Decoding(e: string): (string, bool) {
    if e == "" then ("", true)
    else if e[0] != '%' then
      var (rest, all) := Decoding(e[1..]);
      ([e[0]] + rest, all)
    else if GoodEscape(e) then
      var (rest, all) := Decoding(e[3..]);
      ([(16 * HexValue(e[1]) + HexValue(e[2])) as char] + rest, all)
    else ("", false)
  }

  /** The encodings of a name are exactly the texts that decode to it. */
  lemma {:induction false} EncodesIffDecodes(e: string, name: string)
    ensures Encodes(e, name) <==> Decoding(e) == (name, true)
    decreases |e|
  {
    if e != "" {
      var step := if e[0] == '%' then 3 else 1;
      if step <= |e| {
        if name != "" {
          EncodesIffDecodes(e[step..], name[1..]);
          assert [name[0]] + name[1..] == name;
        }
      }
    }
  }

  /** Two names never share an encoding. */
  lemma NamesStayDistinct(e: string, name: string, other: string)
    requires Encodes(e, name) && Encodes(e, other)
    ensures name == other
  {
    EncodesIffDecodes(e, name);
    EncodesIffDecodes(e, other);
  }

  /** No encoding of a C string decodes to something with a NUL in it. */
  lemma {:induction false} NoNul(e: cstring)
    ensures '\0' !in Decoding(e).0
    decreases |e|
  {
    if e != "" {
      if e[0] != '%' {
        NoNul(e[1..]);
      } else if GoodEscape(e) {
        NoNul(e[3..]);
      }
    }
  }

  predicate Unreserved(c: char) {
    'A' <= c <= 'Z' || 'a' <= c <= 'z' || '0' <= c <= '9' || c in "-_.!~*'()"
  }

  /** What the browser's encodeURIComponent sends for a name given as bytes. */
  function EncodeComponent(name: string): string
    requires forall k :: 0 <= k < |name| ==> name[k] < 256 as char
  {
    if name == "" then ""
    else
      (if Unreserved(name[0]) then [name[0]]
       else ['%', HexDigit(name[0] as int / 16, 'A'), HexDigit(name[0] as int % 16, 'A')])
      + EncodeComponent(name[1..])
  }

  lemma {:induction false} ComponentEncodes(name: cstring)
    requires forall k :: 0 <= k < |name| ==> name[k] < 256 as char
    ensures Encodes(EncodeComponent(name), name)
  {
    if name != "" {
      ComponentEncodes(name[1..]);
      var rest := EncodeComponent(name[1..]);
      var e := EncodeComponent(name);
      if Unreserved(name[0]) {
        assert e[0] == name[0] != '%' && e[1..] == rest;
      } else {
        assert e[3..] == rest && GoodEscape(e) by {
          assert name[0] != '\0';
        }
      }
    }
  }

  /** The character of `src` at p, NUL past its end. */
  function CharAt(src: cstring, p: nat): char {
    if p < |src| then src[p] else '\0'
  }

  /** Overflow and malformed escapes are told apart by which comes first; only a
      complete decoding is reported as Ok. */
  method Decode(src: cstring, out: array<char>) returns (r: Result)
    modifies out
    ensures var (name, all) := Decoding(src);
      && (r == Ok <==> all && 0 < |name| < out.Length)
      && (r == Empty <==> src == "" && out.Length > 0)
      && (r == Malformed <==> !all && |name| < out.Length)
      && (r == TooLong <==> |name| >= out.Length)
      && (r == Ok ==> out[..|name|] == name && out[|name|] == '\0')
      && (r != Ok && out.Length > 0 ==> out[0] == '\0')
  {
    if out.Length == 0 {
      return TooLong;
    }
    out[0] := '\0';
    var n, p := 0, 0;
    assert src[p..] == src && out[..n] + Decoding(src).0 == Decoding(src).0;
    while p < |src|
      invariant 0 <= p <= |src| && n < out.Length && (n == 0 ==> p == 0 && out[0] == '\0')
      invariant Decoding(src) == (out[..n] + Decoding(src[p..]).0, Decoding(src[p..]).1)
      decreases |src| - p
    {
      var c := src[p];
      ghost var kept, from := out[..n], src[p..];
      if c == '%' {
        var hi := HexValue(CharAt(src, p + 1));
        var lo := if hi >= 0 then HexValue(CharAt(src, p + 2)) else -1;
        assert GoodEscape(from) <==> hi >= 0 && lo >= 0 && !(hi == 0 && lo == 0);
        if hi < 0 || lo < 0 || (hi == 0 && lo == 0) {
          out[0] := '\0';
          return Malformed;
        }
        c := (16 * hi + lo) as char;
        p := p + 2;
        assert from[3..] == src[p + 1..];
      } else {
        assert from[1..] == src[p + 1..];
      }
      Associative(kept, [c], Decoding(src[p + 1..]).0);
      assert |kept + ([c] + Decoding(src[p + 1..]).0)| >= n + 1;
      if n + 1 >= out.Length {
        out[0] := '\0';
        return TooLong;
      }
      out[n] := c;
      n := n + 1;
      p := p + 1;
      assert out[..n] == kept + [c];
    }
    assert out[..n] + "" == out[..n];
    out[n] := '\0';
    r := if n == 0 then Empty else Ok;
  }
}
