/** Types shared by the models: C bytes, C strings and optional values. */
module Common {

  datatype Option<+T> = None | Some(value: T)

  /** An unsigned 8-bit value, where the source does arithmetic on bytes. */
  type byte = b: int | 0 <= b < 256

  /** What a `const char *` argument denotes: the characters before its NUL.
      A C byte is represented by the character with the same code. */
  type cstring = s: string | '\0' !in s

  type uint32 = n: int | 0 <= n < 0x1_0000_0000

  type int64 = n: int | -0x8000_0000_0000_0000 <= n < 0x8000_0000_0000_0000

  /** The connection state the library reports. */
  datatype WifiState = Disconnected | Connecting | Connected

  /** At most the first `n` elements. */
  function Truncated<T>(s: seq<T>, n: nat): (r: seq<T>)
    ensures |r| <= n && r <= s && (|s| <= n ==> r == s)
  {
    if |s| > n then s[..n] else s
  }

  /** What a hexadecimal digit of either case stands for, or -1. */
  function HexValue(c: char): (v: int)
    ensures -1 <= v < 16
  {
    if '0' <= c <= '9' then c as int - '0' as int
    else if 'a' <= c <= 'f' then c as int - 'a' as int + 10
    else if 'A' <= c <= 'F' then c as int - 'A' as int + 10
    else -1
  }

  /** The digit for `d`; `ten` is the one for ten, in the case wanted. */
  function HexDigit(d: nat, ten: char): (c: char)
    requires d < 16 && (ten == 'a' || ten == 'A')
    ensures HexValue(c) == d
  {
    if d < 10 then ('0' as int + d) as char else (ten as int + (d - 10)) as char
  }

  /** Concatenation of the pieces of `parts`, in order. */
  function Flat<T>(parts: seq<seq<T>>): seq<T> {
    if parts == [] then [] else Flat(parts[..|parts| - 1]) + parts[|parts| - 1]
  }

  lemma Associative<T>(a: seq<T>, b: seq<T>, c: seq<T>)
    ensures (a + b) + c == a + (b + c)
  {
  }

  lemma Associative3<T>(a: seq<T>, b: seq<T>, c: seq<T>, d: seq<T>)
    ensures a + b + c + d == a + (b + c + d)
  {
  }

  lemma FlatSnoc<T>(parts: seq<seq<T>>, last: seq<T>)
    ensures Flat(parts + [last]) == Flat(parts) + last
  {
    assert (parts + [last])[..|parts|] == parts;
  }

  lemma {:induction false} FlatConcat<T>(a: seq<seq<T>>, b: seq<seq<T>>)
    ensures Flat(a + b) == Flat(a) + Flat(b)
  {
    if b == [] {
      assert a + b == a;
    } else {
      var front, last := b[..|b| - 1], b[|b| - 1];
      assert a + b == (a + front) + [last];
      FlatSnoc(a + front, last);
      FlatConcat(a, front);
      assert Flat(a) + Flat(front) + last == Flat(a) + (Flat(front) + last);
    }
  }

  // -------------------------------------------------------------- arithmetic

  lemma Scale(a: int, b: int, n: int)
    requires a <= b && n >= 0
    ensures a * n <= b * n && n * a <= n * b
  {
  }

  lemma Group(a: int, b: int, c: int)
    ensures a * (b * c) == (a * b) * c
  {
  }

  lemma Distribute(a: int, b: int, n: int)
    ensures a * n + b * n == (a + b) * n && a * n - b * n == (a - b) * n
  {
  }

  lemma SmallMultiple(k: int, n: int, d: int)
    requires n > 0 && d == k * n
    ensures -n < d < n ==> d == 0
  {
    if k >= 1 {
      Scale(1, k, n);
    } else if k <= -1 {
      Scale(k, -1, n);
    }
  }
}
