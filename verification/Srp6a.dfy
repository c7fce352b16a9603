/** The SRP-6a client of tools/wifi_ble_cli/esp_prov/security/srp6a.py, against the
    server side of RFC 5054 (section 2.6). The hash is an arbitrary function. */
module Srp6a {
  import opened Common

  type bytes = seq<byte>
  type Hash = bytes -> bytes

  /** Digests are non-empty. */
  ghost predicate IsHash(hash: Hash) {
    forall x :: |hash(x)| > 0
  }

  // ------------------------------------------------ bytes and long integers

  /** int.from_bytes(s, 'big') */
  function BytesToLong(s: bytes): nat {
    if s == [] then 0 else 256 * BytesToLong(s[..|s| - 1]) + s[|s| - 1]
  }

  /** As many bytes as the number needs, most significant first; one for zero. */
  function LongToBytes(n: nat): bytes {
    if n < 256 then [n] else LongToBytes(n / 256) + [n % 256]
  }

  /** No superfluous leading zero. */
  predicate Canonical(s: bytes) {
    s != [] && (s[0] == 0 ==> |s| == 1)
  }

  lemma {:induction false} LongReadsBack(n: nat)
    ensures BytesToLong(LongToBytes(n)) == n && Canonical(LongToBytes(n))
    ensures n > 0 ==> LongToBytes(n)[0] > 0
  {
    if n >= 256 {
      LongReadsBack(n / 256);
      assert LongToBytes(n)[..|LongToBytes(n)| - 1] == LongToBytes(n / 256);
    } else {
      assert LongToBytes(n)[..0] == [];
    }
  }

  lemma {:induction false} CanonicalPositive(s: bytes)
    requires s != [] && s[0] > 0
    ensures BytesToLong(s) > 0
  {
    if |s| > 1 {
      CanonicalPositive(s[..|s| - 1]);
    }
  }

  /** Converting to an integer and back gives the same bytes exactly when there is
      no superfluous leading zero. */
  lemma {:induction false} BytesReadBack(s: bytes)
    ensures LongToBytes(BytesToLong(s)) == s <==> Canonical(s)
  {
    LongReadsBack(BytesToLong(s));
    if Canonical(s) {
      if |s| == 1 {
        assert s[..0] == [];
        assert s == [s[0]];
      } else {
        var front := s[..|s| - 1];
        BytesReadBack(front);
        CanonicalPositive(front);
        assert s == front + [s[|s| - 1]];
      }
    }
  }

  lemma {:induction false} LengthMonotone(a: nat, b: nat)
    requires a <= b
    ensures |LongToBytes(a)| <= |LongToBytes(b)|
  {
    if a >= 256 {
      LengthMonotone(a / 256, b / 256);
    }
  }

  // ----------------------------------------------------------------- hashing

  datatype Item = Num(n: nat) | Raw(data: bytes)

  function ItemBytes(i: Item): bytes {
    match i
    case Num(n) => LongToBytes(n)
    case Raw(data) => data
  }

  function Zeros(n: nat): bytes {
    if n == 0 then [] else [0] + Zeros(n - 1)
  }

  /** One hashed item, left-padded to the width; an item that is wider than the
      width makes Python raise ValueError, here None. */
  function Padded(i: Item, width: Option<nat>): Option<bytes> {
    var data := ItemBytes(i);
    match width
    case None => Some(data)
    case Some(w) => if |data| > w then None else Some(Zeros(w - |data|) + data)
  }

  function PaddedAll(items: seq<Item>, width: Option<nat>): Option<bytes> {
    if items == [] then Some([])
    else
      match (Padded(items[0], width), PaddedAll(items[1..], width))
      case (Some(a), Some(b)) => Some(a + b)
      case _ => None
  }

  /** H(...): the digest of all items as an integer; None is ValueError. */
  function H(hash: Hash, items: seq<Item>, width: Option<nat>): Option<nat> {
    match PaddedAll(items, width)
    case None => None
    case Some(data) => Some(BytesToLong(hash(data)))
  }

  /** Without a width nothing is ever too wide. */
  function HashOf(hash: Hash, items: seq<Item>): nat {
    BytesToLong(hash(Joined(items)))
  }

  function Joined(items: seq<Item>): bytes {
    if items == [] then [] else ItemBytes(items[0]) + Joined(items[1..])
  }

  lemma {:induction false} UnpaddedAlwaysHashes(hash: Hash, items: seq<Item>)
    ensures PaddedAll(items, None) == Some(Joined(items)) && H(hash, items, None) == Some(HashOf(hash, items))
  {
    if items != [] {
      UnpaddedAlwaysHashes(hash, items[1..]);
    }
  }

  const COLON: byte := 0x3A

  /** x = H(s, H(I ":" P)) */
  function X(hash: Hash, salt: Item, user: bytes, password: bytes): nat {
    HashOf(hash, [salt, Num(HashOf(hash, [Raw(user + [COLON] + password)]))])
  }

  /** Only the salt's bytes matter to x, whichever way the salt is given. */
  lemma SaltFormIrrelevant(hash: Hash, salt: bytes, user: bytes, password: bytes)
    requires Canonical(salt)
    ensures X(hash, Num(BytesToLong(salt)), user, password) == X(hash, Raw(salt), user, password)
  {
    BytesReadBack(salt);
    var inner := Num(HashOf(hash, [Raw(user + [COLON] + password)]));
    assert Joined([Num(BytesToLong(salt)), inner]) == Joined([Raw(salt), inner]) by {
      assert [Num(BytesToLong(salt)), inner][1..] == [inner] == [Raw(salt), inner][1..];
    }
  }

  /** No two inputs have digests that are the same number. */
  ghost predicate Distinguishes(hash: Hash) {
    forall x, y :: BytesToLong(hash(x)) == BytesToLong(hash(y)) ==> x == y
  }

  lemma JoinedTwo(a: Item, b: Item)
    ensures Joined([a]) == ItemBytes(a) && Joined([a, b]) == ItemBytes(a) + ItemBytes(b)
  {
    assert [a][1..] == [] && [a, b][1..] == [b] && [b][1..] == [];
    assert Joined([]) == [] && Joined([b]) == ItemBytes(b) + [] == ItemBytes(b);
    assert Joined([a]) == ItemBytes(a) + [] == ItemBytes(a);
  }

  lemma SameBytes(m: nat, n: nat)
    ensures LongToBytes(m) == LongToBytes(n) <==> m == n
  {
    LongReadsBack(m);
    LongReadsBack(n);
  }

  lemma Cancel(a: bytes, b: bytes, c: bytes, d: bytes)
    ensures a + b + d == a + c + d <==> b == c
  {
    if a + b + d == a + c + d {
      assert |b| == |c|;
      assert b == (a + b + d)[|a|..|a| + |b|] && c == (a + c + d)[|a|..|a| + |c|];
    }
  }

  lemma XUnfolds(hash: Hash, salt: Item, user: bytes, password: bytes)
    ensures X(hash, salt, user, password) ==
      BytesToLong(hash(ItemBytes(salt) + LongToBytes(BytesToLong(hash(user + [COLON] + password)))))
  {
    var id := Raw(user + [COLON] + password);
    JoinedTwo(id, id);
    JoinedTwo(salt, Num(BytesToLong(hash(user + [COLON] + password))));
  }

  /** x tells passwords apart, user names apart and salts apart, whenever the hash does. */
  lemma XDependsOnAll(hash: Hash, salt: nat, user: bytes, password: bytes, salt': nat, user': bytes, password': bytes)
    requires Distinguishes(hash)
    ensures X(hash, Num(salt), user, password) == X(hash, Num(salt), user, password') <==> password == password'
    ensures X(hash, Num(salt), user, password) == X(hash, Num(salt), user', password) <==> user == user'
    ensures X(hash, Num(salt), user, password) == X(hash, Num(salt'), user, password) <==> salt == salt'
  {
    hide X, LongToBytes, BytesToLong;
    XUnfolds(hash, Num(salt), user, password);
    XUnfolds(hash, Num(salt), user, password');
    XUnfolds(hash, Num(salt), user', password);
    XUnfolds(hash, Num(salt'), user, password);
    Inputs(hash, LongToBytes(salt), user + [COLON] + password, user + [COLON] + password');
    Inputs(hash, LongToBytes(salt), user + [COLON] + password, user' + [COLON] + password);
    Cancel(user + [COLON], password, password', []);
    Ends(user + [COLON], password, password');
    Cancel([], user, user', [COLON] + password);
    Fronts(user, user', [COLON], password);
    var inner := LongToBytes(BytesToLong(hash(user + [COLON] + password)));
    SameBytes(salt, salt');
    Fronts(LongToBytes(salt), LongToBytes(salt'), inner, []);
    assert inner + [] == inner;
    assert LongToBytes(salt) + inner + [] == LongToBytes(salt) + inner;
    assert LongToBytes(salt') + inner + [] == LongToBytes(salt') + inner;
  }

  lemma Ends(a: bytes, b: bytes, c: bytes)
    ensures a + b == a + c <==> b == c
  {
    Cancel(a, b, c, []);
    assert a + b + [] == a + b && a + c + [] == a + c;
  }

  lemma Fronts(a: bytes, b: bytes, c: bytes, d: bytes)
    ensures a + c + d == b + c + d <==> a == b
  {
    Cancel([], a, b, c + d);
    assert [] + a + (c + d) == a + c + d && [] + b + (c + d) == b + c + d;
  }

  lemma Inputs(hash: Hash, salt: bytes, id: bytes, id': bytes)
    requires Distinguishes(hash)
    ensures var m, n := LongToBytes(BytesToLong(hash(id))), LongToBytes(BytesToLong(hash(id')));
      BytesToLong(hash(salt + m)) == BytesToLong(hash(salt + n)) <==> id == id'
  {
    hide LongToBytes, BytesToLong;
    Ends(salt, LongToBytes(BytesToLong(hash(id))), LongToBytes(BytesToLong(hash(id'))));
    SameBytes(BytesToLong(hash(id)), BytesToLong(hash(id')));
  }

  lemma {:induction false} PaddedValue(zeros: nat, s: bytes)
    ensures |Zeros(zeros) + s| == zeros + |s| && BytesToLong(Zeros(zeros) + s) == BytesToLong(s)
    decreases zeros, |s|
  {
    if s == [] {
      assert Zeros(zeros) + s == Zeros(zeros);
      ZerosValue(zeros);
    } else {
      PaddedValue(zeros, s[..|s| - 1]);
      assert (Zeros(zeros) + s)[..|Zeros(zeros) + s| - 1] == Zeros(zeros) + s[..|s| - 1];
    }
  }

  lemma {:induction false} ZerosValue(n: nat)
    ensures |Zeros(n)| == n && BytesToLong(Zeros(n)) == 0
    ensures n > 0 ==> Zeros(n) == Zeros(n - 1) + [0]
  {
    if n > 0 {
      ZerosValue(n - 1);
      if n > 1 {
        assert Zeros(n) == [0] + (Zeros(n - 2) + [0]) == ([0] + Zeros(n - 2)) + [0];
      }
      assert Zeros(n)[..|Zeros(n)| - 1] == Zeros(n - 1);
    }
  }

  /** Hashing two numbers at a width tells both apart and their order, whenever the
      hash does: u depends on both public values, and k on the group. */
  lemma TwoDependOnBoth(hash: Hash, p: nat, q: nat, p': nat, q': nat, w: nat)
    requires Distinguishes(hash)
    requires H(hash, [Num(p), Num(q)], Some(w)).Some? && H(hash, [Num(p'), Num(q')], Some(w)).Some?
    ensures H(hash, [Num(p), Num(q)], Some(w)) == H(hash, [Num(p'), Num(q')], Some(w)) <==> p == p' && q == q'
  {
    var a, b := TwoPadded(hash, p, q, w);
    var a', b' := TwoPadded(hash, p', q', w);
    hide H, LongToBytes;
    if a + b == a' + b' {
      assert a == (a + b)[..w] == a' && b == (a + b)[w..] == b';
    }
  }

  lemma TwoPadded(hash: Hash, p: nat, q: nat, w: nat) returns (a: bytes, b: bytes)
    requires H(hash, [Num(p), Num(q)], Some(w)).Some?
    ensures |a| == |b| == w && BytesToLong(a) == p && BytesToLong(b) == q
    ensures H(hash, [Num(p), Num(q)], Some(w)) == Some(BytesToLong(hash(a + b)))
  {
    var items, last := [Num(p), Num(q)], [Num(q)];
    assert items[1..] == last && last[1..] == [];
    TwoFit(hash, p, q, w);
    a, b := Padded(Num(p), Some(w)).value, Padded(Num(q), Some(w)).value;
    hide BytesToLong;
    assert b + [] == b && PaddedAll([], Some(w)) == Some([]);
    assert PaddedAll(last, Some(w)) == Some(b);
    PaddedValue(w - |LongToBytes(p)|, LongToBytes(p));
    PaddedValue(w - |LongToBytes(q)|, LongToBytes(q));
    LongReadsBack(p);
    LongReadsBack(q);
  }

  // ------------------------------------------------------ modular arithmetic

  function Pow(b: int, e: nat): int {
    if e == 0 then 1 else b * Pow(b, e - 1)
  }

  /** pow(b, e, n): non-negative also for a negative base. */
  function PowMod(b: int, e: nat, n: nat): nat
    requires n > 0
  {
    Pow(b, e) % n
  }

  predicate Cong(a: int, b: int, n: nat)
    requires n > 0
  {
    a % n == b % n
  }

  lemma ModSplit(a: int, n: nat) returns (q: int)
    requires n > 0
    ensures a == q * n + a % n
  {
    q := a / n;
  }

  lemma AddMultiple(a: int, k: int, n: nat)
    requires n > 0
    ensures (a + k * n) % n == a % n
  {
    var q := ModSplit(a, n);
    var p := ModSplit(a + k * n, n);
    var r, s := a % n, (a + k * n) % n;
    Distribute(p, q + k, n);
    assert r - s == (p - (q + k)) * n by { Distribute(q, k, n); }
    SmallMultiple(p - (q + k), n, r - s);
  }

  lemma CongMul(a: int, b: int, c: int, d: int, n: nat)
    requires n > 0 && Cong(a, b, n) && Cong(c, d, n)
    ensures Cong(a * c, b * d, n)
  {
    var p := CongDifference(a, b, n);
    var q := CongDifference(c, d, n);
    // a c = (b + p n)(d + q n) = b d + (b q + p c) n
    calc {
      a * c;
      (b + p * n) * c;
      b * c + (p * n) * c;
      { assert (p * n) * c == (p * c) * n by { Swap(p, n, c); } }
      b * (d + q * n) + (p * c) * n;
      { assert b * (q * n) == (b * q) * n; }
      b * d + (b * q) * n + (p * c) * n;
      { Distribute(b * q, p * c, n); }
      b * d + (b * q + p * c) * n;
    }
    AddMultiple(b * d, b * q + p * c, n);
  }

  lemma Swap(p: int, n: int, c: int)
    ensures (p * n) * c == (p * c) * n
  {
  }

  lemma CongDifference(a: int, b: int, n: nat) returns (k: int)
    requires n > 0 && Cong(a, b, n)
    ensures a == b + k * n
  {
    var p := ModSplit(a, n);
    var q := ModSplit(b, n);
    Distribute(p, q, n);
    k := p - q;
  }

  lemma {:induction false} CongPow(a: int, b: int, e: nat, n: nat)
    requires n > 0 && Cong(a, b, n)
    ensures Cong(Pow(a, e), Pow(b, e), n)
  {
    if e > 0 {
      CongPow(a, b, e - 1, n);
      CongMul(a, b, Pow(a, e - 1), Pow(b, e - 1), n);
    }
  }

  lemma {:induction false} PowAdd(b: int, x: nat, y: nat)
    ensures Pow(b, x + y) == Pow(b, x) * Pow(b, y)
  {
    if x > 0 {
      PowAdd(b, x - 1, y);
      Group(b, Pow(b, x - 1), Pow(b, y));
    }
  }

  lemma {:induction false} PowPow(b: int, x: nat, y: nat)
    ensures x * y >= 0 && Pow(Pow(b, x), y) == Pow(b, x * y)
  {
    if y > 0 {
      PowPow(b, x, y - 1);
      assert x * y == x + x * (y - 1);
      PowAdd(b, x, x * (y - 1));
    }
  }

  lemma ResidueCong(a: int, n: nat)
    requires n > 0
    ensures Cong(a % n, a, n)
  {
  }

  lemma CongSub(a: int, b: int, c: int, n: nat)
    requires n > 0 && Cong(a, b, n)
    ensures Cong(a - c, b - c, n)
  {
    var k := CongDifference(a, b, n);
    AddMultiple(b - c, k, n);
  }

  // ------------------------------------------------------------ key agreement

  /** The client's premaster secret: (B - k v)^(a + u x) mod N. */
  function ClientSecret(N: nat, g: nat, k: nat, x: nat, a: nat, B: nat, u: nat): nat
    requires N > 0
  {
    PowMod(B - k * PowMod(g, x, N), a + u * x, N)
  }

  /** The server's: (A v^u)^b mod N. */
  function ServerSecret(N: nat, v: nat, A: nat, b: nat, u: nat): nat
    requires N > 0
  {
    PowMod(A * Pow(v, u), b, N)
  }

  function ServerPublic(N: nat, g: nat, k: nat, v: nat, b: nat): nat
    requires N > 0
  {
    (k * v + Pow(g, b)) % N
  }

  /** Both sides reach g^(b (a + u x)) mod N, whatever the modulus and the exponents. */
  lemma KeyAgreement(N: nat, g: nat, k: nat, x: nat, a: nat, b: nat, u: nat)
    requires N > 0
    ensures var v := PowMod(g, x, N);
      ClientSecret(N, g, k, x, a, ServerPublic(N, g, k, v, b), u) ==
      ServerSecret(N, v, PowMod(g, a, N), b, u) == PowMod(g, b * (a + u * x), N)
  {
    var v, A := PowMod(g, x, N), PowMod(g, a, N);
    var B := ServerPublic(N, g, k, v, b);
    var e := a + u * x;
    ClientReaches(N, g, k, v, b, e);
    ServerReaches(N, g, a, x, u, b);
    PowPow(g, b, e);
    PowPow(g, e, b);
    assert b * e == e * b;
  }

  lemma ClientReaches(N: nat, g: nat, k: nat, v: nat, b: nat, e: nat)
    requires N > 0
    ensures Cong(Pow(ServerPublic(N, g, k, v, b) - k * v, e), Pow(Pow(g, b), e), N)
  {
    var full := k * v + Pow(g, b);
    ResidueCong(full, N);
    CongSub(full % N, full, k * v, N);
    CongPow(full % N - k * v, Pow(g, b), e, N);
  }

  lemma ServerReaches(N: nat, g: nat, a: nat, x: nat, u: nat, b: nat)
    requires N > 0
    ensures u * x >= 0
    ensures Cong(Pow(PowMod(g, a, N) * Pow(PowMod(g, x, N), u), b), Pow(Pow(g, a + u * x), b), N)
  {
    ResidueCong(Pow(g, a), N);
    ResidueCong(Pow(g, x), N);
    CongPow(PowMod(g, x, N), Pow(g, x), u, N);
    PowPow(g, x, u);
    assert x * u == u * x;
    CongMul(PowMod(g, a, N), Pow(g, a), Pow(PowMod(g, x, N), u), Pow(g, u * x), N);
    PowAdd(g, a, u * x);
    CongPow(PowMod(g, a, N) * Pow(PowMod(g, x, N), u), Pow(g, a + u * x), b, N);
  }

  // --------------------------------------------------------------- the proofs

  /** What the two sides hash into the proof M; `prefix` is the part that depends
      only on the group and the user. */
  function Proof(hash: Hash, prefix: bytes, salt: nat, A: nat, B: nat, K: bytes): bytes {
    hash(prefix + LongToBytes(salt) + LongToBytes(A) + LongToBytes(B) + K)
  }

  function Confirmation(hash: Hash, A: nat, M: bytes, K: bytes): bytes {
    hash(LongToBytes(A) + M + K)
  }

  /** No two inputs have the same digest. */
  ghost predicate Injective(hash: Hash) {
    forall x, y :: hash(x) == hash(y) ==> x == y
  }

  /** The proof of the client tells apart everything that goes into it: the group and
      user, the salt, both public values and the key. */
  lemma ProofDependsOnAll(hash: Hash, prefix: bytes, s: nat, A: nat, B: nat, K: bytes, prefix': bytes, n: nat, K': bytes)
    requires Injective(hash)
    ensures Proof(hash, prefix, s, A, B, K) == Proof(hash, prefix', s, A, B, K) <==> prefix == prefix'
    ensures Proof(hash, prefix, s, A, B, K) == Proof(hash, prefix, n, A, B, K) <==> s == n
    ensures Proof(hash, prefix, s, A, B, K) == Proof(hash, prefix, s, n, B, K) <==> A == n
    ensures Proof(hash, prefix, s, A, B, K) == Proof(hash, prefix, s, A, n, K) <==> B == n
    ensures Proof(hash, prefix, s, A, B, K) == Proof(hash, prefix, s, A, B, K') <==> K == K'
  {
    hide LongToBytes;
    var a, b, c, x := LongToBytes(s), LongToBytes(A), LongToBytes(B), LongToBytes(n);
    SameBytes(s, n);
    SameBytes(A, n);
    SameBytes(B, n);
    Fronts(prefix, prefix', a, b + c + K);
    Cancel(prefix, a, x, b + c + K);
    Cancel(prefix + a, b, x, c + K);
    Cancel(prefix + a + b, c, x, K);
    Ends(prefix + a + b + c, K, K');
    Flattened(prefix, a, b, c, K);
    Flattened(prefix', a, b, c, K);
    Flattened(prefix, x, b, c, K);
    Flattened(prefix, a, x, c, K);
  }

  lemma Flattened(p: bytes, a: bytes, b: bytes, c: bytes, d: bytes)
    ensures p + a + b + c + d == p + a + (b + c + d) == p + a + b + (c + d)
  {
  }

  /** So does the confirmation: the client's public value, its proof and the key. */
  lemma ConfirmationDependsOnAll(hash: Hash, A: nat, M: bytes, K: bytes, n: nat, M': bytes, K': bytes)
    requires Injective(hash)
    ensures Confirmation(hash, A, M, K) == Confirmation(hash, n, M, K) <==> A == n
    ensures Confirmation(hash, A, M, K) == Confirmation(hash, A, M', K) <==> M == M'
    ensures Confirmation(hash, A, M, K) == Confirmation(hash, A, M, K') <==> K == K'
  {
    hide LongToBytes;
    SameBytes(A, n);
    Fronts(LongToBytes(A), LongToBytes(n), M, K);
    Cancel(LongToBytes(A), M, M', K);
    Ends(LongToBytes(A) + M, K, K');
  }

  /** Enrolment: a salt from random bytes, as generate_salt_and_verifier makes it. */
  function Enrol(hash: Hash, N: nat, g: nat, user: bytes, password: bytes, random: bytes): (bytes, bytes)
    requires N > 0
  {
    var salt := LongToBytes(BytesToLong(random));
    (salt, LongToBytes(PowMod(g, X(hash, Raw(salt), user, password), N)))
  }

  /** Enrolment keeps the random number as the salt, and the verifier is g^x mod N for
      the x of that salt. */
  lemma EnrolKeepsSalt(hash: Hash, N: nat, g: nat, user: bytes, password: bytes, random: bytes)
    requires N > 0
    ensures var (salt, verifier) := Enrol(hash, N, g, user, password, random);
      && BytesToLong(salt) == BytesToLong(random) && Canonical(salt)
      && BytesToLong(verifier) == PowMod(g, X(hash, Num(BytesToLong(random)), user, password), N) < N
  {
    hide X, LongToBytes, BytesToLong, Pow;
    var salt := LongToBytes(BytesToLong(random));
    LongReadsBack(BytesToLong(random));
    SaltFormIrrelevant(hash, salt, user, password);
    LongReadsBack(PowMod(g, X(hash, Raw(salt), user, password), N));
  }

  /** None for a safety check that refuses; Raised for Python's ValueError. */
  datatype Answer = Refused | Raised | Proved(M: bytes)

  /** What happened to a client: a challenge it answered, the integers it was sent
      with the key and the confirmation it then expects, or a confirmation it was shown. */
  datatype Happening =
    | Answered(salt: nat, B: nat, key: bytes, expects: bytes)
    | Shown(host: bytes)

  /** The last challenge answered. */
  function Current(log: seq<Happening>): (r: Option<Happening>)
    ensures r.Some? ==> r.value.Answered? && r.value in log
  {
    if log == [] then None
    else if log[|log| - 1].Answered? then Some(log[|log| - 1])
    else Current(log[..|log| - 1])
  }

  /** What was shown last is the confirmation expected then. */
  predicate Accepts(log: seq<Happening>) {
    && log != [] && log[|log| - 1].Shown?
    && Current(log).Some? && Current(log).value.expects == log[|log| - 1].host
  }

  /** Some confirmation was accepted, of this challenge or of an earlier one. */
  predicate EverAccepted(log: seq<Happening>) {
    exists k :: 0 <= k <= |log| && Accepts(log[..k])
  }

  /** The server has shown a confirmation made with `key`, and it was accepted. */
  predicate KeyAccepted(log: seq<Happening>, key: bytes) {
    exists k :: 0 <= k <= |log| && Accepts(log[..k]) && Current(log[..k]).value.key == key
  }

  /** The server has proved itself for the current key. */
  predicate KeyProven(log: seq<Happening>) {
    Current(log).Some? && KeyAccepted(log, Current(log).value.key)
  }

  /** A challenge was answered after the last confirmation that was accepted. */
  predicate AnsweredSince(log: seq<Happening>) {
    exists j :: 0 <= j < |log| && log[j].Answered? && forall k :: j < k <= |log| ==> !Accepts(log[..k])
  }

  lemma {:induction false} CurrentKept(log: seq<Happening>, k: nat)
    requires k <= |log| && forall j :: k <= j < |log| ==> !log[j].Answered?
    ensures Current(log[..k]) == Current(log)
  {
    if k == |log| {
      assert log[..k] == log;
    } else {
      var front := log[..|log| - 1];
      CurrentKept(front, k);
      assert front[..k] == log[..k];
    }
  }

  /** With no challenge answered since the last acceptance the key is a proven one. */
  lemma UnchangedIsProven(log: seq<Happening>)
    requires EverAccepted(log) && !AnsweredSince(log)
    ensures KeyProven(log)
  {
    var k := LastAccepted(log);
    forall j | k <= j < |log| ensures !log[j].Answered? {
      assert j < |log| && forall i :: j < i <= |log| ==> !Accepts(log[..i]);
    }
    CurrentKept(log, k);
  }

  /** Answering a challenge leaves a proven key if and only if the new key is one the
      server has proved itself for before. */
  lemma AnswerProvenIff(log: seq<Happening>, a: Happening)
    requires a.Answered?
    ensures KeyProven(log + [a]) <==> KeyAccepted(log, a.key)
  {
    LogSnoc(log, a);
    Prefixes(log, a);
    var all := log + [a];
    if KeyProven(all) {
      var k :| 0 <= k <= |all| && Accepts(all[..k]) && Current(all[..k]).value.key == a.key;
      assert k <= |log| && log[..k] == all[..k];
    }
    if KeyAccepted(log, a.key) {
      var k :| 0 <= k <= |log| && Accepts(log[..k]) && Current(log[..k]).value.key == a.key;
      assert all[..k] == log[..k];
    }
  }

  lemma Prefixes(log: seq<Happening>, h: Happening)
    ensures var all := log + [h];
      (forall k :: 0 <= k <= |log| ==> all[..k] == log[..k]) && all[..|all|] == all
  {
  }

  lemma {:induction false} LastAccepted(log: seq<Happening>) returns (k: nat)
    requires EverAccepted(log)
    ensures k <= |log| && Accepts(log[..k]) && forall i :: k < i <= |log| ==> !Accepts(log[..i])
  {
    if Accepts(log) {
      k := |log|;
      assert log[..k] == log;
    } else {
      assert log[..|log|] == log;
      var front := log[..|log| - 1];
      assert forall i :: 0 <= i <= |front| ==> front[..i] == log[..i];
      k := LastAccepted(front);
    }
  }

  lemma ShownIsProven(log: seq<Happening>, host: bytes)
    requires Current(log).Some? && Current(log).value.expects == host
    ensures KeyProven(log + [Shown(host)]) && EverAccepted(log + [Shown(host)])
  {
    var all := log + [Shown(host)];
    LogSnoc(log, Shown(host));
    Prefixes(log, Shown(host));
    assert Accepts(all[..|all|]);
  }

  lemma LogSnoc(log: seq<Happening>, h: Happening)
    ensures Current(log + [h]) == if h.Answered? then Some(h) else Current(log)
    ensures EverAccepted(log + [h]) <==>
      EverAccepted(log) || (h.Shown? && Current(log).Some? && Current(log).value.expects == h.host)
  {
    var all := log + [h];
    Prefixes(log, h);
    assert all[..|log|] == log;
    assert Accepts(all) <==> h.Shown? && Current(log).Some? && Current(log).value.expects == h.host;
  }

  class Client {
    const hash: Hash
    const N: nat
    const g: nat
    const k: nat
    const user: bytes
    const password: bytes
    const prefix: bytes
    const a: nat
    const A: nat
    var K: Option<bytes>
    var confirmation: Option<bytes>
    var authenticated: bool
    ghost var log: seq<Happening>

    ghost predicate Valid()
      reads `K, `confirmation, `authenticated, `log
    {
      && Fixed()
      && authenticated == EverAccepted(log)
      && (forall h :: h in log ==> Computed(h))
      && match Current(log)
         case None => K == None && confirmation == None
         case Some(h) => K == Some(h.key) && confirmation == Some(h.expects)
    }

    /** The answer the code gives to these integers. */
    ghost predicate Computed(h: Happening)
      requires N > 0
    {
      h.Answered? ==>
        && U(h.B).Some? && h.key == hash(LongToBytes(Secret(h.salt, h.B)))
        && h.expects == Confirmation(hash, A, Proof(hash, prefix, h.salt, A, h.B, h.key), h.key)
    }

    /** The premaster secret for a challenge. */
    ghost function Secret(salt: nat, B: nat): nat
      requires N > 0
    {
      var u := U(B);
      ClientSecret(N, g, k, X(hash, Num(salt), user, password), a, B, if u.Some? then u.value else 0)
    }

    /** A confirmation was accepted for a challenge with this secret. */
    ghost predicate SecretAccepted(S: nat)
      requires N > 0
      reads `log
    {
      exists k :: 0 <= k <= |log| && Accepts(log[..k])
        && Secret(Current(log[..k]).value.salt, Current(log[..k]).value.B) == S
    }

    /** A confirmation was accepted for these very integers. */
    ghost predicate ChallengeAccepted(salt: nat, B: nat)
      reads `log
    {
      exists k :: 0 <= k <= |log| && Accepts(log[..k])
        && Current(log[..k]).value.salt == salt && Current(log[..k]).value.B == B
    }

    /** The key of a secret is one the server proved itself for if it confirmed a
        challenge with that secret, in particular these integers; and, unless two
        secrets have the same digest, only then. */
    lemma KeyAcceptedIff(salt: nat, B: nat)
      requires Valid()
      ensures var S := Secret(salt, B);
        && (ChallengeAccepted(salt, B) ==> SecretAccepted(S))
        && (SecretAccepted(S) ==> KeyAccepted(log, hash(LongToBytes(S))))
        && (Injective(hash) ==> (KeyAccepted(log, hash(LongToBytes(S))) <==> SecretAccepted(S)))
    {
      hide Secret, Current, LongToBytes, Confirmation, Proof;
      var S := Secret(salt, B);
      if SecretAccepted(S) {
        var k :| 0 <= k <= |log| && Accepts(log[..k])
          && Secret(Current(log[..k]).value.salt, Current(log[..k]).value.B) == S;
        assert Computed(Current(log[..k]).value);
      }
      if KeyAccepted(log, hash(LongToBytes(S))) && Injective(hash) {
        var k :| 0 <= k <= |log| && Accepts(log[..k]) && Current(log[..k]).value.key == hash(LongToBytes(S));
        var other := Current(log[..k]).value;
        assert Computed(other);
        SameBytes(S, Secret(other.salt, other.B));
      }
    }

    /** For which challenges the current key is a proven one. */
    lemma ProvenIffSecretConfirmed()
      requires Valid() && Current(log).Some?
      ensures var h := Current(log).value;
        && (ChallengeAccepted(h.salt, h.B) ==> SecretAccepted(Secret(h.salt, h.B)))
        && (SecretAccepted(Secret(h.salt, h.B)) ==> KeyProven(log))
        && (Injective(hash) ==> (KeyProven(log) <==> SecretAccepted(Secret(h.salt, h.B))))
    {
      var h := Current(log).value;
      assert Computed(h);
      hide Secret, Confirmation, Proof, LongToBytes;
      KeyAcceptedIff(h.salt, h.B);
    }

    ghost predicate Fixed() {
      && IsHash(hash) && 0 < g < N && A == PowMod(g, a, N)
      && H(hash, [Num(N), Num(g)], Some(|LongToBytes(N)|)) == Some(k)
    }

    constructor (hash: Hash, N: nat, g: nat, user: bytes, password: bytes, prefix: bytes, a: nat)
      requires IsHash(hash) && 0 < g < N
      ensures Valid() && !authenticated && K == None && confirmation == None && log == []
      ensures this.hash == hash && this.N == N && this.g == g && this.a == a
      ensures this.user == user && this.password == password && this.prefix == prefix
    {
      this.hash, this.N, this.g, this.a := hash, N, g, a;
      this.user, this.password, this.prefix := user, password, prefix;
      TwoFit(hash, N, g, |LongToBytes(N)|);
      LengthMonotone(g, N);
      k := H(hash, [Num(N), Num(g)], Some(|LongToBytes(N)|)).value;
      A := PowMod(g, a, N);
      K, confirmation, authenticated, log := None, None, false, [];
    }

    ghost function U(B: nat): Option<nat> {
      H(hash, [Num(A), Num(B)], Some(|LongToBytes(N)|))
    }

    /** Answer the server's salt and public value. The three outcomes are exact. */
    method ProcessChallenge(saltBytes: bytes, publicBytes: bytes) returns (r: Answer)
      requires Valid()
      modifies this
      ensures var B := BytesToLong(publicBytes);
        && (r == Raised <==> B % N != 0 && |LongToBytes(B)| > |LongToBytes(N)|)
        && (r == Refused <==> B % N == 0 || U(B) == Some(0))
        && (!r.Proved? ==> K == old(K) && confirmation == old(confirmation))
      ensures authenticated == old(authenticated)
      ensures r.Proved? ==>
        var B, s := BytesToLong(publicBytes), BytesToLong(saltBytes);
        && U(B).Some?
        && var S := ClientSecret(N, g, k, X(hash, Num(s), user, password), a, B, U(B).value);
        && K == Some(hash(LongToBytes(S)))
        && r.M == Proof(hash, prefix, s, A, B, K.value)
        && confirmation == Some(Confirmation(hash, A, r.M, K.value))
        && log == old(log) + [Answered(s, B, K.value, confirmation.value)]
        && (KeyProven(log) <==> KeyAccepted(old(log), K.value))
        && (old(ChallengeAccepted(s, B)) ==> KeyProven(log))
        && (old(SecretAccepted(Secret(s, B))) ==> KeyProven(log))
        && (Injective(hash) ==> (KeyProven(log) <==> old(SecretAccepted(Secret(s, B)))))
      ensures !r.Proved? ==> log == old(log)
      ensures Valid()
    {
      hide LongToBytes;
      hide BytesToLong;
      hide H;
      hide X;
      hide Pow;
      hide Confirmation;
      hide Current, EverAccepted, KeyAccepted, KeyProven, Injective, SecretAccepted, ChallengeAccepted;
      var s, B := BytesToLong(saltBytes), BytesToLong(publicBytes);
      KeyAcceptedIff(s, B);
      TwoFit(hash, A, B, |LongToBytes(N)|);
      LengthMonotone(A, N);
      if B % N == 0 {
        return Refused;
      }
      var hashed := H(hash, [Num(A), Num(B)], Some(|LongToBytes(N)|));
      if hashed == None {
        return Raised;
      }
      var u := hashed.value;
      if u == 0 {
        return Refused;
      }
      var x := X(hash, Num(s), user, password);
      var v := PowMod(g, x, N);
      var S := PowMod(B - k * v, a + u * x, N);
      K := Some(hash(LongToBytes(S)));
      var M := Proof(hash, prefix, s, A, B, K.value);
      if M == [] {
        assert false;
        return Refused;
      }
      confirmation := Some(Confirmation(hash, A, M, K.value));
      LogSnoc(log, Answered(s, B, K.value, confirmation.value));
      AnswerProvenIff(log, Answered(s, B, K.value, confirmation.value));
      assert S == Secret(s, B) && Computed(Answered(s, B, K.value, confirmation.value));
      log := log + [Answered(s, B, K.value, confirmation.value)];
      r := Proved(M);
    }

    method VerifySession(host: bytes)
      requires Valid()
      modifies `authenticated, `log
      ensures Valid() && log == old(log) + [Shown(host)]
      ensures authenticated == (old(authenticated) || confirmation == Some(host))
    {
      LogSnoc(log, Shown(host));
      log := log + [Shown(host)];
      if confirmation == Some(host) {
        authenticated := true;
      }
    }

    /** A key is handed out exactly when some confirmation has been accepted, and it
        is the key of the last challenge answered. It is one the server has proved
        itself for if no challenge was answered since, or if the secret is that of a
        challenge the server confirmed; under an injective hash, only if it is. */
    method SessionKey() returns (key: Option<bytes>)
      requires Valid()
      ensures key.Some? <==> EverAccepted(log)
      ensures key.Some? ==> Current(log).Some? && key.value == Current(log).value.key
      ensures key.Some? && !AnsweredSince(log) ==> KeyProven(log)
      ensures key.Some? && Injective(hash) ==>
        (KeyProven(log) <==> SecretAccepted(Secret(Current(log).value.salt, Current(log).value.B)))
    {
      if authenticated {
        AcceptedHasCurrent(log);
        ProvenIffSecretConfirmed();
        if !AnsweredSince(log) {
          UnchangedIsProven(log);
        }
      }
      key := if authenticated then K else None;
    }
  }

  // ------------------------------------- a key handed out that was never proven

  function Toy(x: bytes): bytes {
    if |x| == 1 then x else [1]
  }

  lemma ToyPair(p: byte, q: byte)
    ensures H(Toy, [Num(p), Num(q)], Some(1)) == Some(1)
    ensures HashOf(Toy, [Num(p), Num(q)]) == 1
  {
    var items, last := [Num(p), Num(q)], [Num(q)];
    OneByte(1);
    OneByte(p);
    OneByte(q);
    assert items[1..] == last && last[1..] == [];
    ToyPadded(p);
    ToyPadded(q);
    assert [q] + [] == [q] && [p] + [q] == [p, q];
    hide Padded, LongToBytes, BytesToLong;
    assert PaddedAll(last, Some(1)) == Some([q]);
    assert PaddedAll(items, Some(1)) == Some([p, q]);
    assert Joined(last) == [q];
    assert Joined(items) == ItemBytes(items[0]) + Joined(items[1..]) == [p, q];
  }

  lemma ToyPadded(b: byte)
    ensures Padded(Num(b), Some(1)) == Some([b])
  {
    assert Zeros(0) == [] && [] + [b] == [b];
  }

  lemma OneByte(b: byte)
    ensures BytesToLong([b]) == b && LongToBytes(b) == [b]
  {
    assert [b][..0] == [];
  }

  lemma ToyX()
    ensures X(Toy, Num(1), [], []) == 1
  {
    var inner := [Raw([] + [COLON] + [])];
    assert inner[1..] == [] && Joined(inner) == [COLON];
    OneByte(COLON);
    ToyPair(1, COLON);
  }

  /** In the group of 7 with generator 2 and client exponent 1, the secrets for the
      server values 3 and 4 are 1 and 4. */
  lemma ToySecret(B: byte)
    requires B == 3 || B == 4
    ensures ClientSecret(7, 2, 1, 1, 1, B, 1) == if B == 3 then 1 else 4
  {
    assert Pow(2, 1) == 2 * Pow(2, 0) && PowMod(2, 1, 7) == 2;
    assert Pow(B - 2, 2) == (B - 2) * Pow(B - 2, 1) && Pow(B - 2, 1) == (B - 2) * Pow(B - 2, 0);
  }

  ghost predicate IsToy(c: Client) {
    && c.hash == Toy && c.N == 7 && c.g == 2 && c.k == 1 && c.A == 2 && c.a == 1
    && c.user == [] && c.password == []
  }

  lemma {:induction false} ToyFacts(B: byte)
    requires B == 3 || B == 4
    ensures BytesToLong([1]) == 1 && BytesToLong([B]) == B
    ensures |LongToBytes(B)| == 1 && |LongToBytes(7)| == 1
    ensures H(Toy, [Num(2), Num(B)], Some(1)) == Some(1) && X(Toy, Num(1), [], []) == 1
    ensures Toy(LongToBytes(ClientSecret(7, 2, 1, 1, 1, B, 1))) == if B == 3 then [1] else [4]
  {
    hide *;
    ToyPair(2, B);
    ToyX();
    ToySecret(B);
    OneByte(1);
    OneByte(B);
    OneByte(4);
    OneByte(7);
    ToyOne(1);
    ToyOne(4);
  }

  lemma ToyOne(b: byte)
    ensures Toy([b]) == [b]
  {
  }

  /** The client's arithmetic for one of the two challenges. */
  method ToyAnswer(c: Client, B: byte)
    requires c.Valid() && IsToy(c) && (B == 3 || B == 4)
    modifies c
    ensures c.Valid() && c.K == Some(if B == 3 then [1] else [4]) && c.confirmation.Some?
    ensures c.authenticated == old(c.authenticated)
    ensures c.log == old(c.log) + [Answered(1, B, c.K.value, c.confirmation.value)]
    ensures KeyProven(c.log) <==> KeyAccepted(old(c.log), c.K.value)
  {
    ToyFacts(B);
    assert c.U(B) == Some(1) && B % 7 == B;
    hide *;
    var r := c.ProcessChallenge([1], [B]);
    assert r.Proved?;
  }

  method ToyClient() returns (c: Client)
    ensures fresh(c) && c.Valid() && IsToy(c) && c.log == [] && !c.authenticated
  {
    ToyPair(7, 2);
    OneByte(7);
    assert PowMod(2, 1, 7) == 2 by {
      assert Pow(2, 1) == 2 * Pow(2, 0);
    }
    c := new Client(Toy, 7, 2, [], [], [], 1);
  }

  /** A login that succeeds, and then one more challenge: the key of the second is
      handed out although no confirmation made with it was ever shown. */
  method UnprovenKeyIsHandedOut() returns (c: Client, key: Option<bytes>)
    ensures c.Valid() && key == Some([4]) && !KeyProven(c.log)
    ensures |c.log| == 3 && c.log[0].Answered? && c.log[1].Shown? && c.log[2].Answered?
  {
    hide *;
    c := ToyClient();
    ToyAnswer(c, 3);
    var expected := c.confirmation.value;
    ghost var first := c.log[0];
    c.VerifySession(expected);
    assert c.log == [first, Shown(expected)];
    assert first.expects == expected;
    OnlyOneAccepted(first, Shown(expected));
    ghost var log := c.log;
    ToyAnswer(c, 4);
    LogSnoc(log, c.log[2]);
    assert [1][0] != [4][0];
    key := c.SessionKey();
  }

  lemma OnlyOneAccepted(a: Happening, b: Happening)
    requires a.Answered? && b.Shown? && a.expects == b.host
    ensures EverAccepted([a, b])
    ensures forall key :: KeyAccepted([a, b], key) ==> key == a.key
  {
    var log := [a, b];
    assert log[..2] == log && log[..1] == [a] && log[..0] == [];
    assert Current([a]) == Some(a);
    assert Accepts(log[..2]);
  }

  lemma {:induction false} AcceptedHasCurrent(log: seq<Happening>)
    requires EverAccepted(log)
    ensures Current(log).Some?
  {
    if !log[|log| - 1].Answered? {
      var front := log[..|log| - 1];
      assert forall k :: 0 <= k <= |front| ==> front[..k] == log[..k];
      if !Accepts(log) {
        assert log[..|log|] == log;
        AcceptedHasCurrent(front);
      }
    }
  }

  /** Two numbers hash at a width exactly when both fit it. */
  lemma TwoFit(hash: Hash, p: nat, q: nat, w: nat)
    ensures H(hash, [Num(p), Num(q)], Some(w)).Some? <==> |LongToBytes(p)| <= w && |LongToBytes(q)| <= w
  {
    var items, last := [Num(p), Num(q)], [Num(q)];
    assert items[1..] == last && last[1..] == [];
    assert PaddedAll(last, Some(w)).Some? <==> |LongToBytes(q)| <= w;
  }

  lemma PublicIsReduced(N: nat, g: nat, k: nat, v: nat, b: nat)
    requires N > 0
    ensures ServerPublic(N, g, k, v, b) < N
    ensures ServerPublic(N, g, k, v, b) % N == ServerPublic(N, g, k, v, b)
  {
    ResidueCong(k * v + Pow(g, b), N);
  }

  /** What the client makes of an honest server's challenge is what the server
      expects: x comes out as at enrolment, and the secrets agree. */
  lemma HonestChallenge(hash: Hash, N: nat, g: nat, k: nat, user: bytes, password: bytes, random: bytes, a: nat, b: nat, u: nat)
    requires N > 0
    ensures var (salt, verifier) := Enrol(hash, N, g, user, password, random);
      var v := BytesToLong(verifier);
      var B := ServerPublic(N, g, k, v, b);
      BytesToLong(LongToBytes(B)) == B < N && B % N == B &&
      ClientSecret(N, g, k, X(hash, Num(BytesToLong(salt)), user, password), a, B, u)
        == ServerSecret(N, v, PowMod(g, a, N), b, u)
  {
    hide X;
    hide LongToBytes;
    hide ClientSecret;
    hide ServerSecret;
    hide ServerPublic;
    PublicIsReduced(N, g, k, PowMod(g, X(hash, Raw(LongToBytes(BytesToLong(random))), user, password), N), b);
    var salt := LongToBytes(BytesToLong(random));
    var x := X(hash, Raw(salt), user, password);
    LongReadsBack(BytesToLong(random));
    SaltFormIrrelevant(hash, salt, user, password);
    LongReadsBack(PowMod(g, x, N));
    LongReadsBack(ServerPublic(N, g, k, PowMod(g, x, N), b));
    KeyAgreement(N, g, k, x, a, b, u);
  }

  /** The scrambler of a client tells both public values apart, and its multiplier the
      generator, whenever the hash does. */
  lemma ScramblerDependsOnBoth(c: Client, d: Client, B: nat, B': nat)
    requires c.Fixed() && d.Fixed() && c.hash == d.hash && c.N == d.N && Distinguishes(c.hash)
    requires c.U(B).Some? && d.U(B').Some?
    ensures c.U(B) == d.U(B') <==> c.A == d.A && B == B'
    ensures c.k == d.k <==> c.g == d.g
  {
    hide H, LongToBytes;
    TwoDependOnBoth(c.hash, c.A, B, d.A, B', |LongToBytes(c.N)|);
    TwoDependOnBoth(c.hash, c.N, c.g, c.N, d.g, |LongToBytes(c.N)|);
  }

  /** What an honest server derives for its own public value. */
  ghost function ServerKey(c: Client, v: nat, b: nat, B: nat): bytes
    requires c.N > 0 && c.U(B).Some?
  {
    c.hash(LongToBytes(ServerSecret(c.N, v, c.A, b, c.U(B).value)))
  }

  /** A whole login against an honest server holding what enrolment produced: unless
      a safety check refuses the server's public value, both sides hold the same key,
      the server's expected proof is the one sent, and its confirmation is accepted. */
  method HonestLogin(c: Client, random: bytes, b: nat) returns (r: Answer, key: Option<bytes>)
    requires c.Valid()
    modifies c
    ensures var (salt, verifier) := Enrol(c.hash, c.N, c.g, c.user, c.password, random);
      var v := BytesToLong(verifier);
      var B := ServerPublic(c.N, c.g, c.k, v, b);
      && c.U(B).Some? && r != Raised
      && (r == Refused <==> B == 0 || c.U(B) == Some(0))
      && (r.Proved? ==> key == Some(ServerKey(c, v, b, B)))
      && (r.Proved? ==>
            r.M == Proof(c.hash, c.prefix, BytesToLong(salt), c.A, B, ServerKey(c, v, b, B)))
      && (r.Proved? ==> KeyProven(c.log))
    ensures c.Valid()
  {
    var (salt, verifier) := Enrol(c.hash, c.N, c.g, c.user, c.password, random);
    var v := BytesToLong(verifier);
    var B := ServerPublic(c.N, c.g, c.k, v, b);
    hide Enrol;
    hide ServerPublic;
    hide ClientSecret;
    hide ServerSecret;
    hide Proof;
    hide X;
    hide LongToBytes;
    hide BytesToLong;
    hide H;
    hide IsHash;
    hide PowMod;
    hide Current, EverAccepted, KeyProven, KeyAccepted, AnsweredSince;
    TwoFit(c.hash, c.A, B, |LongToBytes(c.N)|);
    var u := H(c.hash, [Num(c.A), Num(B)], Some(|LongToBytes(c.N)|));
    HonestChallenge(c.hash, c.N, c.g, c.k, c.user, c.password, random, c.a, b, 0);
    LengthMonotone(B, c.N);
    LengthMonotone(c.A, c.N);
    HonestChallenge(c.hash, c.N, c.g, c.k, c.user, c.password, random, c.a, b, u.value);
    r := c.ProcessChallenge(salt, LongToBytes(B));
    if r.Proved? {
      var serverKey := c.hash(LongToBytes(ServerSecret(c.N, v, c.A, b, u.value)));
      ShownIsProven(c.log, Confirmation(c.hash, c.A, r.M, serverKey));
      c.VerifySession(Confirmation(c.hash, c.A, r.M, serverKey));
    }
    key := c.SessionKey();
  }
}
