/** The exponential backoff delay (src/esp_wifi_config_network.c) and the deadline
    it is turned into (src/esp_wifi_config.c), in 32-bit arithmetic. */
module Backoff {
  import opened Common

  const WORD: int := 0x1_0000_0000
  const HALF: int := 0x8000_0000

  function Pow2(n: nat): (p: int)
    ensures p >= 1
  {
    if n == 0 then 1 else 2 * Pow2(n - 1)
  }

  function Min(a: int, b: int): int {
    if a < b then a else b
  }

  /** `base << retry` on 32 bits; shifts of 32 or more have no defined value in C. */
  function Shifted(base: uint32, retry: nat): uint32
    requires retry < 32
  {
    base * Pow2(retry) % WORD
  }

  /** The cap and the wrap check applied to whatever the shift gave. */
  function Capped(base: uint32, max: uint32, shifted: uint32): uint32 {
    if shifted > max || shifted < base then max else shifted
  }

  function Delay(base: uint32, max: uint32, retry: nat): uint32
    requires retry < 32
  {
    Capped(base, max, Shifted(base, retry))
  }

  /** Whatever value the shift yields, the delay is neither shorter than the base
      interval (or the cap, if that is smaller) nor longer than the cap. */
  lemma DelayWithinBounds(base: uint32, max: uint32, shifted: uint32)
    ensures Min(base, max) <= Capped(base, max, shifted) <= max
  {
  }

  lemma {:induction false} Pow2Add(a: nat, b: nat)
    ensures Pow2(a + b) == Pow2(a) * Pow2(b)
  {
    if a > 0 {
      Pow2Add(a - 1, b);
      Group(2, Pow2(a - 1), Pow2(b));
    }
  }

  /** A 32-bit word is a whole number of powers of two up to the 32nd. */
  lemma WordDivides(retry: nat) returns (q: int)
    requires retry <= 32
    ensures q >= 1 && q * Pow2(retry) == WORD
  {
    q := Pow2(32 - retry);
    Pow2Add(32 - retry, retry);
    WordIsPow2();
  }

  lemma WordIsPow2()
    ensures Pow2(32) == WORD
  {
    assert Pow2(4) == 16;
    Pow2Add(4, 4);
    Pow2Add(8, 8);
    Pow2Add(16, 16);
  }

  lemma Remainder(base: nat, p: nat, q: nat) returns (m: int)
    requires q * p == WORD
    ensures base * p % WORD == m * p
  {
    var k := base * p / WORD;
    Group(k, q, p);
    Distribute(base, k * q, p);
    m := base - k * q;
  }

  /** The wrapped shift is a multiple of the power of two: zero or at least it. */
  lemma WrappedIsMultiple(base: uint32, retry: nat)
    requires retry < 32
    ensures Shifted(base, retry) == 0 || Shifted(base, retry) >= Pow2(retry)
  {
    var p := Pow2(retry);
    var q := WordDivides(retry);
    var m := Remainder(base, p, q);
    if m >= 1 {
      Scale(1, m, p);
    } else if m < 0 {
      Scale(m, -1, p);
    }
  }

  /** The delay is min(base * 2^retry, max) exactly unless the shift wraps into
      [base, max): that is the one wrap the check does not see. */
  lemma DelayExactIff(base: uint32, max: uint32, retry: nat)
    requires base > 0 && retry < 32
    ensures Delay(base, max, retry) == Min(base * Pow2(retry), max) <==>
      !(base * Pow2(retry) >= WORD && base <= Shifted(base, retry) < max)
  {
    Scale(1, Pow2(retry), base);
    CappedIff(base, max, base * Pow2(retry));
  }

  lemma CappedIff(base: uint32, max: uint32, full: nat)
    requires 0 < base <= full
    ensures Capped(base, max, full % WORD) == Min(full, max) <==>
      !(full >= WORD && base <= full % WORD < max)
  {
  }

  /** When base * max fits 32 bits no retry below 32 wraps unseen. */
  lemma {:induction false} DelayExact(base: uint32, max: uint32, retry: nat)
    requires base > 0 && base * max < WORD && retry < 32
    ensures Delay(base, max, retry) == Min(base * Pow2(retry), max)
  {
    hide Pow2, Delay;
    DelayExactIff(base, max, retry);
    WrappedIsMultiple(base, retry);
    if Pow2(retry) <= max {
      Scale(Pow2(retry), max, base);
    }
  }

  /** A wrap the check misses: 5 * 2^26 * 2^4 wraps to 2^30, above the base. */
  lemma UnseenWrap()
    ensures var base, max := 0x1400_0000, 0x6000_0000;
      Delay(base, max, 4) == 0x4000_0000 < Min(base * Pow2(4), max)
  {
    assert Pow2(4) == 16;
  }

  // --------------------------------------------------------------- deadlines

  function Tick(time: nat): uint32 {
    time % WORD
  }

  /** The cast of a 32-bit difference to a signed integer. */
  function Signed(x: int): int {
    var u := x % WORD;
    if u >= HALF then u - WORD else u
  }

  function DueTick(now: uint32, delay: uint32): uint32 {
    (now + delay) % WORD
  }

  /** The manager task's test that a scheduled retry is due. */
  predicate IsDue(now: uint32, due: uint32) {
    Signed(now - due) >= 0
  }

  /** Queue timeout while a retry is scheduled. */
  function WaitTicks(now: uint32, due: uint32): int {
    var remaining := Signed(due - now);
    if remaining > 0 then remaining else 0
  }

  /** Times here are true, unbounded times; the code only sees them modulo 2^32. */
  lemma DueIff(start: nat, delay: uint32, now: nat)
    requires delay < HALF && start <= now < start + delay + HALF
    ensures IsDue(Tick(now), DueTick(Tick(start), delay)) <==> now >= start + delay
    ensures now < start + delay ==>
      WaitTicks(Tick(now), DueTick(Tick(start), delay)) == start + delay - now
  {
    var late := now - start - delay;
    Congruent(now, start, delay);
    assert (Tick(now) - DueTick(Tick(start), delay)) % WORD == late % WORD;
    assert (DueTick(Tick(start), delay) - Tick(now)) % WORD == (-late) % WORD;
  }

  lemma Congruent(now: nat, start: nat, delay: uint32)
    ensures (Tick(now) - DueTick(Tick(start), delay)) % WORD == (now - start - delay) % WORD
    ensures (DueTick(Tick(start), delay) - Tick(now)) % WORD == (start + delay - now) % WORD
  {
    var a, b := now / WORD, start / WORD;
    var c := (Tick(start) + delay) / WORD;
    assert Tick(now) == now - a * WORD && Tick(start) == start - b * WORD;
    assert DueTick(Tick(start), delay) == Tick(start) + delay - c * WORD;
    Shift(now - start - delay, b + c - a);
    Shift(start + delay - now, a - b - c);
  }

  lemma Shift(x: int, k: int)
    ensures (x + k * WORD) % WORD == x % WORD
  {
  }

  /** When the task checks at `times`, each check less than 2^31 ticks after the
      one before, the retry fires at the first check at or after the deadline and
      at none before it, however often the tick counter wraps in between. */
  lemma FiresAtFirstCheckAfter(start: nat, delay: uint32, times: seq<nat>, k: nat)
    requires delay < HALF && k < |times|
    requires start <= times[0] < start + HALF
    requires forall j :: 0 < j < |times| ==> times[j - 1] <= times[j] < times[j - 1] + HALF
    requires forall j :: 0 <= j < k ==> !IsDue(Tick(times[j]), DueTick(Tick(start), delay))
    ensures IsDue(Tick(times[k]), DueTick(Tick(start), delay)) <==> times[k] >= start + delay
    ensures forall j :: 0 <= j < k ==> times[j] < start + delay
  {
    var j := 0;
    while j < k
      invariant 0 <= j <= k && start <= times[j] < start + delay + HALF
      invariant forall i :: 0 <= i < j ==> times[i] < start + delay
    {
      DueIff(start, delay, times[j]);
      j := j + 1;
    }
    DueIff(start, delay, times[k]);
  }
}
