/** Merging scan results that carry the same SSID, in place
    (src/esp_wifi_config_network.c). */
module ScanDedupe {
  import opened Common

  datatype Seen = Seen(ssid: string, rssi: int, auth: int)

  /** `s` without the entries named `ssid`. */
  function Without(s: seq<Seen>, ssid: string): (r: seq<Seen>)
    ensures |r| <= |s|
  {
    if s == [] then []
    else if s[0].ssid == ssid then Without(s[1..], ssid)
    else [s[0]] + Without(s[1..], ssid)
  }

  /** `head` after taking over every stronger entry of its name, in order. */
  function Strongest(head: Seen, s: seq<Seen>): (r: Seen)
    ensures r.ssid == head.ssid
    decreases |s|
  {
    if s == [] then head
    else if s[0].ssid == head.ssid && s[0].rssi > head.rssi then
      Strongest(head.(rssi := s[0].rssi, auth := s[0].auth), s[1..])
    else Strongest(head, s[1..])
  }

  /** Reference: one entry per name, in order of first occurrence. */
  function Deduped(s: seq<Seen>): seq<Seen>
    decreases |s|
  {
    if s == [] then []
    else [Strongest(s[0], s[1..])] + Deduped(Without(s[1..], s[0].ssid))
  }

  // --------------------------------------------------------------- in place

  /** The nested loops of the source: shift duplicates of entry i out, keep the
      strongest reading. Slots past the returned count are left over. */
  method Dedupe(a: array<Seen>, n: nat) returns (count: nat)
    requires n <= a.Length
    modifies a
    ensures count <= n && a[..count] == Deduped(old(a[..n]))
    ensures a[n..] == old(a[n..])
  {
    count := n;
    var i := 0;
    while i < count
      invariant 0 <= i <= count <= n && a[n..] == old(a[n..])
      invariant Deduped(old(a[..n])) == a[..i] + Deduped(a[i..count])
    {
      ghost var done, rest := a[..i], a[i..count];
      count := AbsorbDuplicates(a, i, count, n);
      assert a[..i + 1] == done + [a[i]];
      Associative(done, [a[i]], Deduped(a[i + 1..count]));
      i := i + 1;
    }
    assert a[i..count] == [];
    assert a[..i] + [] == a[..i];
  }

  method AbsorbDuplicates(a: array<Seen>, i: nat, n: nat, bound: nat) returns (count: nat)
    requires i < n <= bound <= a.Length
    modifies a
    ensures i < count <= n && a[..i] == old(a[..i]) && a[bound..] == old(a[bound..])
    ensures a[i] == Strongest(old(a[i]), old(a[i + 1..n]))
    ensures a[i + 1..count] == Without(old(a[i + 1..n]), old(a[i]).ssid)
  {
    hide Without, Strongest;
    count := n;
    var j := i + 1;
    ghost var name := a[i].ssid;
    while j < count
      invariant i < j <= count <= n && a[i].ssid == name
      invariant a[..i] == old(a[..i]) && a[bound..] == old(a[bound..])
      invariant Strongest(a[i], a[j..count]) == Strongest(old(a[i]), old(a[i + 1..n]))
      invariant a[i + 1..j] + Without(a[j..count], name) == Without(old(a[i + 1..n]), name)
      decreases count - j
    {
      ghost var kept, rest := a[i + 1..j], a[j..count];
      assert rest[0] == a[j];
      TakeFirst(a[i], rest);
      if a[i].ssid == a[j].ssid {
        AbsorbOne(a, i, j, count);
        count := count - 1;
        assert a[j..count] == rest[1..] && a[i + 1..j] == kept;
      } else {
        assert a[i + 1..j + 1] == kept + [a[j]];
        assert a[j + 1..count] == rest[1..];
        Associative(kept, [a[j]], Without(rest[1..], name));
        j := j + 1;
      }
    }
    assert a[j..count] == [];
    NothingLeft(a[i]);
    assert a[i + 1..j] + [] == a[i + 1..j];
  }

  /** Entry i takes over the duplicate at j if it is stronger, and j is closed. */
  method AbsorbOne(a: array<Seen>, i: nat, j: nat, count: nat)
    requires i < j < count <= a.Length
    modifies a
    ensures a[..i] == old(a[..i]) && a[i + 1..j] == old(a[i + 1..j]) && a[count..] == old(a[count..])
    ensures a[i] == old(if a[j].rssi > a[i].rssi then a[i].(rssi := a[j].rssi, auth := a[j].auth) else a[i])
    ensures a[j..count - 1] == old(a[j + 1..count])
  {
    if a[j].rssi > a[i].rssi {
      a[i] := a[i].(rssi := a[j].rssi, auth := a[j].auth);
    }
    ghost var front := a[..j];
    assert front[..i] == old(a[..i]) && front[i + 1..] == old(a[i + 1..j]);
    CloseGap(a, j, count);
    assert a[..j][..i] == a[..i] && a[..j][i + 1..] == a[i + 1..j] && a[..j][i] == a[i];
  }

  lemma TakeFirst(head: Seen, s: seq<Seen>)
    requires s != []
    ensures Without(s, head.ssid) ==
      if s[0].ssid == head.ssid then Without(s[1..], head.ssid) else [s[0]] + Without(s[1..], head.ssid)
    ensures Strongest(head, s) ==
      if s[0].ssid == head.ssid && s[0].rssi > head.rssi
      then Strongest(head.(rssi := s[0].rssi, auth := s[0].auth), s[1..]) else Strongest(head, s[1..])
  {
  }

  lemma NothingLeft(head: Seen)
    ensures Without([], head.ssid) == [] && Strongest(head, []) == head
  {
  }

  /** The memmove: entries after j move down one slot. */
  method CloseGap(a: array<Seen>, j: nat, count: nat)
    requires j < count <= a.Length
    modifies a
    ensures a[..j] == old(a[..j]) && a[count..] == old(a[count..])
    ensures a[j..count - 1] == old(a[j + 1..count])
  {
    forall k | j <= k < count - 1 {
      a[k] := a[k + 1];
    }
  }

  // ------------------------------------------------------------- what it means

  predicate Named(s: seq<Seen>, ssid: string) {
    exists k :: 0 <= k < |s| && s[k].ssid == ssid
  }

  /** Names in order of first occurrence. */
  function FirstNames(s: seq<Seen>): seq<string>
    decreases |s|
  {
    if s == [] then [] else [s[0].ssid] + FirstNames(Without(s[1..], s[0].ssid))
  }

  lemma {:induction false} WithoutElements(s: seq<Seen>, ssid: string, x: Seen)
    ensures x in Without(s, ssid) <==> x in s && x.ssid != ssid
  {
    if s != [] {
      WithoutElements(s[1..], ssid, x);
    }
  }

  lemma {:induction false} WithoutNamed(s: seq<Seen>, ssid: string, other: string)
    ensures Named(Without(s, ssid), other) <==> Named(s, other) && other != ssid
  {
    if Named(Without(s, ssid), other) {
      var k :| 0 <= k < |Without(s, ssid)| && Without(s, ssid)[k].ssid == other;
      WithoutElements(s, ssid, Without(s, ssid)[k]);
    }
    if Named(s, other) && other != ssid {
      var k :| 0 <= k < |s| && s[k].ssid == other;
      WithoutElements(s, ssid, s[k]);
    }
  }

  /** The surviving reading is the maximum over the name's readings, and its auth
      mode is that of the first entry reaching it. */
  lemma {:induction false} StrongestIsFirstMax(head: Seen, s: seq<Seen>)
    ensures var all := [head] + s;
      var r := Strongest(head, s);
      && (forall x :: x in all && x.ssid == head.ssid ==> x.rssi <= r.rssi)
      && exists k :: FirstReaching(all, k, r)
    decreases |s|
  {
    var all, r := [head] + s, Strongest(head, s);
    if s == [] {
      assert FirstReaching(all, 0, r);
    } else {
      var taken := s[0].ssid == head.ssid && s[0].rssi > head.rssi;
      var next := if taken then head.(rssi := s[0].rssi, auth := s[0].auth) else head;
      StrongestIsFirstMax(next, s[1..]);
      var shorter := [next] + s[1..];
      assert next in shorter;
      forall x | x in all && x.ssid == head.ssid ensures x.rssi <= r.rssi {
        if x != head && x != s[0] {
          assert x in s[1..];
        }
      }
      var k :| FirstReaching(shorter, k, r);
      ReachedLater(head, s, next, k, r);
    }
  }

  lemma ReachedLater(head: Seen, s: seq<Seen>, next: Seen, k: nat, r: Seen)
    requires s != [] && FirstReaching([next] + s[1..], k, r) && r.ssid == head.ssid
    requires next == if s[0].ssid == head.ssid && s[0].rssi > head.rssi
                     then head.(rssi := s[0].rssi, auth := s[0].auth) else head
    ensures exists at :: FirstReaching([head] + s, at, r)
  {
    var all, shorter := [head] + s, [next] + s[1..];
    var at := if k > 0 then k + 1 else if next != head then 1 else 0;
    assert k > 0 ==> shorter[0].ssid == r.ssid && shorter[0].rssi < r.rssi;
    assert forall j :: 2 <= j < |all| ==> all[j] == shorter[j - 1];
    assert FirstReaching(all, at, r);
  }

  /** Entry k carries the name, reading and mode of r, and no earlier entry of that
      name reads as strong. */
  predicate FirstReaching(all: seq<Seen>, k: int, r: Seen) {
    && 0 <= k < |all| && all[k] == r
    && forall j :: 0 <= j < k && all[j].ssid == r.ssid ==> all[j].rssi < r.rssi
  }

  function Names(s: seq<Seen>): seq<string> {
    seq(|s|, i requires 0 <= i < |s| => s[i].ssid)
  }

  /** Names come out in first-occurrence order. */
  lemma {:induction false} NamesInOrder(s: seq<Seen>)
    ensures Names(Deduped(s)) == FirstNames(s)
    decreases |s|
  {
    if s != [] {
      NamesInOrder(Without(s[1..], s[0].ssid));
      var d := Deduped(s);
      assert Names(d) == [d[0].ssid] + Names(d[1..]);
    }
  }

  /** The same names as before, each once. */
  lemma {:induction false} NamesKeptOnce(s: seq<Seen>)
    ensures forall i, j :: 0 <= i < j < |Deduped(s)| ==> Deduped(s)[i].ssid != Deduped(s)[j].ssid
    ensures forall name :: Named(Deduped(s), name) <==> Named(s, name)
    decreases |s|
  {
    if s != [] {
      var d := Deduped(s);
      var rest := Without(s[1..], s[0].ssid);
      NamesKeptOnce(rest);
      assert d[1..] == Deduped(rest);
      forall name ensures Named(d, name) <==> Named(s, name) {
        NamedCons(d, name);
        NamedCons(s, name);
        WithoutNamed(s[1..], s[0].ssid, name);
      }
      forall j | 1 <= j < |d| ensures d[0].ssid != d[j].ssid {
        assert d[1..][j - 1] == d[j];
        assert Named(Deduped(rest), d[j].ssid);
        WithoutNamed(s[1..], s[0].ssid, d[j].ssid);
      }
      forall i, j | 0 <= i < j < |d| ensures d[i].ssid != d[j].ssid {
        if i > 0 {
          assert d[i] == d[1..][i - 1] && d[j] == d[1..][j - 1];
        }
      }
    }
  }

  lemma NamedCons(s: seq<Seen>, name: string)
    requires s != []
    ensures Named(s, name) <==> s[0].ssid == name || Named(s[1..], name)
  {
    if Named(s[1..], name) {
      var k :| 0 <= k < |s[1..]| && s[1..][k].ssid == name;
      assert s[k + 1].ssid == name;
    }
    if Named(s, name) {
      var k :| 0 <= k < |s| && s[k].ssid == name;
      assert k > 0 ==> s[1..][k - 1].ssid == name;
    }
  }

  /** Each surviving entry is the maximum of its name's entries and the first of
      the input to reach it. */
  lemma {:induction false} EntriesAreFirstMax(s: seq<Seen>, r: Seen)
    requires r in Deduped(s)
    ensures forall x :: x in s && x.ssid == r.ssid ==> x.rssi <= r.rssi
    ensures exists k :: FirstReaching(s, k, r)
    decreases |s|
  {
    var rest := Without(s[1..], s[0].ssid);
    StrongestIsFirstMax(s[0], s[1..]);
    assert [s[0]] + s[1..] == s;
    if r != Strongest(s[0], s[1..]) {
      EntriesAreFirstMax(rest, r);
      NamesKeptOnce(rest);
      assert r.ssid != s[0].ssid by {
        var k :| 0 <= k < |Deduped(rest)| && Deduped(rest)[k] == r;
        assert Named(Deduped(rest), r.ssid);
        WithoutNamed(s[1..], s[0].ssid, r.ssid);
      }
      forall x | x in s && x.ssid == r.ssid ensures x.rssi <= r.rssi {
        WithoutElements(s[1..], s[0].ssid, x);
      }
      var k :| FirstReaching(rest, k, r);
      var l := PutBack(s[1..], s[0].ssid, k, r);
      assert FirstReaching(s, l + 1, r) by {
        forall j | 0 <= j < l + 1 && s[j].ssid == r.ssid ensures s[j].rssi < r.rssi {
          assert s[1..][j - 1] == s[j];
        }
      }
    }
  }

  /** Entries of other names do not change who is first. */
  lemma {:induction false} PutBack(s: seq<Seen>, ssid: string, k: int, r: Seen) returns (l: int)
    requires FirstReaching(Without(s, ssid), k, r) && r.ssid != ssid
    ensures FirstReaching(s, l, r)
  {
    var w := Without(s, ssid);
    if s[0].ssid == ssid {
      l := PutBack(s[1..], ssid, k, r);
      l := l + 1;
      assert forall j :: 1 <= j < |s| ==> s[j] == s[1..][j - 1];
    } else if k == 0 {
      l := 0;
    } else {
      assert w[1..] == Without(s[1..], ssid);
      assert FirstReaching(w[1..], k - 1, r) by {
        forall j | 0 <= j < k - 1 && w[1..][j].ssid == r.ssid ensures w[1..][j].rssi < r.rssi {
          assert w[1..][j] == w[j + 1];
        }
      }
      l := PutBack(s[1..], ssid, k - 1, r);
      l := l + 1;
      assert forall j :: 1 <= j < |s| ==> s[j] == s[1..][j - 1];
      assert s[0] == w[0];
    }
  }

  predicate StrongestFirst(s: seq<Seen>) {
    forall i, j :: 0 <= i < j < |s| ==> s[i].rssi >= s[j].rssi
  }

  lemma {:induction false} AlreadyStrongest(head: Seen, s: seq<Seen>)
    requires forall x :: x in s ==> x.rssi <= head.rssi
    ensures Strongest(head, s) == head
  {
    if s != [] {
      assert s[0] in s;
      AlreadyStrongest(head, s[1..]);
    }
  }

  lemma {:induction false} WithoutSorted(s: seq<Seen>, ssid: string)
    requires StrongestFirst(s)
    ensures StrongestFirst(Without(s, ssid))
  {
    if s != [] {
      WithoutSorted(s[1..], ssid);
      var w := Without(s[1..], ssid);
      forall k | 0 <= k < |w| ensures w[k].rssi <= s[0].rssi {
        WithoutElements(s[1..], ssid, w[k]);
      }
    }
  }

  /** A strongest-first list stays strongest-first. */
  lemma {:induction false} OrderKept(s: seq<Seen>)
    requires StrongestFirst(s)
    ensures StrongestFirst(Deduped(s))
    ensures forall r :: r in Deduped(s) ==> r in s
    decreases |s|
  {
    if s != [] {
      var rest := Without(s[1..], s[0].ssid);
      WithoutSorted(s[1..], s[0].ssid);
      OrderKept(rest);
      AlreadyStrongest(s[0], s[1..]);
      forall r | r in Deduped(rest) ensures r in s && r.rssi <= s[0].rssi {
        WithoutElements(s[1..], s[0].ssid, r);
      }
    }
  }
}
