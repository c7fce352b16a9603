/** Saved networks and the in-place sort by descending priority
    (src/esp_wifi_config_network.c). */
module NetworkSort {
  import opened Common

  datatype Network = Network(ssid: string, password: string, priority: byte)

  predicate Descending(s: seq<Network>) {
    forall i, j :: 0 <= i < j < |s| ==> s[i].priority >= s[j].priority
  }

  /** The networks of one priority, in order. */
  function OfPriority(s: seq<Network>, p: byte): seq<Network> {
    if s == [] then []
    else if s[0].priority == p then [s[0]] + OfPriority(s[1..], p)
    else OfPriority(s[1..], p)
  }

  /** Same networks, and networks of equal priority in the same order. */
  ghost predicate SameClasses(s: seq<Network>, t: seq<Network>) {
    forall p: byte :: OfPriority(s, p) == OfPriority(t, p)
  }

  function Insert(n: Network, s: seq<Network>): seq<Network> {
    if s == [] || s[0].priority <= n.priority then [n] + s else [s[0]] + Insert(n, s[1..])
  }

  /** Stable sort by descending priority, as a reference. */
  function StableSort(s: seq<Network>): seq<Network> {
    if s == [] then [] else Insert(s[0], StableSort(s[1..]))
  }

  lemma {:induction false} InsertSorts(n: Network, s: seq<Network>)
    requires Descending(s)
    ensures Descending(Insert(n, s))
    ensures forall k :: 0 <= k < |Insert(n, s)| ==>
      Insert(n, s)[k].priority <= n.priority || (s != [] && Insert(n, s)[k].priority <= s[0].priority)
  {
    if s != [] && s[0].priority > n.priority {
      InsertSorts(n, s[1..]);
    }
  }

  lemma {:induction false} InsertAdds(n: Network, s: seq<Network>)
    ensures multiset(Insert(n, s)) == multiset{n} + multiset(s)
  {
    if s != [] {
      assert s == [s[0]] + s[1..];
      if s[0].priority > n.priority {
        InsertAdds(n, s[1..]);
      }
    }
  }

  lemma {:induction false} InsertKeepsClass(n: Network, s: seq<Network>, p: byte)
    ensures OfPriority(Insert(n, s), p) == OfPriority([n] + s, p)
  {
    assert ([n] + s)[1..] == s;
    if s != [] && s[0].priority > n.priority {
      InsertKeepsClass(n, s[1..], p);
      assert ([n] + s[1..])[1..] == s[1..];
      assert Insert(n, s)[1..] == Insert(n, s[1..]);
    }
  }

  lemma {:induction false} StableSortSorts(s: seq<Network>)
    ensures Descending(StableSort(s)) && multiset(StableSort(s)) == multiset(s)
  {
    if s != [] {
      StableSortSorts(s[1..]);
      InsertSorts(s[0], StableSort(s[1..]));
      InsertAdds(s[0], StableSort(s[1..]));
      assert s == [s[0]] + s[1..];
    }
  }

  lemma {:induction false} StableSortKeepsClass(s: seq<Network>, p: byte)
    ensures OfPriority(StableSort(s), p) == OfPriority(s, p)
  {
    if s != [] {
      StableSortKeepsClass(s[1..], p);
      InsertKeepsClass(s[0], StableSort(s[1..]), p);
      assert ([s[0]] + StableSort(s[1..]))[1..] == StableSort(s[1..]);
    }
  }

  lemma StableSortIsStable(s: seq<Network>)
    ensures SameClasses(StableSort(s), s)
  {
    forall p: byte ensures OfPriority(StableSort(s), p) == OfPriority(s, p) {
      StableSortKeepsClass(s, p);
    }
  }

  lemma {:induction false} MemberOfClass(s: seq<Network>, n: Network)
    ensures n in s <==> n in OfPriority(s, n.priority)
    ensures forall p: byte :: p != n.priority ==> n !in OfPriority(s, p)
  {
    if s != [] {
      MemberOfClass(s[1..], n);
    }
  }

  /** Order and classes determine the sequence: a stable sort has one result. */
  lemma {:induction false} StableSortUnique(s: seq<Network>, t: seq<Network>)
    requires Descending(s) && Descending(t) && SameClasses(s, t)
    ensures s == t
  {
    if s == [] {
      if t != [] {
        MemberOfClass(t, t[0]);
      }
    } else {
      MemberOfClass(s, s[0]);
      MemberOfClass(t, s[0]);
      assert OfPriority(s, s[0].priority) == OfPriority(t, s[0].priority);
      MemberOfClass(s, t[0]);
      MemberOfClass(t, t[0]);
      assert OfPriority(s, t[0].priority) == OfPriority(t, t[0].priority);
      assert s[0].priority == t[0].priority;
      var p := s[0].priority;
      assert s[0] == OfPriority(s, p)[0] == OfPriority(t, p)[0] == t[0];
      forall q: byte ensures OfPriority(s[1..], q) == OfPriority(t[1..], q) {
        assert OfPriority(s, q) == OfPriority(t, q);
        if q == p {
          assert OfPriority(s, q)[1..] == OfPriority(s[1..], q);
          assert OfPriority(t, q)[1..] == OfPriority(t[1..], q);
        }
      }
      StableSortUnique(s[1..], t[1..]);
    }
  }

  lemma {:induction false} OfPriorityConcat(a: seq<Network>, b: seq<Network>, p: byte)
    ensures OfPriority(a + b, p) == OfPriority(a, p) + OfPriority(b, p)
  {
    if a == [] {
      assert a + b == b;
    } else {
      assert (a + b)[1..] == a[1..] + b;
      OfPriorityConcat(a[1..], b, p);
    }
  }

  function Swapped(s: seq<Network>, j: nat): seq<Network>
    requires j + 1 < |s|
  {
    s[j := s[j + 1]][j + 1 := s[j]]
  }

  lemma SwapPair(x: Network, y: Network, p: byte)
    requires x.priority != y.priority
    ensures OfPriority([x, y], p) == OfPriority([y, x], p)
  {
    assert [x, y][1..] == [y] && [y, x][1..] == [x];
    assert [x][1..] == [] && [y][1..] == [];
  }

  /** Exchanging neighbours of different priority keeps every class in order. */
  lemma SwapKeepsClasses(s: seq<Network>, j: nat)
    requires j + 1 < |s| && s[j].priority != s[j + 1].priority
    ensures SameClasses(Swapped(s, j), s)
  {
    hide OfPriority;
    var pre, x, y, post := s[..j], s[j], s[j + 1], s[j + 2..];
    assert s == pre + ([x, y] + post) && Swapped(s, j) == pre + ([y, x] + post);
    forall p: byte ensures OfPriority(Swapped(s, j), p) == OfPriority(s, p) {
      OfPriorityConcat(pre, [x, y] + post, p);
      OfPriorityConcat(pre, [y, x] + post, p);
      OfPriorityConcat([x, y], post, p);
      OfPriorityConcat([y, x], post, p);
      SwapPair(x, y, p);
    }
  }

  /** Everything from index `k` on is sorted and no larger than anything before. */
  predicate TailSettled(s: seq<Network>, k: nat) {
    && k <= |s| && Descending(s[k..])
    && forall i, j :: 0 <= i < k <= j < |s| ==> s[i].priority >= s[j].priority
  }

  /** One pass of the inner loop: the smallest of the first `limit` moves last. */
  method BubblePass(a: array<Network>, count: nat, limit: nat)
    requires 0 < limit <= count <= a.Length && TailSettled(a[..count], limit)
    modifies a
    ensures a[count..] == old(a[count..]) && TailSettled(a[..count], limit - 1)
    ensures SameClasses(a[..count], old(a[..count]))
  {
    hide OfPriority;
    hide Descending;
    var j := 0;
    while j < limit - 1
      invariant 0 <= j <= limit - 1 && a[count..] == old(a[count..])
      invariant SameClasses(a[..count], old(a[..count])) && TailSettled(a[..count], limit)
      invariant forall x :: 0 <= x < j ==> a[x].priority >= a[j].priority
    {
      if a[j].priority < a[j + 1].priority {
        ghost var before := a[..count];
        SwapKeepsClasses(before, j);
        SwapKeepsTail(before, j, limit);
        var tmp := a[j];
        a[j] := a[j + 1];
        a[j + 1] := tmp;
        assert a[..count] == Swapped(before, j);
      }
      j := j + 1;
    }
    SettleOneMore(a[..count], limit);
  }

  /** Bubble sort over the first `count` slots of the array, in place. */
  method SortByPriority(a: array<Network>, count: nat)
    requires count <= a.Length
    modifies a
    ensures a[..count] == StableSort(old(a[..count]))
    ensures a[count..] == old(a[count..])
  {
    hide OfPriority;
    ghost var was := a[..count];
    StableSortSorts(was);
    StableSortIsStable(was);
    if count < 2 {
      StableSortUnique(was, StableSort(was));
      return;
    }
    for i := 0 to count - 1
      invariant a[count..] == old(a[count..])
      invariant SameClasses(a[..count], was) && TailSettled(a[..count], count - i)
    {
      BubblePass(a, count, count - i);
    }
    AllSettled(a[..count]);
    StableSortUnique(a[..count], StableSort(was));
  }

  lemma SwapKeepsTail(s: seq<Network>, j: nat, k: nat)
    requires TailSettled(s, k) && j + 1 < k
    ensures TailSettled(Swapped(s, j), k)
  {
    assert Swapped(s, j)[k..] == s[k..];
  }

  lemma SettleOneMore(s: seq<Network>, k: nat)
    requires TailSettled(s, k) && k > 0
    requires forall x :: 0 <= x < k - 1 ==> s[x].priority >= s[k - 1].priority
    ensures TailSettled(s, k - 1)
  {
    assert s[k - 1..] == [s[k - 1]] + s[k..];
  }

  lemma AllSettled(s: seq<Network>)
    requires |s| > 0 && TailSettled(s, 1)
    ensures Descending(s)
  {
    assert s == [s[0]] + s[1..];
  }
}
