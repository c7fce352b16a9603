/** The saved-network list and its copy in flash: the array operations of
    src/esp_wifi_config_network.c over the blob storage of
    src/esp_wifi_config_nvs.c. */
module NetworkStore {
  import opened Common
  import opened Decimal
  import opened NetworkSort

  // ------------------------------------------------------------------- flash

  /** One namespace of the key-value flash. `Other` stands for entries of another
      type under the library's remaining keys. */
  datatype Entry = Count(n: byte) | Blob(network: Network) | Other(tag: nat)
  type Flash = map<string, Entry>

  const COUNT_KEY: string := "net_count"

  /** The key of element i: the prefix and the decimal index. */
  function BlobKey(i: nat): string {
    "net_" + Dec(i)
  }

  lemma BlobKeysDistinct(i: nat, j: nat)
    requires BlobKey(i) == BlobKey(j)
    ensures i == j
  {
    assert BlobKey(i)[4..] == Dec(i) && BlobKey(j)[4..] == Dec(j);
    DecInjective(i, j);
  }

  /** No element key is the count key, nor any key of the other stores. */
  lemma BlobKeyIsNoOther(i: nat)
    ensures BlobKey(i) != COUNT_KEY
    ensures BlobKey(i) !in ["var_count", "ap_config", "auth_user", "auth_pass"]
    ensures forall j: nat :: BlobKey(i) != "var_" + Dec(j)
  {
    DecReadsBack(i);
    assert BlobKey(i)[4] == Dec(i)[0] && IsDigit(BlobKey(i)[4]);
    assert BlobKey(i)[0] == 'n' && COUNT_KEY[4] == 'c';
    forall j: nat ensures BlobKey(i) != "var_" + Dec(j) {
      assert ("var_" + Dec(j))[0] == 'v';
    }
  }

  /** A key with a one-byte index fits the 15 characters a flash key may have. */
  lemma BlobKeyFits(i: byte)
    ensures |BlobKey(i)| <= 7
  {
    assert Pow10(3) == 1000;
    DecLength(i, 3);
  }

  /** What saving leaves in flash: the count (one byte), then every element. Blobs
      of a longer earlier list stay behind. */
  function Saved(flash: Flash, nets: seq<Network>): Flash {
    SavedUpTo(flash[COUNT_KEY := Count(|nets| % 256)], nets, |nets|)
  }

  function SavedUpTo(flash: Flash, nets: seq<Network>, n: nat): Flash
    requires n <= |nets|
  {
    if n == 0 then flash else SavedUpTo(flash, nets, n - 1)[BlobKey(n - 1) := Blob(nets[n - 1])]
  }

  function StoredCount(flash: Flash): byte {
    if COUNT_KEY in flash && flash[COUNT_KEY].Count? then flash[COUNT_KEY].n else 0
  }

  /** The elements loading yields: indices below the stored count whose blob is
      readable, until `max` of them have been loaded. */
  function LoadedUpTo(flash: Flash, max: nat, i: nat): seq<Network> {
    if i == 0 then []
    else
      var front := LoadedUpTo(flash, max, i - 1);
      var key := BlobKey(i - 1);
      if |front| < max && key in flash && flash[key].Blob? then front + [flash[key].network] else front
  }

  function Loaded(flash: Flash, max: nat): seq<Network> {
    LoadedUpTo(flash, max, StoredCount(flash))
  }

  method SaveBlobs(flash: Flash, nets: seq<Network>) returns (after: Flash)
    ensures after == Saved(flash, nets)
  {
    after := flash[COUNT_KEY := Count(|nets| % 256)];
    for i := 0 to |nets|
      invariant after == SavedUpTo(flash[COUNT_KEY := Count(|nets| % 256)], nets, i)
    {
      after := after[BlobKey(i) := Blob(nets[i])];
    }
  }

  method LoadBlobs(flash: Flash, items: array<Network>) returns (loaded: nat)
    modifies items
    ensures loaded <= items.Length && items[..loaded] == Loaded(flash, items.Length)
  {
    var stored := StoredCount(flash);
    loaded := 0;
    var i := 0;
    while i < stored && loaded < items.Length
      invariant 0 <= i <= stored && loaded <= items.Length
      invariant items[..loaded] == LoadedUpTo(flash, items.Length, i)
    {
      var key := BlobKey(i);
      if key in flash && flash[key].Blob? {
        items[loaded] := flash[key].network;
        loaded := loaded + 1;
      }
      i := i + 1;
    }
    FullStays(flash, items.Length, i, stored);
  }

  lemma {:induction false} FullStays(flash: Flash, max: nat, i: nat, j: nat)
    requires i <= j
    requires i == j || |LoadedUpTo(flash, max, i)| == max
    ensures LoadedUpTo(flash, max, j) == LoadedUpTo(flash, max, i)
    decreases j
  {
    if i < j {
      FullStays(flash, max, i, j - 1);
    }
  }

  lemma {:induction false} SavedEntries(flash: Flash, nets: seq<Network>, n: nat, i: nat)
    requires i < n <= |nets|
    ensures BlobKey(i) in SavedUpTo(flash, nets, n)
    ensures SavedUpTo(flash, nets, n)[BlobKey(i)] == Blob(nets[i])
  {
    if i < n - 1 {
      SavedEntries(flash, nets, n - 1, i);
      if BlobKey(i) == BlobKey(n - 1) {
        BlobKeysDistinct(i, n - 1);
      }
    }
  }

  lemma {:induction false} SavedKeepsOther(flash: Flash, nets: seq<Network>, n: nat, key: string)
    requires n <= |nets| && forall i :: 0 <= i < n ==> BlobKey(i) != key
    ensures key in flash ==> key in SavedUpTo(flash, nets, n) && SavedUpTo(flash, nets, n)[key] == flash[key]
    ensures key !in flash ==> key !in SavedUpTo(flash, nets, n)
  {
    if n > 0 {
      SavedKeepsOther(flash, nets, n - 1, key);
    }
  }

  lemma SavedCount(flash: Flash, nets: seq<Network>)
    ensures StoredCount(Saved(flash, nets)) == |nets| % 256
  {
    forall i | 0 <= i < |nets| ensures BlobKey(i) != COUNT_KEY {
      BlobKeyIsNoOther(i);
    }
    SavedKeepsOther(flash[COUNT_KEY := Count(|nets| % 256)], nets, |nets|, COUNT_KEY);
  }

  lemma {:induction false} LoadedPrefix(flash: Flash, nets: seq<Network>, max: nat, n: nat)
    requires n <= |nets| <= max
    ensures LoadedUpTo(Saved(flash, nets), max, n) == nets[..n]
  {
    if n > 0 {
      LoadedPrefix(flash, nets, max, n - 1);
      SavedEntries(flash[COUNT_KEY := Count(|nets| % 256)], nets, |nets|, n - 1);
      assert nets[..n] == nets[..n - 1] + [nets[n - 1]];
    } else {
      assert nets[..0] == [];
    }
  }

  /** Loading returns what was saved last, whatever older blobs remain, exactly
      when the number of elements fits the count byte. */
  lemma LoadAfterSave(flash: Flash, nets: seq<Network>, max: nat)
    requires |nets| <= max
    ensures Loaded(Saved(flash, nets), max) == nets[..|nets| % 256]
    ensures Loaded(Saved(flash, nets), max) == nets <==> |nets| < 256
  {
    SavedCount(flash, nets);
    LoadedPrefix(flash, nets, max, |nets| % 256);
    assert |nets| < 256 ==> nets[..|nets|] == nets;
  }

  /** Saving networks leaves every other store's entries alone. */
  lemma SaveTouchesOnlyNetworks(flash: Flash, nets: seq<Network>, key: string)
    requires key != COUNT_KEY && forall i: nat :: BlobKey(i) != key
    ensures key in Saved(flash, nets) <==> key in flash
    ensures key in flash ==> Saved(flash, nets)[key] == flash[key]
  {
    SavedKeepsOther(flash[COUNT_KEY := Count(|nets| % 256)], nets, |nets|, key);
  }

  // ------------------------------------------------------- lists as SSID maps

  predicate DistinctSsids(nets: seq<Network>) {
    forall i, j :: 0 <= i < j < |nets| ==> nets[i].ssid != nets[j].ssid
  }

  /** The list as a map from SSID to network. */
  function AsMap(nets: seq<Network>): map<string, Network> {
    if nets == [] then map[]
    else AsMap(nets[..|nets| - 1])[nets[|nets| - 1].ssid := nets[|nets| - 1]]
  }

  /** Looking an SSID up finds exactly the entry of the list that carries it. */
  lemma {:induction false} Lookup(nets: seq<Network>, ssid: string)
    requires DistinctSsids(nets)
    ensures ssid in AsMap(nets) ==> AsMap(nets)[ssid] in nets && AsMap(nets)[ssid].ssid == ssid
    ensures forall n :: n in nets && n.ssid == ssid ==> ssid in AsMap(nets) && AsMap(nets)[ssid] == n
  {
    if nets != [] {
      Lookup(nets[..|nets| - 1], ssid);
    }
  }

  lemma {:induction false} MapSize(nets: seq<Network>)
    requires DistinctSsids(nets)
    ensures |AsMap(nets)| == |nets|
  {
    if nets != [] {
      MapSize(nets[..|nets| - 1]);
      Lookup(nets[..|nets| - 1], nets[|nets| - 1].ssid);
    }
  }

  /** Two duplicate-free lists with the same elements are the same map. */
  lemma SameElementsSameMap(a: seq<Network>, b: seq<Network>)
    requires DistinctSsids(a) && multiset(a) == multiset(b)
    ensures DistinctSsids(b) && AsMap(a) == AsMap(b) && |a| == |b|
  {
    hide AsMap;
    PermutationDistinct(a, b);
    forall n ensures n in a <==> n in b {
      assert n in a <==> n in multiset(a);
      assert n in b <==> n in multiset(b);
    }
    forall s ensures s in AsMap(a) <==> s in AsMap(b)
      ensures s in AsMap(a) ==> AsMap(a)[s] == AsMap(b)[s]
    {
      Lookup(a, s);
      Lookup(b, s);
    }
    assert |multiset(a)| == |a| && |multiset(b)| == |b|;
  }

  lemma {:induction false} CountAtMostOne(a: seq<Network>, n: Network)
    requires DistinctSsids(a)
    ensures multiset(a)[n] <= 1
  {
    if a != [] {
      var front := a[..|a| - 1];
      CountAtMostOne(front, n);
      assert a == front + [a[|a| - 1]];
      assert n in multiset(front) <==> n in front;
    }
  }

  lemma CountTwice(b: seq<Network>, i: nat, j: nat)
    requires i < j < |b| && b[i] == b[j]
    ensures multiset(b)[b[i]] >= 2
  {
    assert b == b[..i] + [b[i]] + b[i + 1..j] + [b[j]] + b[j + 1..];
  }

  lemma PermutationDistinct(a: seq<Network>, b: seq<Network>)
    requires DistinctSsids(a) && multiset(a) == multiset(b)
    ensures DistinctSsids(b)
  {
    forall i, j | 0 <= i < j < |b| ensures b[i].ssid != b[j].ssid {
      CountAtMostOne(a, b[i]);
      if b[i] == b[j] {
        CountTwice(b, i, j);
      } else {
        assert b[i] in multiset(a) && b[j] in multiset(a);
      }
    }
  }

  // ------------------------------------------------ operations and their runs

  datatype Result = Ok | AlreadyExists | NotFound | NoMemory

  datatype Op =
    | Add(network: Network)
    | Update(network: Network)
    | Remove(ssid: string)
    | Sort
    | FactoryReset
    | Reboot(defaults: Option<seq<Network>>)

  /** The list in memory and the flash behind it. */
  datatype State = State(nets: seq<Network>, flash: Flash)

  /** Index of the entry with this SSID, or the length. */
  function Find(nets: seq<Network>, ssid: string): (i: nat)
    ensures i <= |nets|
    ensures i < |nets| ==> nets[i].ssid == ssid
    ensures forall k :: 0 <= k < i ==> nets[k].ssid != ssid
  {
    if nets == [] || nets[0].ssid == ssid then 0 else 1 + Find(nets[1..], ssid)
  }

  /** The networks an application configures for an empty store, as many as fit. */
  function Seed(defaults: Option<seq<Network>>, capacity: nat): (r: seq<Network>)
    ensures |r| <= capacity
  {
    match defaults
    case None => []
    case Some(nets) => Truncated(nets, capacity)
  }

  /** What boot makes of the flash: the list it holds, or else the defaults, which
      are saved at once. */
  function Booted(flash: Flash, defaults: Option<seq<Network>>, capacity: nat): State {
    var nets := Loaded(flash, capacity);
    if nets == [] && defaults.Some? then
      State(Seed(defaults, capacity), Saved(flash, Seed(defaults, capacity)))
    else State(nets, flash)
  }

  /** The defaults are the application's, and nothing checks that their names differ:
      after boot the names do exactly when flash held networks or they did before. */
  lemma BootDistinctIff(flash: Flash, defaults: Option<seq<Network>>, capacity: nat)
    requires DistinctSsids(Loaded(flash, capacity))
    ensures DistinctSsids(Booted(flash, defaults, capacity).nets) <==>
      Loaded(flash, capacity) != [] || DistinctSsids(Seed(defaults, capacity))
  {
  }

  /** Booting on an empty flash, every default that fits is found under its name, and
      again after the next boot whatever the defaults are then. */
  lemma DefaultsAreFound(flash: Flash, defaults: seq<Network>, later: Option<seq<Network>>, capacity: nat, i: nat)
    requires Loaded(flash, capacity) == [] && capacity < 256 && i < |defaults| && i < capacity
    requires DistinctSsids(if |defaults| > capacity then defaults[..capacity] else defaults)
    ensures var st := Booted(flash, Some(defaults), capacity);
      && defaults[i].ssid in AsMap(st.nets) && AsMap(st.nets)[defaults[i].ssid] == defaults[i]
      && Booted(st.flash, later, capacity).nets == st.nets
  {
    var kept := Seed(Some(defaults), capacity);
    assert kept[i] == defaults[i] && kept[i] in kept;
    hide AsMap, Saved, LoadedUpTo;
    Lookup(kept, defaults[i].ssid);
    LoadAfterSave(flash, kept, capacity);
  }

  /** A reboot that falls back on the defaults finds distinct names there. */
  predicate DefaultsDistinct(st: State, op: Op, capacity: nat) {
    op.Reboot? && st.nets == [] ==> DistinctSsids(Seed(op.defaults, capacity))
  }

  function Do(st: State, op: Op, capacity: nat): (State, Result) {
    match op
    case Add(n) =>
      if Find(st.nets, n.ssid) < |st.nets| then (st, AlreadyExists)
      else if |st.nets| >= capacity then (st, NoMemory)
      else (State(st.nets + [n], Saved(st.flash, st.nets + [n])), Ok)
    case Update(n) =>
      var i := Find(st.nets, n.ssid);
      if i == |st.nets| then (st, NotFound)
      else (State(st.nets[i := n], Saved(st.flash, st.nets[i := n])), Ok)
    case Remove(ssid) =>
      var i := Find(st.nets, ssid);
      if i == |st.nets| then (st, NotFound)
      else
        var rest := st.nets[..i] + st.nets[i + 1..];
        (State(rest, Saved(st.flash, rest)), Ok)
    case Sort => (st.(nets := StableSort(st.nets)), Ok)
    case FactoryReset => (State([], map[]), Ok)
    case Reboot(defaults) => (Booted(st.flash, defaults, capacity), Ok)
  }

  /** The intended meaning: a map from SSID to network with a size limit. */
  function OnMap(m: map<string, Network>, op: Op, capacity: nat): (map<string, Network>, Result) {
    match op
    case Add(n) =>
      if n.ssid in m then (m, AlreadyExists)
      else if |m| >= capacity then (m, NoMemory)
      else (m[n.ssid := n], Ok)
    case Update(n) => if n.ssid in m then (m[n.ssid := n], Ok) else (m, NotFound)
    case Remove(ssid) => if ssid in m then (m - {ssid}, Ok) else (m, NotFound)
    case Sort => (m, Ok)
    case FactoryReset => (map[], Ok)
    case Reboot(defaults) => (if m == map[] then AsMap(Seed(defaults, capacity)) else m, Ok)
  }

  /** Memory and flash agree up to order. */
  ghost predicate Synced(st: State, capacity: nat) {
    && DistinctSsids(st.nets) && |st.nets| <= capacity
    && multiset(st.nets) == multiset(Loaded(st.flash, capacity))
  }

  lemma SavedIsSynced(st: State, capacity: nat)
    requires DistinctSsids(st.nets) && |st.nets| <= capacity < 256
    ensures Synced(st.(flash := Saved(st.flash, st.nets)), capacity)
  {
    LoadAfterSave(st.flash, st.nets, capacity);
  }

  lemma FindInMap(nets: seq<Network>, ssid: string)
    requires DistinctSsids(nets)
    ensures Find(nets, ssid) < |nets| <==> ssid in AsMap(nets)
    ensures Find(nets, ssid) < |nets| ==> AsMap(nets)[ssid] == nets[Find(nets, ssid)]
  {
    hide AsMap;
    Lookup(nets, ssid);
  }

  lemma {:induction false} AddOnMap(nets: seq<Network>, n: Network)
    requires DistinctSsids(nets) && Find(nets, n.ssid) == |nets|
    ensures DistinctSsids(nets + [n]) && AsMap(nets + [n]) == AsMap(nets)[n.ssid := n]
  {
    hide Find;
    assert (nets + [n])[..|nets|] == nets;
  }

  lemma UpdateOnMap(nets: seq<Network>, n: Network)
    requires DistinctSsids(nets) && Find(nets, n.ssid) < |nets|
    ensures var after := nets[Find(nets, n.ssid) := n];
      DistinctSsids(after) && AsMap(after) == AsMap(nets)[n.ssid := n]
  {
    hide AsMap;
    var i := Find(nets, n.ssid);
    var after := nets[i := n];
    forall x ensures x in after <==> x == n || (x in nets && x.ssid != n.ssid) {
      UpdateMembers(nets, i, n, x);
    }
    forall s ensures s in AsMap(after) <==> s in AsMap(nets)[n.ssid := n]
      ensures s in AsMap(after) ==> AsMap(after)[s] == AsMap(nets)[n.ssid := n][s]
    {
      Lookup(nets, s);
      Lookup(after, s);
    }
  }

  lemma UpdateMembers(nets: seq<Network>, i: nat, n: Network, x: Network)
    requires DistinctSsids(nets) && i < |nets| && nets[i].ssid == n.ssid
    ensures x in nets[i := n] <==> x == n || (x in nets && x.ssid != n.ssid)
  {
    var after := nets[i := n];
    assert after[i] == n;
    if x in nets && x.ssid != n.ssid {
      var k :| 0 <= k < |nets| && nets[k] == x;
      assert after[k] == x;
    }
  }

  lemma RemoveOnMap(nets: seq<Network>, ssid: string)
    requires DistinctSsids(nets) && Find(nets, ssid) < |nets|
    ensures var i := Find(nets, ssid);
      var after := nets[..i] + nets[i + 1..];
      DistinctSsids(after) && AsMap(after) == AsMap(nets) - {ssid}
  {
    hide AsMap;
    hide Find;
    var i := Find(nets, ssid);
    var after := nets[..i] + nets[i + 1..];
    forall x ensures x in after <==> x in nets && x.ssid != ssid {
      RemoveMembers(nets, i, x);
    }
    forall s ensures s in AsMap(after) <==> s in AsMap(nets) - {ssid}
      ensures s in AsMap(after) ==> AsMap(after)[s] == AsMap(nets)[s]
    {
      Lookup(nets, s);
      Lookup(after, s);
    }
  }

  lemma RemoveMembers(nets: seq<Network>, i: nat, x: Network)
    requires DistinctSsids(nets) && i < |nets|
    ensures var after := nets[..i] + nets[i + 1..];
      DistinctSsids(after) && (x in after <==> x in nets && x.ssid != nets[i].ssid)
  {
    var after := nets[..i] + nets[i + 1..];
    assert forall k :: 0 <= k < |after| ==> after[k] == nets[if k < i then k else k + 1];
    if x in nets && x.ssid != nets[i].ssid {
      var k :| 0 <= k < |nets| && nets[k] == x;
      assert after[if k < i then k else k - 1] == x;
    }
  }

  lemma AddRefinesMap(st: State, n: Network, capacity: nat)
    requires Synced(st, capacity) && capacity < 256
    ensures Refines(st, Op.Add(n), capacity)
  {
    hide AsMap, Saved, Loaded, Find, DistinctSsids, StableSort, Booted, Seed;
    MapSize(st.nets);
    FindInMap(st.nets, n.ssid);
    if Find(st.nets, n.ssid) == |st.nets| && |st.nets| < capacity {
      AddOnMap(st.nets, n);
      SavedIsSynced(State(st.nets + [n], st.flash), capacity);
    }
  }

  lemma UpdateRefinesMap(st: State, n: Network, capacity: nat)
    requires Synced(st, capacity) && capacity < 256
    ensures Refines(st, Op.Update(n), capacity)
  {
    hide AsMap, Saved, Loaded, Find, DistinctSsids, StableSort, Booted, Seed;
    FindInMap(st.nets, n.ssid);
    if Find(st.nets, n.ssid) < |st.nets| {
      UpdateOnMap(st.nets, n);
      SavedIsSynced(State(st.nets[Find(st.nets, n.ssid) := n], st.flash), capacity);
    }
  }

  lemma RemoveRefinesMap(st: State, ssid: string, capacity: nat)
    requires Synced(st, capacity) && capacity < 256
    ensures Refines(st, Op.Remove(ssid), capacity)
  {
    hide AsMap, Saved, Loaded, Find, DistinctSsids, StableSort, Booted, Seed;
    FindInMap(st.nets, ssid);
    var i := Find(st.nets, ssid);
    if i < |st.nets| {
      RemoveOnMap(st.nets, ssid);
      SavedIsSynced(State(st.nets[..i] + st.nets[i + 1..], st.flash), capacity);
    }
  }

  lemma SortRefinesMap(st: State, capacity: nat)
    requires Synced(st, capacity)
    ensures Refines(st, Sort, capacity)
  {
    hide AsMap, Loaded, DistinctSsids, StableSort;
    StableSortSorts(st.nets);
    SameElementsSameMap(st.nets, StableSort(st.nets));
  }

  /** The operation has the result and the effect it has on the map, and leaves memory
      and flash in agreement. */
  ghost predicate Refines(st: State, op: Op, capacity: nat) {
    var (after, r) := Do(st, op, capacity);
    Synced(after, capacity) && (AsMap(after.nets), r) == OnMap(AsMap(st.nets), op, capacity)
  }

  /** One operation refines the map, and memory and flash stay in agreement. */
  lemma DoRefinesMap(st: State, op: Op, capacity: nat)
    requires Synced(st, capacity) && capacity < 256 && DefaultsDistinct(st, op, capacity)
    ensures var (after, r) := Do(st, op, capacity);
      Synced(after, capacity) && (AsMap(after.nets), r) == OnMap(AsMap(st.nets), op, capacity)
  {
    assert Refines(st, op, capacity) by {
      hide Refines, Synced;
      match op
      case Add(n) => AddRefinesMap(st, n, capacity);
      case Update(n) => UpdateRefinesMap(st, n, capacity);
      case Remove(ssid) => RemoveRefinesMap(st, ssid, capacity);
      case Sort => SortRefinesMap(st, capacity);
      case FactoryReset => FactoryResetRefinesMap(st, capacity);
      case Reboot(defaults) => RebootIsRefined(st, defaults, capacity);
    }
    hide Synced, Do, OnMap, AsMap;
  }

  /** A factory reset leaves no entry of any store, and so nothing to load. */
  lemma FactoryResetErases(st: State, capacity: nat, key: string)
    ensures var after := Do(st, FactoryReset, capacity).0;
      key !in after.flash && after.nets == [] && Loaded(after.flash, capacity) == []
  {
  }

  lemma FactoryResetRefinesMap(st: State, capacity: nat)
    ensures Refines(st, FactoryReset, capacity)
  {
    NothingStored(capacity);
  }

  lemma RebootIsRefined(st: State, defaults: Option<seq<Network>>, capacity: nat)
    requires Synced(st, capacity) && capacity < 256 && (st.nets == [] ==> DistinctSsids(Seed(defaults, capacity)))
    ensures Refines(st, Op.Reboot(defaults), capacity)
  {
    hide AsMap, Saved, Loaded, Find, DistinctSsids, StableSort, Booted, Seed;
    RebootRefinesMap(st, defaults, capacity);
  }

  lemma RebootRefinesMap(st: State, defaults: Option<seq<Network>>, capacity: nat)
    requires Synced(st, capacity) && capacity < 256 && (st.nets == [] ==> DistinctSsids(Seed(defaults, capacity)))
    ensures var after := Booted(st.flash, defaults, capacity);
      && Synced(after, capacity)
      && AsMap(after.nets) ==
           if AsMap(st.nets) == map[] then AsMap(Seed(defaults, capacity)) else AsMap(st.nets)
  {
    hide Saved, Loaded, DistinctSsids;
    var loaded := Loaded(st.flash, capacity);
    SameElementsSameMap(st.nets, loaded);
    MapSize(loaded);
    if loaded == [] {
      SavedIsSynced(State(Seed(defaults, capacity), st.flash), capacity);
    }
  }

  lemma BootedIsSynced(flash: Flash, defaults: Option<seq<Network>>, capacity: nat)
    requires capacity < 256
    ensures var st := Booted(flash, defaults, capacity);
      |st.nets| <= capacity && (Synced(st, capacity) <==> DistinctSsids(st.nets))
  {
    hide LoadedUpTo, SavedUpTo;
    LoadedFits(flash, capacity, StoredCount(flash));
    LoadAfterSave(flash, Seed(defaults, capacity), capacity);
  }

  lemma {:induction false} LoadedFits(flash: Flash, max: nat, i: nat)
    ensures |LoadedUpTo(flash, max, i)| <= max
  {
    if i > 0 {
      LoadedFits(flash, max, i - 1);
    }
  }

  /** Rebooting keeps the contents if and only if there are some or there are no
      defaults to fall back on: a store emptied on purpose comes back filled. */
  lemma RebootKeepsIff(st: State, defaults: Option<seq<Network>>, capacity: nat)
    requires Synced(st, capacity) && capacity < 256 && (st.nets == [] ==> DistinctSsids(Seed(defaults, capacity)))
    ensures AsMap(Booted(st.flash, defaults, capacity).nets) == AsMap(st.nets) <==>
      st.nets != [] || Seed(defaults, capacity) == []
  {
    hide AsMap, DistinctSsids, Booted;
    RebootRefinesMap(st, defaults, capacity);
    MapSize(st.nets);
    if st.nets == [] {
      MapSize(Seed(defaults, capacity));
    }
    NothingStored(capacity);
  }

  lemma NothingStored(capacity: nat)
    ensures Synced(State([], map[]), capacity) && AsMap([]) == map[]
  {
  }

  /** A run of operations, with the result of each. */
  function Run(st: State, ops: seq<Op>, capacity: nat): (State, seq<Result>) {
    if ops == [] then (st, [])
    else
      var (before, results) := Run(st, ops[..|ops| - 1], capacity);
      var (after, r) := Do(before, ops[|ops| - 1], capacity);
      (after, results + [r])
  }

  function RunOnMap(m: map<string, Network>, ops: seq<Op>, capacity: nat): (map<string, Network>, seq<Result>) {
    if ops == [] then (m, [])
    else
      var (before, results) := RunOnMap(m, ops[..|ops| - 1], capacity);
      var (after, r) := OnMap(before, ops[|ops| - 1], capacity);
      (after, results + [r])
  }

  /** Any run of operations and reboots behaves as the bounded map does: same
      results, same contents, and memory is a permutation of what flash holds. */
  lemma {:induction false} RunRefinesMap(st: State, ops: seq<Op>, capacity: nat)
    requires Synced(st, capacity) && capacity < 256
    requires forall k :: 0 <= k < |ops| ==> DefaultsDistinct(Run(st, ops[..k], capacity).0, ops[k], capacity)
    ensures var (after, results) := Run(st, ops, capacity);
      Synced(after, capacity) && (AsMap(after.nets), results) == RunOnMap(AsMap(st.nets), ops, capacity)
  {
    if ops != [] {
      var front := ops[..|ops| - 1];
      assert forall k :: 0 <= k < |front| ==> front[k] == ops[k] && front[..k] == ops[..k];
      RunRefinesMap(st, front, capacity);
      DoRefinesMap(Run(st, ops[..|ops| - 1], capacity).0, ops[|ops| - 1], capacity);
    }
  }

  // ------------------------------------------------- the store, in place

  class Store {
    const networks: array<Network>
    var count: nat
    var flash: Flash

    ghost predicate Valid()
      reads this, networks
    {
      count <= networks.Length < 256 && Synced(View(), networks.Length)
    }

    /** The live part of the array, and the flash. */
    function View(): State
      reads this, networks
      requires count <= networks.Length
    {
      State(networks[..count], flash)
    }

    /** Boot on any flash. The store is a map exactly when the names it finds differ. */
    constructor (capacity: nat, flash: Flash, defaults: Option<seq<Network>>)
      requires capacity < 256
      ensures count <= networks.Length && fresh(networks) && networks.Length == capacity
      ensures View() == Booted(flash, defaults, capacity)
      ensures Valid() <==> DistinctSsids(Booted(flash, defaults, capacity).nets)
    {
      networks := new Network[capacity](_ => Network("", "", 0));
      this.flash := flash;
      count := 0;
      new;
      Boot(defaults);
      BootedIsSynced(flash, defaults, capacity);
    }

    /** Load from flash; with nothing there, copy the defaults in and save them. */
    method Boot(defaults: Option<seq<Network>>)
      modifies `count, `flash, networks
      ensures count <= networks.Length && View() == Booted(old(flash), defaults, networks.Length)
    {
      hide Saved, Loaded;
      count := LoadBlobs(flash, networks);
      if count == 0 && defaults.Some? {
        assert networks[..0] == [];
        var n := |defaults.value|;
        if n > networks.Length {
          n := networks.Length;
        }
        forall k | 0 <= k < n {
          networks[k] := defaults.value[k];
        }
        count := n;
        assert networks[..n] == Seed(defaults, networks.Length);
        flash := SaveBlobs(flash, networks[..count]);
      }
    }

    method IndexOf(ssid: string) returns (i: nat)
      requires Valid()
      ensures i == Find(networks[..count], ssid)
    {
      i := 0;
      while i < count && networks[i].ssid != ssid
        invariant 0 <= i <= count
        invariant forall k :: 0 <= k < i ==> networks[k].ssid != ssid
      {
        i := i + 1;
      }
      FindIs(networks[..count], ssid, i);
    }

    method Add(n: Network) returns (r: Result)
      requires Valid()
      modifies this, networks
      ensures Valid() && (View(), r) == Do(old(View()), Op.Add(n), networks.Length)
    {
      hide Synced;
      DoRefinesMap(View(), Op.Add(n), networks.Length);
      var i := IndexOf(n.ssid);
      if i < count {
        return AlreadyExists;
      }
      if count >= networks.Length {
        return NoMemory;
      }
      ghost var was := networks[..count];
      networks[count] := n;
      count := count + 1;
      assert networks[..count] == was + [n];
      flash := SaveBlobs(flash, networks[..count]);
      r := Ok;
    }

    method Update(n: Network) returns (r: Result)
      requires Valid()
      modifies this, networks
      ensures Valid() && (View(), r) == Do(old(View()), Op.Update(n), networks.Length)
    {
      hide Synced;
      DoRefinesMap(View(), Op.Update(n), networks.Length);
      var i := IndexOf(n.ssid);
      if i == count {
        return NotFound;
      }
      ghost var was := networks[..count];
      networks[i] := n;
      assert networks[..count] == was[i := n];
      flash := SaveBlobs(flash, networks[..count]);
      r := Ok;
    }

    /** The entries after the removed one shift down by one slot. */
    method Remove(ssid: string) returns (r: Result)
      requires Valid()
      modifies this, networks
      ensures Valid() && (View(), r) == Do(old(View()), Op.Remove(ssid), networks.Length)
    {
      hide Synced;
      DoRefinesMap(View(), Op.Remove(ssid), networks.Length);
      var i := IndexOf(ssid);
      if i == count {
        return NotFound;
      }
      ShiftDown(networks, i, count);
      count := count - 1;
      flash := SaveBlobs(flash, networks[..count]);
      r := Ok;
    }

    method Sort()
      requires Valid()
      modifies networks
      ensures Valid() && (View(), Ok) == Do(old(View()), Op.Sort, networks.Length)
    {
      hide Synced;
      DoRefinesMap(View(), Op.Sort, networks.Length);
      SortByPriority(networks, count);
    }

    method FactoryReset()
      requires Valid()
      modifies this, networks
      ensures Valid() && (View(), Ok) == Do(old(View()), Op.FactoryReset, networks.Length)
    {
      DoRefinesMap(View(), Op.FactoryReset, networks.Length);
      flash := map[];
      count := 0;
    }

    /** What the next boot finds. */
    method Reboot(defaults: Option<seq<Network>>)
      requires Valid()
      modifies this, networks
      ensures count <= networks.Length && (View(), Ok) == Do(old(View()), Op.Reboot(defaults), networks.Length)
      ensures Valid() <==> DistinctSsids(View().nets)
    {
      hide Synced, Booted;
      BootedIsSynced(flash, defaults, networks.Length);
      Boot(defaults);
    }

    /** The stored record, exactly when the map has one. */
    method Get(ssid: string) returns (n: Option<Network>)
      requires Valid()
      ensures n.Some? <==> ssid in AsMap(View().nets)
      ensures n.Some? ==> n.value == AsMap(View().nets)[ssid]
    {
      var i := IndexOf(ssid);
      FindInMap(networks[..count], ssid);
      n := if i < count then Some(networks[i]) else None;
    }

    /** As many networks as the caller has room for, from the front of the list. */
    method List(max: nat) returns (nets: seq<Network>)
      requires Valid()
      ensures nets <= View().nets && |nets| == if count <= max then count else max
    {
      var n := if count > max then max else count;
      nets := networks[..n];
    }
  }

  /** Close the gap at index i of the first `count` slots. */
  method ShiftDown(a: array<Network>, i: nat, count: nat)
    requires i < count <= a.Length
    modifies a
    ensures a[..count - 1] == old(a[..count])[..i] + old(a[..count])[i + 1..]
  {
    ghost var was := a[..count];
    var j := i;
    while j < count - 1
      invariant i <= j <= count - 1
      invariant forall k :: i <= k < j ==> a[k] == was[k + 1]
      invariant forall k :: 0 <= k < i || j <= k < count ==> a[k] == was[k]
    {
      a[j] := a[j + 1];
      j := j + 1;
    }
    assert |a[..count - 1]| == |was[..i] + was[i + 1..]|;
  }

  lemma {:induction false} FindIs(nets: seq<Network>, ssid: string, i: nat)
    requires i <= |nets| && (i < |nets| ==> nets[i].ssid == ssid)
    requires forall k :: 0 <= k < i ==> nets[k].ssid != ssid
    ensures Find(nets, ssid) == i
  {
    var j := Find(nets, ssid);
    if j < i {
      assert false;
    }
  }
}
