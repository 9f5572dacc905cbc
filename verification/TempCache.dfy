/** Puts that arrive before the service is ready are kept in two maps, and handed to the
    managers in one go when it is. */
module TempCache {
  import opened Text
  import opened DbKeys
  import opened Entries

  const SWITCH_STATUS := "SwitchStatus"
  const DP_CACHE_EXIST: Int32 := 98566164
  const WRTE_CACHE_PROFILE_RETRY_TIMES: nat := 20

  datatype Item = SvrItem(svr: ServiceProfile) | CharItem(chr: CharacteristicProfile)

  type Switches = map<string, CharacteristicProfile>

  predicate IsLocalUdid(udid: string, localUdid: string) {
    0 < |udid| <= MAX_STRING_LEN && udid == localUdid
  }

  predicate ItemValid(it: Item, localUdid: string) {
    match it
    case SvrItem(p) => IsKeyValid(p.deviceId) && IsLocalUdid(p.deviceId, localUdid) && IsKeyValid(p.serviceName)
    case CharItem(c) => IsKeyValid(c.deviceId) && IsLocalUdid(c.deviceId, localUdid) && IsKeyValid(c.serviceName) &&
                        IsKeyValid(c.charKey)
  }

  predicate IsSwitch(it: Item) {
    it.CharItem? && it.chr.charKey == SWITCH_STATUS
  }

  function ItemEntries(it: Item, into: Store): Store {
    match it
    case SvrItem(p) => ServiceProfileToEntries(p, into, false)
    case CharItem(c) => CharacteristicProfileToEntries(c, into, false)
  }

  /** The entries of a batch; switch items have none. */
  function BatchEntries(items: seq<Item>, into: Store): Store
    decreases |items|
  {
    if items == [] then into
    else BatchEntries(items[1..], if IsSwitch(items[0]) then into else ItemEntries(items[0], into))
  }

  function SwitchKey(c: CharacteristicProfile): string {
    GenerateCharProfileKey(c.deviceId, c.serviceName, c.charKey)
  }

  function KeyedItems(items: seq<Item>): seq<(string, CharacteristicProfile)>
    decreases |items|
  {
    if items == [] then []
    else if items[0].SvrItem? then KeyedItems(items[1..])
    else [(SwitchKey(items[0].chr), items[0].chr)] + KeyedItems(items[1..])
  }

  predicate SameProfile(a: CharacteristicProfile, b: CharacteristicProfile) {
    a.deviceId == b.deviceId && a.serviceName == b.serviceName && a.charKey == b.charKey
  }

  /** Waiting characteristics share a key exactly when they are about the same profile. */
  lemma SwitchKeyExactly(a: CharacteristicProfile, b: CharacteristicProfile)
    requires Clean(a.deviceId) && Clean(a.serviceName) && Clean(a.charKey)
    requires Clean(b.deviceId) && Clean(b.serviceName) && Clean(b.charKey)
    ensures SwitchKey(a) == SwitchKey(b) <==> SameProfile(a, b)
  {
    hide KeyOf;
    var r, r' := Chr(a.deviceId, a.serviceName, a.charKey), Chr(b.deviceId, b.serviceName, b.charKey);
    if SwitchKey(a) == SwitchKey(b) {
      SameProfileKey(r, r');
      KeyInjective(r, "", -1, r', "", -1);
    }
  }

  lemma SameProfileKey(r: ProfileRef, r': ProfileRef)
    requires ProfileKey(r) == ProfileKey(r')
    ensures KeyOf(r, "", -1) == KeyOf(r', "", -1)
  {
  }

  predicate AnySwitch(items: seq<Item>) {
    exists i :: 0 <= i < |items| && IsSwitch(items[i])
  }

  /** One switch item makes the whole batch go to the switch map. */
  function SwitchPairs(items: seq<Item>): seq<(string, CharacteristicProfile)> {
    if AnySwitch(items) then KeyedItems(items) else []
  }

  /** The first item that is invalid or already stored decides; `existing` is what the profile cache says of each. */
  function Verdict(items: seq<Item>, existing: seq<bool>, localUdid: string): Int32
    requires |existing| == |items|
  {
    if items == [] then DP_INVALID_PARAM else Scan(items, existing, localUdid)
  }

  function Scan(items: seq<Item>, existing: seq<bool>, localUdid: string): Int32
    requires |existing| == |items|
    decreases |items|
  {
    if items == [] then DP_SUCCESS
    else if !ItemValid(items[0], localUdid) then DP_INVALID_PARAM
    else if existing[0] then DP_CACHE_EXIST
    else Scan(items[1..], existing[1..], localUdid)
  }

  lemma {:induction false} ScanValid(items: seq<Item>, existing: seq<bool>, localUdid: string)
    requires |existing| == |items|
    ensures Scan(items, existing, localUdid) == DP_SUCCESS <==>
            forall i | 0 <= i < |items| :: ItemValid(items[i], localUdid) && !existing[i]
    decreases |items|
  {
    if items != [] {
      ScanValid(items[1..], existing[1..], localUdid);
      assert forall i | 0 < i < |items| :: items[i] == items[1..][i - 1] && existing[i] == existing[1..][i - 1];
      assert forall i | 0 <= i < |items| - 1 :: items[1..][i] == items[i + 1] && existing[1..][i] == existing[i + 1];
    }
  }

  predicate CleanChar(c: CharacteristicProfile) {
    Clean(c.deviceId) && Clean(c.serviceName) && Clean(c.charKey)
  }

  ghost predicate CleanChars(items: seq<Item>) {
    forall i | 0 <= i < |items| :: items[i].CharItem? ==> CleanChar(items[i].chr)
  }

  /** No item from `from` on is about the same profile. */
  ghost predicate NoneFrom(items: seq<Item>, from: nat, c: CharacteristicProfile) {
    forall i | from <= i < |items| :: items[i].CharItem? ==> !SameProfile(items[i].chr, c)
  }

  lemma {:induction false} KeyedMisses(m: Switches, items: seq<Item>, c: CharacteristicProfile)
    requires CleanChars(items) && CleanChar(c) && NoneFrom(items, 0, c)
    ensures var r, k := Overlay(m, KeyedItems(items)), SwitchKey(c);
            (k in r <==> k in m) && (k in m ==> r[k] == m[k])
    decreases |items|
  {
    hide SwitchKey, SameProfile;
    if items != [] {
      var rest := items[1..];
      assert forall i | 0 <= i < |rest| :: rest[i] == items[i + 1];
      if items[0].SvrItem? {
        KeyedMisses(m, rest, c);
      } else {
        var pair := (SwitchKey(items[0].chr), items[0].chr);
        SwitchKeyExactly(items[0].chr, c);
        KeyedMisses(m[pair.0 := pair.1], rest, c);
        assert ([pair] + KeyedItems(rest))[1..] == KeyedItems(rest);
      }
    }
  }

  /** The last item about a profile is the one that waits under its key. */
  lemma {:induction false} KeyedLast(m: Switches, items: seq<Item>, i: nat)
    requires i < |items| && items[i].CharItem? && CleanChars(items) && NoneFrom(items, i + 1, items[i].chr)
    ensures var r, k := Overlay(m, KeyedItems(items)), SwitchKey(items[i].chr); k in r && r[k] == items[i].chr
    decreases |items|
  {
    hide SwitchKey, SameProfile;
    var rest := items[1..];
    assert forall j | 0 <= j < |rest| :: rest[j] == items[j + 1];
    if items[0].SvrItem? {
      KeyedLast(m, rest, i - 1);
    } else {
      var pair := (SwitchKey(items[0].chr), items[0].chr);
      assert ([pair] + KeyedItems(rest))[1..] == KeyedItems(rest);
      if i == 0 {
        KeyedMisses(m[pair.0 := pair.1], rest, items[0].chr);
      } else {
        KeyedLast(m[pair.0 := pair.1], rest, i - 1);
      }
    }
  }

  /** What makes an item valid, written out. */
  lemma ItemValidExactly(it: Item, localUdid: string)
    ensures ItemValid(it, localUdid) <==>
            match it
            case SvrItem(p) =>
              0 < |p.deviceId| <= 4096 && '#' !in p.deviceId && p.deviceId == localUdid &&
              0 < |p.serviceName| <= 4096 && '#' !in p.serviceName
            case CharItem(c) =>
              0 < |c.deviceId| <= 4096 && '#' !in c.deviceId && c.deviceId == localUdid &&
              0 < |c.serviceName| <= 4096 && '#' !in c.serviceName && 0 < |c.charKey| <= 4096 && '#' !in c.charKey
  {
    hide IsKeyValid;
    match it
    case SvrItem(p) =>
      ValidKeyIsClean(p.deviceId);
      ValidKeyIsClean(p.serviceName);
    case CharItem(c) =>
      ValidKeyIsClean(c.deviceId);
      ValidKeyIsClean(c.serviceName);
      ValidKeyIsClean(c.charKey);
  }

  lemma ValidAreClean(items: seq<Item>, existing: seq<bool>, localUdid: string)
    requires |existing| == |items| && Scan(items, existing, localUdid) == DP_SUCCESS
    ensures CleanChars(items)
  {
    hide ItemValid, Scan;
    ScanValid(items, existing, localUdid);
    forall i | 0 <= i < |items| && items[i].CharItem? ensures CleanChar(items[i].chr) {
      ItemValidExactly(items[i], localUdid);
    }
  }

  /** Item `i` is the first to be invalid or stored already. */
  predicate FirstBad(items: seq<Item>, existing: seq<bool>, localUdid: string, i: nat)
    requires |existing| == |items|
  {
    && i < |items| && (!ItemValid(items[i], localUdid) || existing[i])
    && forall j | 0 <= j < i :: ItemValid(items[j], localUdid) && !existing[j]
  }

  /** The answer to a batch: success, an empty batch or an invalid first bad item, or one that is stored already. */
  lemma {:induction false} VerdictExactly(items: seq<Item>, existing: seq<bool>, localUdid: string, i: nat)
    requires |existing| == |items|
    ensures items == [] ==> Verdict(items, existing, localUdid) == 98566245
    ensures items != [] && (forall j | 0 <= j < |items| :: ItemValid(items[j], localUdid) && !existing[j]) ==>
              Verdict(items, existing, localUdid) == 0
    ensures FirstBad(items, existing, localUdid, i) ==>
              Verdict(items, existing, localUdid) == if ItemValid(items[i], localUdid) then 98566164 else 98566245
    decreases |items|
  {
    hide ItemValid;
    ScanValid(items, existing, localUdid);
    if FirstBad(items, existing, localUdid, i) && i > 0 {
      var rest, restExisting := items[1..], existing[1..];
      assert forall j | 0 <= j < i - 1 :: rest[j] == items[j + 1] && restExisting[j] == existing[j + 1];
      assert FirstBad(rest, restExisting, localUdid, i - 1);
      VerdictExactly(rest, restExisting, localUdid, i - 1);
    }
  }

  lemma {:induction false} BatchOver(items: seq<Item>, base: Store, into: Store)
    ensures BatchEntries(items, base + into) == base + BatchEntries(items, into)
    decreases |items|
  {
    hide KeyOf;
    if items != [] {
      var it := items[0];
      assert ItemEntries(it, base + into) == base + ItemEntries(it, into);
      BatchOver(items[1..], base, if IsSwitch(it) then into else ItemEntries(it, into));
    }
  }

  /** A batch put on top of `base`. */
  lemma {:induction false} BatchOnTop(items: seq<Item>, base: Store)
    ensures BatchEntries(items, base) == base + BatchEntries(items, map[])
  {
    BatchOver(items, base, map[]);
    assert base + map[] == base;
  }

  // ---------------------------------------------------------------- the table the cache stands for

  /** One pair of property values per profile. */
  type ProfileTable = map<ProfileRef, (string, string)>

  function RefOf(it: Item): ProfileRef {
    match it
    case SvrItem(p) => ServiceRef(p.deviceId, p.serviceName)
    case CharItem(c) => CharRef(c.deviceId, c.serviceName, c.charKey)
  }

  function ValuesOf(it: Item): (string, string) {
    match it
    case SvrItem(p) => (p.serviceName, p.serviceType)
    case CharItem(c) => (c.charKey, c.charValue)
  }

  function First(ref: ProfileRef): string {
    KeyOf(ref, if ref.Svr? then SERVICE_NAME else CHARACTERISTIC_KEY, DEFAULT_USER_ID)
  }

  function Second(ref: ProfileRef): string {
    KeyOf(ref, if ref.Svr? then SERVICE_TYPE else CHARACTERISTIC_VALUE, DEFAULT_USER_ID)
  }

  function TableAfter(t: ProfileTable, items: seq<Item>): ProfileTable
    decreases |items|
  {
    if items == [] then t
    else TableAfter(if IsSwitch(items[0]) then t else t[RefOf(items[0]) := ValuesOf(items[0])], items[1..])
  }

  /** A profile the cache may hold: a service or characteristic of this device, never the switch status. */
  ghost predicate Cacheable(ref: ProfileRef, localUdid: string) {
    !ref.Dev? && CleanRef(ref) && ref.device == localUdid && (ref.Chr? ==> ref.charKey != SWITCH_STATUS)
  }

  ghost predicate PairIn(store: Store, ref: ProfileRef, v: (string, string)) {
    && First(ref) in store && store[First(ref)] == v.0
    && Second(ref) in store && store[Second(ref)] == v.1
  }

  ghost predicate Covers(t: ProfileTable, k: string) {
    exists ref :: ref in t && (k == First(ref) || k == Second(ref))
  }

  /** The store holds both properties of every profile of the table and nothing else. */
  ghost predicate Flattens(store: Store, t: ProfileTable, localUdid: string) {
    && (forall ref :: ref in t ==> Cacheable(ref, localUdid))
    && (forall ref :: ref in t ==> PairIn(store, ref, t[ref]))
    && (forall k :: k in store ==> Covers(t, k))
  }

  lemma FirstSecondDistinct(a: ProfileRef, b: ProfileRef)
    requires CleanRef(a) && CleanRef(b)
    ensures First(a) != Second(b)
    ensures First(a) == First(b) ==> a == b
    ensures Second(a) == Second(b) ==> a == b
  {
    hide KeyOf;
    var u := DEFAULT_USER_ID;
    var pa := if a.Svr? then SERVICE_NAME else CHARACTERISTIC_KEY;
    var pb := if b.Svr? then SERVICE_NAME else CHARACTERISTIC_KEY;
    var qa := if a.Svr? then SERVICE_TYPE else CHARACTERISTIC_VALUE;
    var qb := if b.Svr? then SERVICE_TYPE else CHARACTERISTIC_VALUE;
    PropertiesDistinct();
    if KeyOf(a, pa, u) == KeyOf(b, qb, u) {
      KeyInjective(a, pa, u, b, qb, u);
      assert false;
    }
    if KeyOf(a, pa, u) == KeyOf(b, pb, u) {
      KeyInjective(a, pa, u, b, pb, u);
    }
    if KeyOf(a, qa, u) == KeyOf(b, qb, u) {
      KeyInjective(a, qa, u, b, qb, u);
    }
  }

  lemma PropertiesDistinct()
    ensures SERVICE_NAME != SERVICE_TYPE && CHARACTERISTIC_KEY != CHARACTERISTIC_VALUE
  {
    assert SERVICE_NAME[7] != SERVICE_TYPE[7];
    assert |CHARACTERISTIC_KEY| != |CHARACTERISTIC_VALUE|;
  }

  lemma ItemCacheable(it: Item, localUdid: string)
    requires ItemValid(it, localUdid) && !IsSwitch(it)
    ensures Cacheable(RefOf(it), localUdid)
  {
    hide KeyOf, CheckAndAddOhSuffix, IsKeyValid;
    match it
    case SvrItem(p) =>
      ValidKeyIsClean(p.deviceId);
      ValidKeyIsClean(p.serviceName);
      OhSuffixKeepsClean(p.serviceName);
    case CharItem(c) =>
      ValidKeyIsClean(c.deviceId);
      ValidKeyIsClean(c.serviceName);
      ValidKeyIsClean(c.charKey);
      OhSuffixKeepsClean(c.serviceName);
  }

  lemma KeysApart(ref: ProfileRef, r: ProfileRef, localUdid: string)
    requires Cacheable(ref, localUdid) && Cacheable(r, localUdid)
    ensures First(ref) != Second(ref)
    ensures r != ref ==> {First(ref), Second(ref)} !! {First(r), Second(r)}
  {
    hide First, Second, CleanRef;
    FirstSecondDistinct(ref, ref);
    FirstSecondDistinct(ref, r);
    FirstSecondDistinct(r, ref);
  }

  lemma PairFlattens(store: Store, t: ProfileTable, localUdid: string, ref: ProfileRef, v: (string, string))
    requires Flattens(store, t, localUdid) && Cacheable(ref, localUdid)
    ensures Flattens(store[First(ref) := v.0][Second(ref) := v.1], t[ref := v], localUdid)
  {
    hide First, Second, Cacheable;
    var store', t' := store[First(ref) := v.0][Second(ref) := v.1], t[ref := v];
    forall r | r in t' ensures PairIn(store', r, t'[r]) {
      KeysApart(ref, r, localUdid);
      if r != ref {
        assert PairIn(store, r, t[r]);
        assert First(r) in {First(r), Second(r)} && Second(r) in {First(r), Second(r)};
        assert First(ref) in {First(ref), Second(ref)} && Second(ref) in {First(ref), Second(ref)};
      }
    }
    forall k | k in store' ensures Covers(t', k) {
      if k == First(ref) || k == Second(ref) {
        assert ref in t';
      } else {
        assert Covers(t, k);
        var r :| r in t && (k == First(r) || k == Second(r));
        assert r in t';
      }
    }
  }

  lemma ItemFlattens(store: Store, t: ProfileTable, localUdid: string, it: Item)
    requires Flattens(store, t, localUdid) && ItemValid(it, localUdid) && !IsSwitch(it)
    ensures Flattens(ItemEntries(it, store), t[RefOf(it) := ValuesOf(it)], localUdid)
  {
    hide Flattens, Cacheable, First, Second, ItemEntries, RefOf, ValuesOf, ItemValid;
    ItemCacheable(it, localUdid);
    ItemIsPair(it, store);
    PairFlattens(store, t, localUdid, RefOf(it), ValuesOf(it));
  }

  lemma ItemIsPair(it: Item, store: Store)
    ensures ItemEntries(it, store) == store[First(RefOf(it)) := ValuesOf(it).0][Second(RefOf(it)) := ValuesOf(it).1]
  {
    hide KeyOf;
  }

  /** An accepted batch updates the cache exactly as it updates the table. */
  lemma {:induction false} BatchFlattens(store: Store, t: ProfileTable, localUdid: string, items: seq<Item>)
    requires Flattens(store, t, localUdid) && forall i | 0 <= i < |items| :: ItemValid(items[i], localUdid)
    ensures Flattens(BatchEntries(items, store), TableAfter(t, items), localUdid)
    decreases |items|
  {
    hide Flattens, ItemEntries, RefOf, ValuesOf, ItemValid, KeyOf;
    if items != [] {
      if !IsSwitch(items[0]) {
        ItemFlattens(store, t, localUdid, items[0]);
        BatchFlattens(ItemEntries(items[0], store), t[RefOf(items[0]) := ValuesOf(items[0])], localUdid, items[1..]);
      } else {
        BatchFlattens(store, t, localUdid, items[1..]);
      }
    }
  }

  /** Every cached key belongs to a service or characteristic of this device and names no user. */
  lemma FlattenedKey(store: Store, t: ProfileTable, localUdid: string, k: string)
    requires Flattens(store, t, localUdid) && k in store
    ensures GetUserIdFromDbKey(k) == DEFAULT_USER_ID
    ensures exists ref, p :: ref in t && Cacheable(ref, localUdid) && Clean(p) && k == KeyOf(ref, p, DEFAULT_USER_ID)
  {
    hide KeyOf, GetUserIdFromDbKey, Cacheable, PairIn, CleanRef;
    assert Covers(t, k);
    var ref :| ref in t && (k == First(ref) || k == Second(ref));
    var p := if k == First(ref) then (if ref.Svr? then SERVICE_NAME else CHARACTERISTIC_KEY)
             else (if ref.Svr? then SERVICE_TYPE else CHARACTERISTIC_VALUE);
    CacheableIsClean(ref, localUdid);
    UserRecovered(ref, p, DEFAULT_USER_ID);
    assert Clean(p) && k == KeyOf(ref, p, DEFAULT_USER_ID);
  }

  lemma CacheableIsClean(ref: ProfileRef, localUdid: string)
    requires Cacheable(ref, localUdid)
    ensures CleanRef(ref)
  {
  }

  /** The cache never holds a switch status. */
  lemma NoSwitchCached(store: Store, t: ProfileTable, localUdid: string, service: string, p: string, u: Int32)
    requires Flattens(store, t, localUdid) && Clean(service) && Clean(p)
    ensures KeyOf(Chr(localUdid, service, SWITCH_STATUS), p, u) !in store
  {
    hide KeyOf, Flattens, GetUserIdFromDbKey;
    var switch, k := Chr(localUdid, service, SWITCH_STATUS), KeyOf(Chr(localUdid, service, SWITCH_STATUS), p, u);
    if k in store {
      FlattenedKey(store, t, localUdid, k);
      var ref, q :| ref in t && Cacheable(ref, localUdid) && Clean(q) && k == KeyOf(ref, q, DEFAULT_USER_ID);
      KeyInjective(ref, q, DEFAULT_USER_ID, switch, p, u);
      assert false;
    }
  }

  // ---------------------------------------------------------------- the operations, run alone

  function Svrs(ps: seq<ServiceProfile>): seq<Item> {
    seq(|ps|, i requires 0 <= i < |ps| => SvrItem(ps[i]))
  }

  function Chars(cs: seq<CharacteristicProfile>): seq<Item> {
    seq(|cs|, i requires 0 <= i < |cs| => CharItem(cs[i]))
  }

  /** What attempt after attempt lays over a batch. */
  function LaidOver(entries: Store, held: seq<Store>): Store {
    if held == [] then entries else LaidOver(entries, held[..|held| - 1]) + held[|held| - 1]
  }

  lemma NothingFlattens(localUdid: string)
    ensures Flattens(map[], map[], localUdid)
  {
  }

  class PutCache {
    const localUdid: string
    var dynamicProfileMap: Store
    var switchProfileMap: Switches
    ghost var table: ProfileTable

    ghost predicate Valid()
      reads this
    {
      Flattens(dynamicProfileMap, table, localUdid)
    }

    constructor (localUdid: string)
      ensures Valid() && this.localUdid == localUdid
      ensures dynamicProfileMap == map[] && switchProfileMap == map[] && table == map[]
    {
      this.localUdid := localUdid;
      dynamicProfileMap, switchProfileMap, table := map[], map[], map[];
    }

    method InsertAll(entries: Store)
      modifies this`dynamicProfileMap
      ensures dynamicProfileMap == old(dynamicProfileMap) + entries
    {
      hide IsLeast;
      var left := entries;
      assert entries - {} == entries;
      while left != map[]
        invariant dynamicProfileMap + left == old(dynamicProfileMap) + entries
        decreases left.Keys
      {
        var k := NextKey(left.Keys);
        MergeStep(dynamicProfileMap, left, k);
        dynamicProfileMap := dynamicProfileMap[k := left[k]];
        left := left - {k};
      }
      assert dynamicProfileMap + map[] == dynamicProfileMap;
    }

    method AddSvrProfilesToCache(ps: seq<ServiceProfile>, existing: seq<bool>) returns (code: Int32)
      requires Valid() && |existing| == |ps|
      modifies this
      ensures Valid() && switchProfileMap == old(switchProfileMap)
      ensures code == Verdict(Svrs(ps), existing, localUdid)
      ensures code == DP_SUCCESS ==>
                dynamicProfileMap == BatchEntries(Svrs(ps), old(dynamicProfileMap))
                    && table == TableAfter(old(table), Svrs(ps))
      ensures code != DP_SUCCESS ==> dynamicProfileMap == old(dynamicProfileMap) && table == old(table)
    {
      hide Flattens, ItemEntries, ItemValid, IsKeyValid, KeyOf;
      ghost var items := Svrs(ps);
      if ps == [] {
        return DP_INVALID_PARAM;
      }
      var entries: Store := map[];
      for i := 0 to |ps|
        invariant BatchEntries(items[i..], entries) == BatchEntries(items, map[])
        invariant Scan(items[i..], existing[i..], localUdid) == Scan(items, existing, localUdid)
        invariant dynamicProfileMap == old(dynamicProfileMap) && table == old(table)
            && switchProfileMap == old(switchProfileMap)
      {
        assert items[i..][0] == SvrItem(ps[i]) && items[i..][1..] == items[i + 1..]
            && existing[i..][1..] == existing[i + 1..];
        if !ItemValid(SvrItem(ps[i]), localUdid) {
          return DP_INVALID_PARAM;
        }
        if existing[i] {
          return DP_CACHE_EXIST;
        }
        entries := ItemEntries(SvrItem(ps[i]), entries);
      }
      assert entries == BatchEntries(items, map[]);
      BatchOnTop(items, dynamicProfileMap);
      InsertAll(entries);
      RecordAccepted(items, existing);
      code := DP_SUCCESS;
    }

    method AddCharProfilesToCache(cs: seq<CharacteristicProfile>, existing: seq<bool>) returns (code: Int32)
      requires Valid() && |existing| == |cs|
      modifies this
      ensures Valid()
      ensures code == Verdict(Chars(cs), existing, localUdid)
      ensures code == DP_SUCCESS ==>
                dynamicProfileMap == BatchEntries(Chars(cs), old(dynamicProfileMap))
                    && table == TableAfter(old(table), Chars(cs))
      ensures code == DP_SUCCESS ==> switchProfileMap == Overlay(old(switchProfileMap), SwitchPairs(Chars(cs)))
      ensures code == DP_SUCCESS && (exists i :: 0 <= i < |cs| && cs[i].charKey == "SwitchStatus") ==>
                forall i | 0 <= i < |cs| && NoneFrom(Chars(cs), i + 1, cs[i]) ::
                  SwitchKey(cs[i]) in switchProfileMap && switchProfileMap[SwitchKey(cs[i])] == cs[i]
      ensures code != DP_SUCCESS ==>
                dynamicProfileMap == old(dynamicProfileMap) && switchProfileMap == old(switchProfileMap)
                    && table == old(table)
    {
      hide Flattens, ItemEntries, ItemValid, IsKeyValid, KeyOf, SwitchKey;
      ghost var items := Chars(cs);
      if cs == [] {
        return DP_INVALID_PARAM;
      }
      var entries: Store := map[];
      var anySwitch := false;
      for i := 0 to |cs|
        invariant BatchEntries(items[i..], entries) == BatchEntries(items, map[])
        invariant Scan(items[i..], existing[i..], localUdid) == Scan(items, existing, localUdid)
        invariant anySwitch <==> exists j :: 0 <= j < i && IsSwitch(items[j])
        invariant dynamicProfileMap == old(dynamicProfileMap) && table == old(table)
            && switchProfileMap == old(switchProfileMap)
      {
        assert items[i..][0] == CharItem(cs[i]) && items[i..][1..] == items[i + 1..]
            && existing[i..][1..] == existing[i + 1..];
        assert IsSwitch(items[i]) <==> cs[i].charKey == SWITCH_STATUS;
        if !ItemValid(CharItem(cs[i]), localUdid) {
          return DP_INVALID_PARAM;
        }
        if existing[i] {
          return DP_CACHE_EXIST;
        }
        if cs[i].charKey == SWITCH_STATUS {
          anySwitch := true;
          continue;
        }
        entries := ItemEntries(CharItem(cs[i]), entries);
      }
      assert entries == BatchEntries(items, map[]);
      assert forall i | 0 <= i < |cs| :: IsSwitch(items[i]) <==> cs[i].charKey == SWITCH_STATUS;
      BatchOnTop(items, dynamicProfileMap);
      InsertAll(entries);
      if anySwitch {
        ValidAreClean(items, existing, localUdid);
        InsertSwitches(cs);
      }
      RecordAccepted(items, existing);
      code := DP_SUCCESS;
    }

    method InsertSwitches(cs: seq<CharacteristicProfile>)
      modifies this`switchProfileMap
      ensures switchProfileMap == Overlay(old(switchProfileMap), KeyedItems(Chars(cs)))
      ensures CleanChars(Chars(cs)) ==>
                forall i | 0 <= i < |cs| && NoneFrom(Chars(cs), i + 1, cs[i]) ::
                  SwitchKey(cs[i]) in switchProfileMap && switchProfileMap[SwitchKey(cs[i])] == cs[i]
    {
      hide SwitchKey, SameProfile;
      ghost var items := Chars(cs);
      forall i | CleanChars(items) && 0 <= i < |cs| && NoneFrom(items, i + 1, cs[i])
        ensures var r := Overlay(switchProfileMap, KeyedItems(items));
                SwitchKey(cs[i]) in r && r[SwitchKey(cs[i])] == cs[i]
      {
        KeyedLast(switchProfileMap, items, i);
      }
      for i := 0 to |cs|
        invariant Overlay(switchProfileMap, KeyedItems(items[i..])) == Overlay(old(switchProfileMap), KeyedItems(items))
      {
        assert items[i..][0] == CharItem(cs[i]) && items[i..][1..] == items[i + 1..];
        assert KeyedItems(items[i..])[1..] == KeyedItems(items[i + 1..]);
        switchProfileMap := switchProfileMap[SwitchKey(cs[i]) := cs[i]];
      }
    }

    /** Takes every waiting switch item out and gives them to the switch manager, which answers `answer`. */
    method SaveSwitchProfilesFromTempCache(answer: Int32) returns (code: Int32, handed: Switches)
      requires Valid()
      modifies this`switchProfileMap
      ensures Valid() && switchProfileMap == map[] && handed == old(switchProfileMap)
      ensures code == if handed == map[] then DP_SUCCESS else answer
    {
      handed := switchProfileMap;
      if switchProfileMap == map[] {
        return DP_SUCCESS, handed;
      }
      switchProfileMap := map[];
      code := answer;
    }

    /** Hands the waiting entries over, up to twenty times; `saved[i]` is whether attempt i + 1 succeeds, and
        `held[i]` what the manager then lays over the entries, in place. The cache is emptied whatever the outcome. */
    method SaveDynamicProfilesFromTempCache(isFirst: bool, saved: seq<bool>, held: seq<Store>)
      returns (handed: Store, attempts: nat, reset: bool, stored: Option<Store>)
      requires Valid() && |saved| == |held| == 20
      modifies this
      ensures handed == old(dynamicProfileMap) && Flattens(handed, old(table), localUdid)
      ensures Valid() && dynamicProfileMap == map[] && table == map[] && switchProfileMap == old(switchProfileMap)
      ensures 1 <= attempts <= 20
      ensures reset <==> forall i | 0 <= i < |saved| :: !saved[i]
      ensures !reset ==> saved[attempts - 1] && forall i | 0 <= i < attempts - 1 :: !saved[i]
      ensures reset ==> attempts == 20
      ensures stored == if reset then None else Some(LaidOver(handed, held[..attempts]))
    {
      hide KeyOf, Flattens;
      handed := dynamicProfileMap;
      if handed == map[] && isFirst {
        // the wait for late puts happens with the put lock held, so nothing has arrived
        handed := dynamicProfileMap;
      }
      var entries := handed;
      var tryTimes: nat := WRTE_CACHE_PROFILE_RETRY_TIMES;
      attempts, stored := 0, None;
      while tryTimes > 0
        invariant tryTimes + attempts == WRTE_CACHE_PROFILE_RETRY_TIMES
        invariant stored.None? && entries == LaidOver(handed, held[..attempts])
        invariant forall i | 0 <= i < attempts :: !saved[i]
      {
        assert held[..attempts + 1][..attempts] == held[..attempts];
        entries := entries + held[attempts];
        attempts := attempts + 1;
        if saved[attempts - 1] {
          stored := Some(entries);
          break;
        }
        tryTimes := tryTimes - 1;
      }
      reset := tryTimes <= 0;
      dynamicProfileMap, table := map[], map[];
      NothingFlattens(localUdid);
    }

    /** The bookkeeping of an accepted batch. */
    ghost method RecordAccepted(items: seq<Item>, existing: seq<bool>)
      requires |existing| == |items| && Scan(items, existing, localUdid) == DP_SUCCESS
      requires exists before ::
                 Flattens(before, table, localUdid) && dynamicProfileMap == before + BatchEntries(items, map[])
      modifies this`table
      ensures Valid() && table == TableAfter(old(table), items)
    {
      hide Flattens, ItemEntries, ItemValid, KeyOf;
      var before :| Flattens(before, table, localUdid) && dynamicProfileMap == before + BatchEntries(items, map[]);
      ScanValid(items, existing, localUdid);
      BatchFlattens(before, table, localUdid, items);
      BatchOnTop(items, before);
      table := TableAfter(table, items);
    }
  }
}
