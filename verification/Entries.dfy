/** Profiles as store entries: one entry per property, read back through a view that
    prefers the entries of one user over the entries of no user. */
module Entries {
  import opened Text
  import opened DbKeys

  const OS_SYS_CAPACITY := "osSysCapacity"
  const OS_VERSION := "osVersion"
  const OS_TYPE := "osType"
  const OS_VERSION_OH := OS_VERSION + OH_PROFILE_SUFFIX
  const OS_TYPE_OH := OS_TYPE + OH_PROFILE_SUFFIX
  const SERVICE_NAME := "serviceName"
  const SERVICE_TYPE := "serviceType"
  const CHARACTERISTIC_KEY := "characteristicKey"
  const CHARACTERISTIC_VALUE := "characteristicValue"
  const MIN_OS_TYPE: Int32 := 0
  const MAX_OS_TYPE: Int32 := 10000
  const MAX_DB_RECORD_SIZE: nat := 10000

  datatype DeviceProfile =
    DeviceProfile(deviceId: string, osSysCap: string, osVersion: string, osType: Int32, userId: Int32)
  datatype ServiceProfile =
    ServiceProfile(deviceId: string, serviceName: string, serviceType: string, userId: Int32)
  datatype CharacteristicProfile =
    CharacteristicProfile(deviceId: string, serviceName: string, charKey: string, charValue: string, userId: Int32)

  type Store = map<string, string>

  // ---------------------------------------------------------------- writing entries

  function Owner(isMultiUser: bool, userId: Int32): Int32 {
    if isMultiUser then userId else DEFAULT_USER_ID
  }

  function ServiceRef(deviceId: string, serviceName: string): ProfileRef {
    Svr(deviceId, CheckAndAddOhSuffix(serviceName))
  }

  function CharRef(deviceId: string, serviceName: string, charKey: string): ProfileRef {
    Chr(deviceId, CheckAndAddOhSuffix(serviceName), charKey)
  }

  function DeviceProfileToEntries(p: DeviceProfile, values: Store, isMultiUser: bool): Store {
    var ref, user := Dev(p.deviceId), Owner(isMultiUser, p.userId);
    values[KeyOf(ref, OS_SYS_CAPACITY, user) := p.osSysCap]
          [KeyOf(ref, OS_VERSION, user) := p.osVersion]
          [KeyOf(ref, OS_TYPE, user) := ToString(p.osType)]
          [KeyOf(ref, OS_VERSION_OH, user) := p.osVersion]
          [KeyOf(ref, OS_TYPE_OH, user) := ToString(p.osType)]
  }

  function ServiceProfileToEntries(p: ServiceProfile, values: Store, isMultiUser: bool): Store {
    var ref, user := ServiceRef(p.deviceId, p.serviceName), Owner(isMultiUser, p.userId);
    values[KeyOf(ref, SERVICE_NAME, user) := p.serviceName]
          [KeyOf(ref, SERVICE_TYPE, user) := p.serviceType]
  }

  function CharacteristicProfileToEntries(p: CharacteristicProfile, values: Store, isMultiUser: bool): Store {
    var ref, user := CharRef(p.deviceId, p.serviceName, p.charKey), Owner(isMultiUser, p.userId);
    values[KeyOf(ref, CHARACTERISTIC_KEY, user) := p.charKey]
          [KeyOf(ref, CHARACTERISTIC_VALUE, user) := p.charValue]
  }

  function GenerateServiceDBkeys(deviceId: string, serviceName: string, isMultiUser: bool, userId: Int32): seq<string> {
    var ref, user := ServiceRef(deviceId, serviceName), Owner(isMultiUser, userId);
    [KeyOf(ref, SERVICE_NAME, user), KeyOf(ref, SERVICE_TYPE, user)]
  }

  function GenerateCharacteristicDBkeys(deviceId: string, serviceName: string, charKey: string,
                                        isMultiUser: bool, userId: Int32): seq<string>
  {
    var ref, user := CharRef(deviceId, serviceName, charKey), Owner(isMultiUser, userId);
    [KeyOf(ref, CHARACTERISTIC_KEY, user), KeyOf(ref, CHARACTERISTIC_VALUE, user)]
  }

  // ---------------------------------------------------------------- the stored form

  /** The last segment of a key written for a user. */
  function TagText(isMultiUser: bool, userId: Int32): string {
    if isMultiUser && userId != -1 then "#" + ToString(userId) else ""
  }

  function StoredName(serviceName: string): string {
    if serviceName == "DistributeModemService" || serviceName == "multiScreenAssistantService" ||
       serviceName == "appInfo"
    then serviceName + "_OH" else serviceName
  }

  lemma StoredNameIs(serviceName: string)
    ensures CheckAndAddOhSuffix(serviceName) == StoredName(serviceName)
  {
  }

  lemma Reassociate(a: string, b: string, c: string)
    ensures a + b + c == a + (b + c)
  {
  }

  lemma KeyText(ref: ProfileRef, property: string, isMultiUser: bool, userId: Int32)
    ensures KeyOf(ref, property, if isMultiUser then userId else -1)
         == ProfileKey(ref) + "#" + property + TagText(isMultiUser, userId)
  {
    hide ToString, ProfileKey;
    if isMultiUser && userId != -1 {
      Reassociate(ProfileKey(ref) + "#" + property, "#", ToString(userId));
    } else {
      assert ProfileKey(ref) + "#" + property + "" == ProfileKey(ref) + "#" + property;
    }
  }

  /** The entries of a service profile, written out; the generated keys are theirs. */
  lemma ServiceStoredAs(p: ServiceProfile, isMultiUser: bool)
    ensures var path := "svr" + "#" + p.deviceId + "#" + StoredName(p.serviceName);
            var name := path + "#" + "serviceName" + TagText(isMultiUser, p.userId);
            var kind := path + "#" + "serviceType" + TagText(isMultiUser, p.userId);
            && ServiceProfileToEntries(p, map[], isMultiUser) == map[name := p.serviceName][kind := p.serviceType]
            && GenerateServiceDBkeys(p.deviceId, p.serviceName, isMultiUser, p.userId) == [name, kind]
  {
    hide KeyOf, TagText;
    StoredNameIs(p.serviceName);
    var ref := ServiceRef(p.deviceId, p.serviceName);
    KeyText(ref, "serviceName", isMultiUser, p.userId);
    KeyText(ref, "serviceType", isMultiUser, p.userId);
  }

  lemma CharStoredAs(p: CharacteristicProfile, isMultiUser: bool)
    ensures var path := "char" + "#" + p.deviceId + "#" + StoredName(p.serviceName) + "#" + p.charKey;
            var key := path + "#" + "characteristicKey" + TagText(isMultiUser, p.userId);
            var value := path + "#" + "characteristicValue" + TagText(isMultiUser, p.userId);
            && CharacteristicProfileToEntries(p, map[], isMultiUser) == map[key := p.charKey][value := p.charValue]
            && GenerateCharacteristicDBkeys(p.deviceId, p.serviceName, p.charKey, isMultiUser, p.userId) == [key, value]
  {
    hide KeyOf, TagText;
    StoredNameIs(p.serviceName);
    var ref := CharRef(p.deviceId, p.serviceName, p.charKey);
    KeyText(ref, "characteristicKey", isMultiUser, p.userId);
    KeyText(ref, "characteristicValue", isMultiUser, p.userId);
  }

  lemma OhPropertyNames()
    ensures OS_VERSION_OH == "osVersion_OH" && OS_TYPE_OH == "osType_OH"
  {
  }

  lemma DeviceStoredAs(p: DeviceProfile, isMultiUser: bool)
    ensures var path, tag := "dev" + "#" + p.deviceId, TagText(isMultiUser, p.userId);
            DeviceProfileToEntries(p, map[], isMultiUser)
              == map[path + "#" + "osSysCapacity" + tag := p.osSysCap]
                    [path + "#" + "osVersion" + tag := p.osVersion]
                    [path + "#" + "osType" + tag := ToString(p.osType)]
                    [path + "#" + "osVersion_OH" + tag := p.osVersion]
                    [path + "#" + "osType_OH" + tag := ToString(p.osType)]
  {
    hide KeyOf, TagText, ToString;
    OhPropertyNames();
    var ref := Dev(p.deviceId);
    KeyText(ref, "osSysCapacity", isMultiUser, p.userId);
    KeyText(ref, "osVersion", isMultiUser, p.userId);
    KeyText(ref, "osType", isMultiUser, p.userId);
    KeyText(ref, "osVersion_OH", isMultiUser, p.userId);
    KeyText(ref, "osType_OH", isMultiUser, p.userId);
  }

  /** Every entry of a put, and every key generated for a deletion, carries the user it is for, or none. */
  lemma ServiceCarriesUser(p: ServiceProfile, isMultiUser: bool, k: string)
    requires Clean(p.deviceId) && Clean(p.serviceName)
    requires k in ServiceProfileToEntries(p, map[], isMultiUser)
             || k in GenerateServiceDBkeys(p.deviceId, p.serviceName, isMultiUser, p.userId)
    ensures GetUserIdFromDbKey(k) == if isMultiUser then p.userId else -1
  {
    hide KeyOf, GetUserIdFromDbKey, CheckAndAddOhSuffix;
    OhSuffixKeepsClean(p.serviceName);
    var ref, user := ServiceRef(p.deviceId, p.serviceName), if isMultiUser then p.userId else -1;
    UserRecovered(ref, SERVICE_NAME, user);
    UserRecovered(ref, SERVICE_TYPE, user);
  }

  lemma CharCarriesUser(p: CharacteristicProfile, isMultiUser: bool, k: string)
    requires Clean(p.deviceId) && Clean(p.serviceName) && Clean(p.charKey)
    requires k in CharacteristicProfileToEntries(p, map[], isMultiUser)
             || k in GenerateCharacteristicDBkeys(p.deviceId, p.serviceName, p.charKey, isMultiUser, p.userId)
    ensures GetUserIdFromDbKey(k) == if isMultiUser then p.userId else -1
  {
    hide KeyOf, GetUserIdFromDbKey, CheckAndAddOhSuffix;
    OhSuffixKeepsClean(p.serviceName);
    var ref, user := CharRef(p.deviceId, p.serviceName, p.charKey), if isMultiUser then p.userId else -1;
    UserRecovered(ref, CHARACTERISTIC_KEY, user);
    UserRecovered(ref, CHARACTERISTIC_VALUE, user);
  }

  lemma DeviceCarriesUser(p: DeviceProfile, isMultiUser: bool, k: string)
    requires Clean(p.deviceId) && k in DeviceProfileToEntries(p, map[], isMultiUser)
    ensures GetUserIdFromDbKey(k) == if isMultiUser then p.userId else -1
  {
    hide KeyOf, GetUserIdFromDbKey;
    var ref, user := Dev(p.deviceId), if isMultiUser then p.userId else -1;
    UserRecovered(ref, OS_SYS_CAPACITY, user);
    UserRecovered(ref, OS_VERSION, user);
    UserRecovered(ref, OS_TYPE, user);
    UserRecovered(ref, OS_VERSION_OH, user);
    UserRecovered(ref, OS_TYPE_OH, user);
  }

  /** `keys` are the entries of one profile for one user and touch no other written key. */
  ghost predicate ExactlyTheKeysOf(keys: seq<string>, ref: ProfileRef, props: set<string>, user: Int32) {
    forall r: ProfileRef, p: string, u: Int32 {:trigger KeyOf(r, p, u)} :: CleanRef(r) && Clean(p) ==>
      (KeyOf(r, p, u) in keys <==> r == ref && p in props && u == user)
  }

  lemma TwoKeys(ref: ProfileRef, p0: string, p1: string, user: Int32)
    requires CleanRef(ref) && Clean(p0) && Clean(p1)
    ensures ExactlyTheKeysOf([KeyOf(ref, p0, user), KeyOf(ref, p1, user)], ref, {p0, p1}, user)
  {
    hide KeyOf;
    forall r: ProfileRef, p: string, u: Int32 | CleanRef(r) && Clean(p)
      ensures KeyOf(r, p, u) in [KeyOf(ref, p0, user), KeyOf(ref, p1, user)]
         <==> r == ref && p in {p0, p1} && u == user
    {
      if KeyOf(r, p, u) == KeyOf(ref, p0, user) {
        KeyInjective(r, p, u, ref, p0, user);
      } else if KeyOf(r, p, u) == KeyOf(ref, p1, user) {
        KeyInjective(r, p, u, ref, p1, user);
      }
    }
  }

  /** Deleting a service profile undoes its put in any store and hits nobody else's entry. */
  lemma ServiceDeleteUndoesPut(p: ServiceProfile, store: Store, isMultiUser: bool)
    requires Clean(p.deviceId) && Clean(p.serviceName)
    ensures var dbKeys := GenerateServiceDBkeys(p.deviceId, p.serviceName, isMultiUser, p.userId);
            var keys := set k | k in dbKeys;
            var put := ServiceProfileToEntries(p, store, isMultiUser);
            && put.Keys == store.Keys + keys
            && put - keys == store - keys
            && ExactlyTheKeysOf(dbKeys, ServiceRef(p.deviceId, p.serviceName), {SERVICE_NAME, SERVICE_TYPE},
                                Owner(isMultiUser, p.userId))
  {
    hide KeyOf;
    OhSuffixKeepsClean(p.serviceName);
    TwoKeys(ServiceRef(p.deviceId, p.serviceName), SERVICE_NAME, SERVICE_TYPE, Owner(isMultiUser, p.userId));
    var dbKeys := GenerateServiceDBkeys(p.deviceId, p.serviceName, isMultiUser, p.userId);
    assert dbKeys[0] in dbKeys && dbKeys[1] in dbKeys;
  }

  /** The same for characteristics. */
  lemma CharDeleteUndoesPut(p: CharacteristicProfile, store: Store, isMultiUser: bool)
    requires Clean(p.deviceId) && Clean(p.serviceName) && Clean(p.charKey)
    ensures var dbKeys := GenerateCharacteristicDBkeys(p.deviceId, p.serviceName, p.charKey, isMultiUser, p.userId);
            var keys := set k | k in dbKeys;
            var put := CharacteristicProfileToEntries(p, store, isMultiUser);
            && put.Keys == store.Keys + keys
            && put - keys == store - keys
            && ExactlyTheKeysOf(dbKeys, CharRef(p.deviceId, p.serviceName, p.charKey),
                                {CHARACTERISTIC_KEY, CHARACTERISTIC_VALUE}, Owner(isMultiUser, p.userId))
  {
    hide KeyOf;
    OhSuffixKeepsClean(p.serviceName);
    TwoKeys(CharRef(p.deviceId, p.serviceName, p.charKey), CHARACTERISTIC_KEY, CHARACTERISTIC_VALUE,
            Owner(isMultiUser, p.userId));
    var dbKeys := GenerateCharacteristicDBkeys(p.deviceId, p.serviceName, p.charKey, isMultiUser, p.userId);
    assert dbKeys[0] in dbKeys && dbKeys[1] in dbKeys;
  }

  // ---------------------------------------------------------------- the multi-user view

  /** The property a key names to its own user; empty when the key has no known form. */
  function PropertyOf(dbKey: string): string {
    GetProfileProperty(dbKey, GetUserIdFromDbKey(dbKey))
  }

  /** The readable entries written for exactly this user. */
  ghost function OwnedBy(entries: Store, userId: Int32): set<string> {
    set k | k in entries && GetUserIdFromDbKey(k) == userId && PropertyOf(k) != ""
  }

  lemma GreatestUnique(k: string, keys: set<string>)
    requires k in keys && forall j :: j in keys && j != k ==> Less(j, k)
    ensures Greatest(keys) == k
  {
    LessTrichotomy(k, Greatest(keys));
  }

  ghost function Naming(keys: set<string>, property: string): set<string> {
    set k | k in keys && PropertyOf(k) == property
  }

  ghost function Names(keys: set<string>): set<string> {
    set k | k in keys :: PropertyOf(k)
  }

  lemma NamesExact(keys: set<string>, property: string)
    ensures property in Names(keys) <==> Naming(keys, property) != {}
  {
    hide PropertyOf;
    if property in Names(keys) {
      var k :| k in keys && PropertyOf(k) == property;
      assert k in Naming(keys, property);
    }
  }

  /** Each property named among `keys`, with the value under the greatest key naming it. */
  ghost function View(entries: Store, keys: set<string>): Store
    requires keys <= entries.Keys
  {
    map p | p in Names(keys) :: NamesExact(keys, p); entries[Greatest(Naming(keys, p))]
  }

  /** What a user sees: its own entries when it has any, else the entries of no user. */
  ghost function PropertiesView(entries: Store, userId: Int32): Store {
    if userId <= 0 && userId != DEFAULT_USER_ID then map[]
    else if OwnedBy(entries, userId) != {} then View(entries, OwnedBy(entries, userId))
    else View(entries, OwnedBy(entries, DEFAULT_USER_ID))
  }

  lemma ViewAt(entries: Store, keys: set<string>, p: string)
    requires keys <= entries.Keys
    ensures p in View(entries, keys) <==> Naming(keys, p) != {}
    ensures p in View(entries, keys) ==> View(entries, keys)[p] == entries[Greatest(Naming(keys, p))]
  {
    hide PropertyOf, Greatest, Less;
    NamesExact(keys, p);
  }

  lemma NamingMore(keys: set<string>, k: string, p: string)
    ensures Naming(keys + {k}, p) == if p == PropertyOf(k) then Naming(keys, p) + {k} else Naming(keys, p)
  {
    hide PropertyOf;
  }

  lemma ViewExtend(entries: Store, keys: set<string>, k: string)
    requires keys <= entries.Keys && k in entries && k !in keys
    requires forall j :: j in keys ==> Less(j, k)
    ensures View(entries, keys + {k}) == View(entries, keys)[PropertyOf(k) := entries[k]]
  {
    hide PropertyOf, Greatest, Less, View;
    var more := keys + {k};
    var v, v' := View(entries, keys)[PropertyOf(k) := entries[k]], View(entries, more);
    forall p ensures (p in v' <==> p in v) && (p in v' ==> v'[p] == v[p]) {
      ViewAt(entries, keys, p);
      ViewAt(entries, more, p);
      NamingMore(keys, k, p);
      if p == PropertyOf(k) {
        GreatestUnique(k, Naming(more, p));
      }
    }
  }

  /** Visiting `k` next in key order extends the view of `mine` exactly when `k` belongs to it. */
  lemma VisitKey(entries: Store, mine: set<string>, rest: set<string>, k: string)
    requires mine <= entries.Keys && rest <= entries.Keys && k in rest
    requires forall j :: j in entries.Keys - rest ==> Less(j, k)
    ensures View(entries, mine - (rest - {k}))
         == if k in mine then View(entries, mine - rest)[PropertyOf(k) := entries[k]] else View(entries, mine - rest)
  {
    hide View, PropertyOf, Less;
    if k in mine {
      ViewExtend(entries, mine - rest, k);
      assert mine - (rest - {k}) == mine - rest + {k};
    } else {
      assert mine - (rest - {k}) == mine - rest;
    }
  }

  method GetProfilePropertiesMap(dbEntries: Store, userId: Int32) returns (r: Store)
    ensures userId <= 0 && userId != DEFAULT_USER_ID ==> r == map[]
    ensures userId > 0 && OwnedBy(dbEntries, userId) != {} ==> r == View(dbEntries, OwnedBy(dbEntries, userId))
    ensures userId > 0 && OwnedBy(dbEntries, userId) == {} ==> r == View(dbEntries, OwnedBy(dbEntries, DEFAULT_USER_ID))
    ensures userId == DEFAULT_USER_ID ==> r == View(dbEntries, OwnedBy(dbEntries, DEFAULT_USER_ID))
    ensures r == PropertiesView(dbEntries, userId)
  {
    hide View, PropertyOf, GetProfileProperty, GetUserIdFromDbKey, Less, Least;
    var withoutUser: Store, withUser: Store := map[], map[];
    ViewEmpty(dbEntries, {});
    if userId <= 0 && userId != DEFAULT_USER_ID {
      return withoutUser;
    }
    var rest := dbEntries.Keys;
    ghost var own := if userId == DEFAULT_USER_ID then {} else OwnedBy(dbEntries, userId);
    ghost var free := OwnedBy(dbEntries, DEFAULT_USER_ID);
    assert own - rest == {} && free - rest == {};
    while rest != {}
      invariant rest <= dbEntries.Keys
      invariant forall j, k :: j in dbEntries.Keys - rest && k in rest ==> Less(j, k)
      invariant withUser == View(dbEntries, own - rest)
      invariant withoutUser == View(dbEntries, free - rest)
      decreases rest
    {
      var k := NextKey(rest);
      SeenProperty(k, userId);
      VisitKey(dbEntries, own, rest, k);
      VisitKey(dbEntries, free, rest, k);
      rest := rest - {k};
      var property := GetProfileProperty(k, userId);
      if property == "" {
        continue;
      }
      if GetUserIdFromDbKey(k) == DEFAULT_USER_ID {
        withoutUser := withoutUser[property := dbEntries[k]];
        continue;
      }
      withUser := withUser[property := dbEntries[k]];
    }
    assert own - rest == own && free - rest == free;
    ViewEmpty(dbEntries, own);
    if userId != DEFAULT_USER_ID && withUser != map[] {
      return withUser;
    }
    return withoutUser;
  }

  /** A reader gets the named property of its own entries and of entries without a user. */
  lemma SeenProperty(k: string, reader: Int32)
    ensures var user := GetUserIdFromDbKey(k);
            GetProfileProperty(k, reader) == if user == reader || user == DEFAULT_USER_ID then PropertyOf(k) else ""
  {
    hide GetUserIdFromDbKey, Split;
  }

  lemma ViewEmpty(entries: Store, keys: set<string>)
    requires keys <= entries.Keys
    ensures View(entries, keys) == map[] <==> keys == {}
  {
    hide PropertyOf;
    if k :| k in keys {
      assert PropertyOf(k) in View(entries, keys);
    }
  }

  // ---------------------------------------------------------------- reading profiles back

  predicate IsPropertyValid(properties: Store, property: string) {
    property in properties && 0 < |properties[property]| < MAX_STRING_LEN
  }

  predicate IsPropertyInRange(properties: Store, property: string, minValue: Int32, maxValue: Int32) {
    property in properties && IsNumStr(properties[property]) && minValue < Atoi(properties[property]) < maxValue
  }

  predicate EntriesSizeValid(values: Store) {
    0 < |values| <= MAX_DB_RECORD_SIZE
  }

  function OsTypeFrom(properties: Store, property: string, otherwise: Int32): Int32 {
    if IsPropertyInRange(properties, property, MIN_OS_TYPE, MAX_OS_TYPE) then Atoi(properties[property]) else otherwise
  }

  function TextFrom(properties: Store, property: string, otherwise: string): string {
    if IsPropertyValid(properties, property) then properties[property] else otherwise
  }

  ghost function EntriesToDeviceProfile(values: Store, profile: DeviceProfile): (Int32, DeviceProfile) {
    if !EntriesSizeValid(values) then (DP_INVALID_PARAMS, profile)
    else
      var properties := PropertiesView(values, profile.userId);
      var osVersion := TextFrom(properties, OS_VERSION, profile.osVersion);
      var osType := OsTypeFrom(properties, OS_TYPE, profile.osType);
      (DP_SUCCESS,
       profile.(osSysCap := TextFrom(properties, OS_SYS_CAPACITY, profile.osSysCap),
                osVersion := TextFrom(properties, OS_VERSION_OH, osVersion),
                osType := OsTypeFrom(properties, OS_TYPE_OH, osType)))
  }

  ghost function EntriesToServiceProfile(values: Store, profile: ServiceProfile): (Int32, ServiceProfile) {
    if !EntriesSizeValid(values) then (DP_INVALID_PARAMS, profile)
    else
      var first := Least(values.Keys);
      var properties := PropertiesView(values, profile.userId);
      (DP_SUCCESS,
       profile.(deviceId := GetDeviceIdByDBKey(first),
                serviceName := if IsPropertyValid(properties, SERVICE_NAME)
                               then CheckAndRemoveOhSuffix(properties[SERVICE_NAME]) else profile.serviceName,
                serviceType := TextFrom(properties, SERVICE_TYPE, profile.serviceType)))
  }

  ghost function EntriesToCharProfile(values: Store, profile: CharacteristicProfile): (Int32, CharacteristicProfile) {
    if !EntriesSizeValid(values) then (DP_INVALID_PARAMS, profile)
    else
      var first := Least(values.Keys);
      var properties := PropertiesView(values, profile.userId);
      (DP_SUCCESS,
       profile.(deviceId := GetDeviceIdByDBKey(first),
                serviceName := CheckAndRemoveOhSuffix(GetServiceNameByDBKey(first)),
                charKey := TextFrom(properties, CHARACTERISTIC_KEY, profile.charKey),
                charValue := TextFrom(properties, CHARACTERISTIC_VALUE, profile.charValue)))
  }

  /** `values` holds one value per property of one profile, all written for one user. */
  ghost predicate OneProfile(values: Store, ref: ProfileRef, props: Store, user: Int32) {
    && CleanRef(ref)
    && (forall p :: p in props ==> Clean(p) && p != "")
    && (forall p :: p in props ==> KeyOf(ref, p, user) in values && values[KeyOf(ref, p, user)] == props[p])
    && (forall k :: k in values ==> exists p :: p in props && k == KeyOf(ref, p, user))
  }

  /** The key is short enough to be taken apart. */
  predicate Readable(ref: ProfileRef, p: string, user: Int32) {
    |KeyOf(ref, p, user)| <= MAX_STRING_LEN
  }

  /** The users a view shows anything to. */
  predicate CanRead(user: Int32) {
    user > 0 || user == DEFAULT_USER_ID
  }

  function ReadableProps(ref: ProfileRef, props: Store, user: Int32): Store {
    map p | p in props && Readable(ref, p, user) :: props[p]
  }

  lemma OwnKeys(values: Store, ref: ProfileRef, props: Store, user: Int32)
    requires OneProfile(values, ref, props, user)
    ensures forall p :: p in props ==> PropertyOf(KeyOf(ref, p, user)) == if Readable(ref, p, user) then p else ""
    ensures forall k :: k in values ==> GetUserIdFromDbKey(k) == user
    ensures forall k :: k in values && PropertyOf(k) != "" ==>
              PropertyOf(k) in ReadableProps(ref, props, user) && k == KeyOf(ref, PropertyOf(k), user)
  {
    hide KeyOf, GetProfileProperty, GetUserIdFromDbKey;
    forall p | p in props
      ensures GetUserIdFromDbKey(KeyOf(ref, p, user)) == user
      ensures PropertyOf(KeyOf(ref, p, user)) == if Readable(ref, p, user) then p else ""
    {
      UserRecovered(ref, p, user);
      PropertyRecovered(ref, p, user, user);
    }
  }

  lemma ViewIs(entries: Store, keys: set<string>, props: Store)
    requires keys <= entries.Keys
    requires forall k :: k in keys ==> PropertyOf(k) in props && entries[k] == props[PropertyOf(k)]
    requires forall p :: p in props ==> exists k :: k in keys && PropertyOf(k) == p
    ensures View(entries, keys) == props
  {
    hide PropertyOf, Greatest;
    forall p ensures p in Names(keys) <==> p in props {
      NamesExact(keys, p);
    }
  }

  /** A reader is shown a profile of its own or of no user. */
  predicate IsShown(user: Int32, reader: Int32) {
    CanRead(reader) && (reader == user || user == DEFAULT_USER_ID)
  }

  /** Every reader sees exactly the written properties whose keys can be read, or nothing of another user's. */
  lemma ViewOfOneProfile(values: Store, ref: ProfileRef, props: Store, user: Int32, reader: Int32)
    requires OneProfile(values, ref, props, user)
    ensures PropertiesView(values, reader) == if IsShown(user, reader) then ReadableProps(ref, props, user) else map[]
  {
    hide KeyOf, PropertyOf, GetUserIdFromDbKey, View, Readable;
    OwnKeys(values, ref, props, user);
    var mine, seen := OwnedBy(values, user), ReadableProps(ref, props, user);
    if reader != user {
      assert OwnedBy(values, reader) == {};
      ViewEmpty(values, {});
    }
    forall p | p in seen ensures exists k :: k in mine && PropertyOf(k) == p {
      assert KeyOf(ref, p, user) in mine;
    }
    ViewIs(values, mine, seen);
    ViewEmpty(values, mine);
    if user != DEFAULT_USER_ID {
      assert OwnedBy(values, DEFAULT_USER_ID) == {};
      ViewEmpty(values, {});
    }
  }

  /** The path segments as any key of a profile gives them. */
  lemma PathSegments(ref: ProfileRef, p: string, user: Int32)
    requires CleanRef(ref) && Clean(p)
    ensures GetDeviceIdByDBKey(KeyOf(ref, p, user)) == if Readable(ref, p, user) then ref.device else ""
    ensures !ref.Dev? ==>
              GetServiceNameByDBKey(KeyOf(ref, p, user)) == if Readable(ref, p, user) then ref.service else ""
  {
    hide KeyOf;
    KeySegments(ref, p, user);
  }

  /** Writing one more property of a profile. */
  lemma AddProperty(values: Store, ref: ProfileRef, props: Store, user: Int32, p: string, v: string)
    requires OneProfile(values, ref, props, user) && p !in props && |values| == |props|
    requires Clean(p) && p != ""
    ensures OneProfile(values[KeyOf(ref, p, user) := v], ref, props[p := v], user)
    ensures |values[KeyOf(ref, p, user) := v]| == |props[p := v]| == |props| + 1
  {
    hide KeyOf;
    if KeyOf(ref, p, user) in values {
      var q :| q in props && KeyOf(ref, p, user) == KeyOf(ref, q, user);
      KeyInjective(ref, p, user, ref, q, user);
    }
    var values', props' := values[KeyOf(ref, p, user) := v], props[p := v];
    forall k | k in values' ensures exists q :: q in props' && k == KeyOf(ref, q, user) {
      if k in values {
        var q :| q in props && k == KeyOf(ref, q, user);
        assert q in props';
      }
    }
    forall q | q in props ensures KeyOf(ref, q, user) != KeyOf(ref, p, user) {
    }
  }

  lemma NoProperties(ref: ProfileRef, user: Int32) returns (values: Store, props: Store)
    requires CleanRef(ref)
    ensures values == map[] && props == map[] && OneProfile(values, ref, props, user)
  {
    values, props := map[], map[];
  }

  lemma WithProperty(values: Store, ref: ProfileRef, props: Store, user: Int32, p: string, v: string)
    returns (values': Store, props': Store)
    requires OneProfile(values, ref, props, user) && p !in props && |values| == |props|
    requires Clean(p) && p != ""
    ensures values' == values[KeyOf(ref, p, user) := v] && props' == props[p := v]
    ensures OneProfile(values', ref, props', user) && |values'| == |props'| == |props| + 1
  {
    hide KeyOf, OneProfile;
    AddProperty(values, ref, props, user, p, v);
    values', props' := values[KeyOf(ref, p, user) := v], props[p := v];
  }

  /** A text written for the user that the reader is shown and accepts. */
  predicate Comes(ref: ProfileRef, p: string, user: Int32, reader: Int32, text: string) {
    IsShown(user, reader) && Readable(ref, p, user) && 0 < |text| < MAX_STRING_LEN
  }

  lemma KeyLengths(ref: ProfileRef, p: string, q: string, user: Int32)
    requires |p| <= |q|
    ensures |KeyOf(ref, p, user)| <= |KeyOf(ref, q, user)|
    ensures |p| == |q| ==> |KeyOf(ref, p, user)| == |KeyOf(ref, q, user)|
  {
  }

  /** What a service profile comes back as, for every writer, reader and content. */
  lemma ServiceRoundTrip(p: ServiceProfile, isMultiUser: bool, into: ServiceProfile)
    requires Clean(p.deviceId) && Clean(p.serviceName)
    ensures var ref, user := ServiceRef(p.deviceId, p.serviceName), Owner(isMultiUser, p.userId);
            var reader := into.userId;
            EntriesToServiceProfile(ServiceProfileToEntries(p, map[], isMultiUser), into)
                == (DP_SUCCESS,
                    into.(deviceId := if Readable(ref, SERVICE_NAME, user) then p.deviceId else "",
                          serviceName := if Comes(ref, SERVICE_NAME, user, reader, p.serviceName)
                                         then CheckAndRemoveOhSuffix(p.serviceName) else into.serviceName,
                          serviceType := if Comes(ref, SERVICE_TYPE, user, reader, p.serviceType)
                                         then p.serviceType else into.serviceType))
  {
    hide KeyOf, OneProfile, PropertiesView, Least, GetDeviceIdByDBKey, GetServiceNameByDBKey, CheckAndAddOhSuffix,
      CheckAndRemoveOhSuffix, Readable;
    OhSuffixKeepsClean(p.serviceName);
    var ref, user := ServiceRef(p.deviceId, p.serviceName), Owner(isMultiUser, p.userId);
    var values, props := NoProperties(ref, user);
    values, props := WithProperty(values, ref, props, user, SERVICE_NAME, p.serviceName);
    values, props := WithProperty(values, ref, props, user, SERVICE_TYPE, p.serviceType);
    ViewOfOneProfile(values, ref, props, user, into.userId);
    PathSegments(ref, SERVICE_NAME, user);
    PathSegments(ref, SERVICE_TYPE, user);
    ServiceKeysReadAlike(ref, user);
    assert Least(values.Keys) in values;
  }

  lemma ServiceKeysReadAlike(ref: ProfileRef, user: Int32)
    ensures Readable(ref, SERVICE_NAME, user) <==> Readable(ref, SERVICE_TYPE, user)
  {
    KeyLengths(ref, SERVICE_NAME, SERVICE_TYPE, user);
  }

  lemma {:induction false} LessAfterPrefix(prefix: string, a: string, b: string)
    requires Less(a, b)
    ensures Less(prefix + a, prefix + b)
  {
    if prefix == "" {
      assert prefix + a == a && prefix + b == b;
    } else {
      LessAfterPrefix(prefix[1..], a, b);
      assert (prefix + a)[1..] == prefix[1..] + a && (prefix + b)[1..] == prefix[1..] + b;
    }
  }

  /** The first entry of a characteristic is the one holding its key. */
  lemma CharKeyFirst(ref: ProfileRef, user: Int32)
    ensures Less(KeyOf(ref, CHARACTERISTIC_KEY, user), KeyOf(ref, CHARACTERISTIC_VALUE, user))
  {
    hide ProfileKey, ToString;
    var tag := if user == DEFAULT_USER_ID then "" else SEPARATOR + ToString(user);
    var common := ProfileKey(ref) + SEPARATOR + "characteristic";
    LessHead('K', "ey" + tag, 'V', "alue" + tag);
    LessAfterPrefix(common, ['K'] + ("ey" + tag), ['V'] + ("alue" + tag));
    assert KeyOf(ref, CHARACTERISTIC_KEY, user) == common + (['K'] + ("ey" + tag));
    assert KeyOf(ref, CHARACTERISTIC_VALUE, user) == common + (['V'] + ("alue" + tag));
  }

  lemma LessHead(a: char, s: string, b: char, t: string)
    requires a < b
    ensures Less([a] + s, [b] + t)
  {
  }

  lemma LeastOfTwo(a: string, b: string, keys: set<string>)
    requires Less(a, b) && keys == {a, b}
    ensures Least(keys) == a
  {
    LeastUnique(a, keys);
  }

  /** The same for a characteristic, whose service name is read from the key. */
  lemma CharRoundTrip(p: CharacteristicProfile, isMultiUser: bool, into: CharacteristicProfile)
    requires Clean(p.deviceId) && Clean(p.serviceName) && Clean(p.charKey)
    ensures var ref, user := CharRef(p.deviceId, p.serviceName, p.charKey), Owner(isMultiUser, p.userId);
            var reader := into.userId;
            EntriesToCharProfile(CharacteristicProfileToEntries(p, map[], isMultiUser), into)
                == (DP_SUCCESS,
                    into.(deviceId := if Readable(ref, CHARACTERISTIC_KEY, user) then p.deviceId else "",
                          serviceName := if Readable(ref, CHARACTERISTIC_KEY, user)
                                         then CheckAndRemoveOhSuffix(p.serviceName) else "",
                          charKey := if Comes(ref, CHARACTERISTIC_KEY, user, reader, p.charKey)
                                     then p.charKey else into.charKey,
                          charValue := if Comes(ref, CHARACTERISTIC_VALUE, user, reader, p.charValue)
                                       then p.charValue else into.charValue))
  {
    hide KeyOf, OneProfile, PropertiesView, Least, Less, GetDeviceIdByDBKey, GetServiceNameByDBKey, CheckAndAddOhSuffix,
      CheckAndRemoveOhSuffix, Readable;
    OhSuffixKeepsClean(p.serviceName);
    OhSuffixRoundTrip(p.serviceName);
    var ref, user := CharRef(p.deviceId, p.serviceName, p.charKey), Owner(isMultiUser, p.userId);
    var values, props := NoProperties(ref, user);
    values, props := WithProperty(values, ref, props, user, CHARACTERISTIC_KEY, p.charKey);
    values, props := WithProperty(values, ref, props, user, CHARACTERISTIC_VALUE, p.charValue);
    ViewOfOneProfile(values, ref, props, user, into.userId);
    PathSegments(ref, CHARACTERISTIC_KEY, user);
    CharKeyFirst(ref, user);
    LeastOfTwo(KeyOf(ref, CHARACTERISTIC_KEY, user), KeyOf(ref, CHARACTERISTIC_VALUE, user), values.Keys);
    assert CheckAndRemoveOhSuffix("") == "" by { OhSuffixRoundTrip(""); }
  }

  lemma DevicePropertiesDistinct()
    ensures OS_SYS_CAPACITY != OS_VERSION && OS_SYS_CAPACITY != OS_TYPE
    ensures OS_SYS_CAPACITY != OS_VERSION_OH && OS_SYS_CAPACITY != OS_TYPE_OH
    ensures OS_VERSION != OS_TYPE && OS_VERSION != OS_VERSION_OH && OS_VERSION != OS_TYPE_OH
    ensures OS_TYPE != OS_VERSION_OH && OS_TYPE != OS_TYPE_OH && OS_VERSION_OH != OS_TYPE_OH
  {
    assert OS_VERSION[2] != OS_TYPE_OH[2];
  }

  lemma DeviceEntries(p: DeviceProfile, isMultiUser: bool) returns (props: Store)
    requires Clean(p.deviceId)
    ensures props == map[OS_SYS_CAPACITY := p.osSysCap, OS_VERSION := p.osVersion, OS_TYPE := ToString(p.osType),
                         OS_VERSION_OH := p.osVersion, OS_TYPE_OH := ToString(p.osType)]
    ensures OneProfile(DeviceProfileToEntries(p, map[], isMultiUser), Dev(p.deviceId), props,
        Owner(isMultiUser, p.userId))
    ensures EntriesSizeValid(DeviceProfileToEntries(p, map[], isMultiUser))
  {
    hide KeyOf, OneProfile, ToString;
    DevicePropertiesDistinct();
    var ref, user := Dev(p.deviceId), Owner(isMultiUser, p.userId);
    var values: Store;
    values, props := NoProperties(ref, user);
    values, props := WithProperty(values, ref, props, user, OS_SYS_CAPACITY, p.osSysCap);
    values, props := WithProperty(values, ref, props, user, OS_VERSION, p.osVersion);
    values, props := WithProperty(values, ref, props, user, OS_TYPE, ToString(p.osType));
    values, props := WithProperty(values, ref, props, user, OS_VERSION_OH, p.osVersion);
    values, props := WithProperty(values, ref, props, user, OS_TYPE_OH, ToString(p.osType));
  }

  lemma SuffixedReadable(ref: ProfileRef, user: Int32)
    ensures Readable(ref, OS_VERSION_OH, user) ==> Readable(ref, OS_VERSION, user)
    ensures Readable(ref, OS_TYPE_OH, user) ==> Readable(ref, OS_TYPE, user)
  {
    KeyLengths(ref, OS_VERSION, OS_VERSION_OH, user);
    KeyLengths(ref, OS_TYPE, OS_TYPE_OH, user);
  }

  /** A device profile comes back with its system capacity, version and type. */
  lemma DeviceRoundTrip(p: DeviceProfile, isMultiUser: bool, into: DeviceProfile)
    requires Clean(p.deviceId)
    ensures var ref, user := Dev(p.deviceId), Owner(isMultiUser, p.userId);
            var reader := into.userId;
            EntriesToDeviceProfile(DeviceProfileToEntries(p, map[], isMultiUser), into)
                == (DP_SUCCESS,
                    into.(osSysCap := if Comes(ref, OS_SYS_CAPACITY, user, reader, p.osSysCap)
                                      then p.osSysCap else into.osSysCap,
                          osVersion := if Comes(ref, OS_VERSION, user, reader, p.osVersion)
                                       then p.osVersion else into.osVersion,
                          osType := if IsShown(user, reader) && Readable(ref, OS_TYPE, user) &&
                                       MIN_OS_TYPE < p.osType < MAX_OS_TYPE
                                    then p.osType else into.osType))
  {
    hide KeyOf, OneProfile, PropertiesView, DeviceProfileToEntries, IsNumStr, Atoi, ToString, Readable;
    DevicePropertiesDistinct();
    var props := DeviceEntries(p, isMultiUser);
    var ref, user := Dev(p.deviceId), Owner(isMultiUser, p.userId);
    ViewOfOneProfile(DeviceProfileToEntries(p, map[], isMultiUser), ref, props, user, into.userId);
    SuffixedReadable(ref, user);
    AtoiToString(p.osType);
  }

  /** The entries of a device whose plain and "_OH" forms differ. */
  function BothForms(ref: ProfileRef, user: Int32, version: string, ohVersion: string, kind: Int32, ohKind: Int32)
    : Store
  {
    map[KeyOf(ref, "osVersion", user) := version][KeyOf(ref, "osType", user) := ToString(kind)]
       [KeyOf(ref, "osVersion_OH", user) := ohVersion][KeyOf(ref, "osType_OH", user) := ToString(ohKind)]
  }

  lemma BothFormsSeen(deviceId: string, user: Int32, version: string, ohVersion: string, kind: Int32, ohKind: Int32,
                      reader: Int32)
    requires Clean(deviceId) && IsShown(user, reader)
    ensures var values := BothForms(Dev(deviceId), user, version, ohVersion, kind, ohKind);
            && |values| == 4
            && PropertiesView(values, reader)
               == ReadableProps(Dev(deviceId), map[OS_VERSION := version, OS_TYPE := ToString(kind),
                                                   OS_VERSION_OH := ohVersion, OS_TYPE_OH := ToString(ohKind)], user)
  {
    hide KeyOf, OneProfile, PropertiesView, ToString, Readable, ReadableProps;
    DevicePropertiesDistinct();
    OhPropertyNames();
    var ref := Dev(deviceId);
    var values, props := NoProperties(ref, user);
    values, props := WithProperty(values, ref, props, user, OS_VERSION, version);
    values, props := WithProperty(values, ref, props, user, OS_TYPE, ToString(kind));
    values, props := WithProperty(values, ref, props, user, OS_VERSION_OH, ohVersion);
    values, props := WithProperty(values, ref, props, user, OS_TYPE_OH, ToString(ohKind));
    ViewOfOneProfile(values, ref, props, user, reader);
  }

  /** When the two forms of the version or of the type differ, the "_OH" one is read, if it can be. */
  lemma OhFormWins(deviceId: string, user: Int32, version: string, ohVersion: string, kind: Int32, ohKind: Int32,
                   into: DeviceProfile)
    requires Clean(deviceId) && IsShown(user, into.userId)
    requires Readable(Dev(deviceId), OS_VERSION_OH, user) && Readable(Dev(deviceId), OS_TYPE_OH, user)
    requires 0 < |version| < 4096 && 0 < kind < 10000
    ensures EntriesToDeviceProfile(BothForms(Dev(deviceId), user, version, ohVersion, kind, ohKind), into)
         == (0, into.(osVersion := if 0 < |ohVersion| < 4096 then ohVersion else version,
                      osType := if 0 < ohKind < 10000 then ohKind else kind))
  {
    hide KeyOf, PropertiesView, IsNumStr, Atoi, ToString, Readable, BothForms;
    DevicePropertiesDistinct();
    BothFormsSeen(deviceId, user, version, ohVersion, kind, ohKind, into.userId);
    SuffixedReadable(Dev(deviceId), user);
    AtoiToString(kind);
    AtoiToString(ohKind);
  }

  /** An empty store, or one of more than 10000 entries, is refused and leaves the profile as it was. */
  lemma SizeRefused(values: Store, dev: DeviceProfile, svr: ServiceProfile, chr: CharacteristicProfile)
    ensures EntriesToDeviceProfile(values, dev).0 == (if 1 <= |values| <= 10000 then 0 else 98566144)
    ensures EntriesToServiceProfile(values, svr).0 == (if 1 <= |values| <= 10000 then 0 else 98566144)
    ensures EntriesToCharProfile(values, chr).0 == (if 1 <= |values| <= 10000 then 0 else 98566144)
    ensures !(1 <= |values| <= 10000) ==>
              && EntriesToDeviceProfile(values, dev).1 == dev && EntriesToServiceProfile(values, svr).1 == svr
              && EntriesToCharProfile(values, chr).1 == chr
  {
    hide PropertiesView, Least;
  }

  lemma LongerThanPart(ref: ProfileRef, p: string, user: Int32)
    ensures !ref.Dev? ==> |ref.service| < |KeyOf(ref, p, user)|
    ensures ref.Chr? ==> |ref.charKey| < |KeyOf(ref, p, user)|
  {
  }

  /** A valid service profile comes back to a reader unchanged exactly when the reader is shown it, its keys are
      within the length limit, its name does not end in "_OH" and its type is within the limit. */
  lemma ServiceSurvives(p: ServiceProfile, isMultiUser: bool, reader: Int32)
    requires IsKeyValid(p.deviceId) && IsKeyValid(p.serviceName)
    ensures var user, blank := Owner(isMultiUser, p.userId), ServiceProfile("", "", "", reader);
            EntriesToServiceProfile(ServiceProfileToEntries(p, map[], isMultiUser), blank)
                == (DP_SUCCESS, p.(userId := reader)) <==>
              && IsShown(user, reader) && Readable(ServiceRef(p.deviceId, p.serviceName), SERVICE_NAME, user)
              && !EndsWith(p.serviceName, OH_PROFILE_SUFFIX) && |p.serviceType| < MAX_STRING_LEN
  {
    hide EntriesToServiceProfile, ServiceProfileToEntries, KeyOf, CheckAndRemoveOhSuffix, EndsWith, IsKeyValid;
    ValidKeyIsClean(p.deviceId);
    ValidKeyIsClean(p.serviceName);
    ServiceRoundTrip(p, isMultiUser, ServiceProfile("", "", "", reader));
    OhSuffixRoundTrip(p.serviceName);
    LongerThanPart(ServiceRef(p.deviceId, p.serviceName), SERVICE_NAME, Owner(isMultiUser, p.userId));
    ServiceKeysReadAlike(ServiceRef(p.deviceId, p.serviceName), Owner(isMultiUser, p.userId));
    RemovedIsShorter(p.serviceName);
  }

  lemma RemovedIsShorter(s: string)
    ensures |CheckAndRemoveOhSuffix(s)| <= |s| <= |CheckAndAddOhSuffix(s)|
  {
  }

  /** The same for a characteristic; an empty value needs no readable entry. */
  lemma CharSurvives(p: CharacteristicProfile, isMultiUser: bool, reader: Int32)
    requires IsKeyValid(p.deviceId) && IsKeyValid(p.serviceName) && IsKeyValid(p.charKey)
    ensures var ref, user := CharRef(p.deviceId, p.serviceName, p.charKey), Owner(isMultiUser, p.userId);
            var blank := CharacteristicProfile("", "", "", "", reader);
            EntriesToCharProfile(CharacteristicProfileToEntries(p, map[], isMultiUser), blank)
                == (DP_SUCCESS, p.(userId := reader)) <==>
              && IsShown(user, reader) && Readable(ref, CHARACTERISTIC_KEY, user)
              && !EndsWith(p.serviceName, OH_PROFILE_SUFFIX)
              && (p.charValue == "" || (Readable(ref, CHARACTERISTIC_VALUE, user) && |p.charValue| < MAX_STRING_LEN))
  {
    hide EntriesToCharProfile, CharacteristicProfileToEntries, KeyOf, CheckAndRemoveOhSuffix, EndsWith, IsKeyValid;
    ValidKeyIsClean(p.deviceId);
    ValidKeyIsClean(p.serviceName);
    ValidKeyIsClean(p.charKey);
    CharRoundTrip(p, isMultiUser, CharacteristicProfile("", "", "", "", reader));
    OhSuffixRoundTrip(p.serviceName);
    LongerThanPart(CharRef(p.deviceId, p.serviceName, p.charKey), CHARACTERISTIC_KEY, Owner(isMultiUser, p.userId));
  }
}
