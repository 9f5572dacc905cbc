/** Switching the foreground user: the entries written for no user are rewritten so that
    they mirror the entries of the user who takes over. */
module UserSwitch {
  import opened Text
  import opened DbKeys
  import opened Entries

  /** What the three prefix queries for a device return. */
  predicate IsLocal(dbKey: string, udid: string) {
    || StartsWith(dbKey, DEV_PREFIX + SEPARATOR + udid)
    || StartsWith(dbKey, SVR_PREFIX + SEPARATOR + udid)
    || StartsWith(dbKey, CHAR_PREFIX + SEPARATOR + udid)
  }

  lemma StartsAtZero(k: string, prefix: string)
    ensures StartsWith(k, prefix) <==> prefix <= k
  {
    assert OccursAt(k, prefix, 0) <==> prefix <= k;
  }

  lemma PathStartsWith(k: string, head: string, device: string, udid: string)
    requires Clean(udid) && |k| > |head| + |device|
    requires k[..|head| + |device|] == head + device && k[|head| + |device|] == '#'
    ensures head + udid <= k <==> udid <= device
  {
    if head + udid <= k {
      assert forall i | 0 <= i < |udid| :: udid[i] == (head + udid)[|head| + i] == k[|head| + i];
      assert |udid| <= |device|;
      assert forall i | 0 <= i < |device| :: device[i] == (head + device)[|head| + i] == k[|head| + i];
    } else if udid <= device {
      assert forall i | 0 <= i < |head + udid| :: (head + udid)[i] == (head + device)[i] == k[i];
    }
  }

  /** On generated keys of all three kinds, the entries of this device are those whose device id its own begins. */
  lemma IsLocalExactly(ref: ProfileRef, p: string, u: Int32, udid: string)
    requires Clean(udid)
    ensures IsLocal(KeyOf(ref, p, u), udid) <==> udid <= ref.device
  {
    hide ToString, StartsWith;
    var k := KeyOf(ref, p, u);
    StartsAtZero(k, "dev" + "#" + udid);
    StartsAtZero(k, "svr" + "#" + udid);
    StartsAtZero(k, "char" + "#" + udid);
    var kind := match ref case Dev(_) => "dev" case Svr(_, _) => "svr" case Chr(_, _, _) => "char";
    KeyBegins(ref, p, u, kind);
    PathStartsWith(k, kind + "#", ref.device, udid);
    assert k[0] == kind[0];
    assert ("dev" + "#" + udid)[0] == 'd' && ("svr" + "#" + udid)[0] == 's' && ("char" + "#" + udid)[0] == 'c';
  }

  lemma KeyBegins(ref: ProfileRef, p: string, u: Int32, kind: string)
    requires kind == match ref case Dev(_) => "dev" case Svr(_, _) => "svr" case Chr(_, _, _) => "char"
    ensures var k, n := KeyOf(ref, p, u), |kind| + 1 + |ref.device|;
            |k| > n && k[..n] == kind + "#" + ref.device && k[n] == '#'
  {
    hide ToString;
  }

  ghost predicate Written(k: string, ref: ProfileRef, p: string, u: Int32) {
    CleanRef(ref) && Clean(p) && k == KeyOf(ref, p, u)
  }

  ghost predicate IsWritten(k: string) {
    exists ref, p, u: Int32 :: Written(k, ref, p, u)
  }

  /** Every local key was written by the key generators. */
  ghost predicate WellFormed(store: Store, udid: string) {
    forall k :: k in store && IsLocal(k, udid) ==> IsWritten(k)
  }

  /** The user has a local entry of its own for this property. */
  ghost predicate Owns(store: Store, udid: string, ref: ProfileRef, p: string, u: Int32) {
    u != DEFAULT_USER_ID && KeyOf(ref, p, u) in store && IsLocal(KeyOf(ref, p, u), udid)
  }

  ghost predicate SameAt(s: Store, t: Store, k: string) {
    (k in s <==> k in t) && (k in s ==> s[k] == t[k])
  }

  /** The arriving user's entries now stand at their untagged keys, and nothing else changed. */
  ghost predicate SavedFor(before: Store, after: Store, udid: string, cur: Int32) {
    && (forall ref, p, u: Int32 :: CleanRef(ref) && Clean(p) && u != DEFAULT_USER_ID ==>
          SameAt(before, after, KeyOf(ref, p, u)))
    && (forall ref, p :: CleanRef(ref) && Clean(p) ==>
          var k := KeyOf(ref, p, DEFAULT_USER_ID);
          if Owns(before, udid, ref, p, cur) then k in after && after[k] == before[KeyOf(ref, p, cur)]
          else SameAt(before, after, k))
  }

  /** The effect of a completed switch on every property of every profile. */
  ghost predicate SwitchedTo(before: Store, after: Store, udid: string, last: Int32, cur: Int32) {
    && (forall ref, p, u: Int32 :: CleanRef(ref) && Clean(p) && u != DEFAULT_USER_ID ==>
          SameAt(before, after, KeyOf(ref, p, u)))
    && (forall ref, p :: CleanRef(ref) && Clean(p) ==>
          var k := KeyOf(ref, p, DEFAULT_USER_ID);
          if Owns(before, udid, ref, p, cur) then k in after && after[k] == before[KeyOf(ref, p, cur)]
          else if Owns(before, udid, ref, p, last) then k !in after
          else SameAt(before, after, k))
  }

  /** The same in terms of devices: entries of all kinds whose device id the local one begins move, and no others. */
  ghost predicate MovedOnDevice(before: Store, after: Store, udid: string, last: Int32, cur: Int32) {
    forall ref, p :: CleanRef(ref) && Clean(p) ==>
      var k := KeyOf(ref, p, -1);
      if udid <= ref.device && cur != -1 && KeyOf(ref, p, cur) in before
      then k in after && after[k] == before[KeyOf(ref, p, cur)]
      else if udid <= ref.device && last != -1 && KeyOf(ref, p, last) in before then k !in after
      else SameAt(before, after, k)
  }

  lemma SwitchMovesDevice(before: Store, after: Store, udid: string, last: Int32, cur: Int32)
    requires Clean(udid) && SwitchedTo(before, after, udid, last, cur)
    ensures MovedOnDevice(before, after, udid, last, cur)
  {
    hide KeyOf, IsLocal, CleanRef;
    forall ref, p, u: Int32 ensures IsLocal(KeyOf(ref, p, u), udid) <==> udid <= ref.device {
      IsLocalExactly(ref, p, u, udid);
    }
  }

  /** Every local entry of the user is gone, and nothing else. */
  ghost predicate UserRemovedFrom(before: Store, after: Store, udid: string, user: Int32) {
    forall ref, p, u: Int32 :: CleanRef(ref) && Clean(p) ==>
      if u == user && Owns(before, udid, ref, p, u) then KeyOf(ref, p, u) !in after
      else SameAt(before, after, KeyOf(ref, p, u))
  }

  /** The untagged keys a switch saves and deletes. */
  ghost function ToSave(store: Store, udid: string, cur: Int32): set<string> {
    Untagged(OfUser(LocalPart(store, udid), cur))
  }

  ghost function ToDelete(store: Store, udid: string, last: Int32, cur: Int32): set<string> {
    Untagged(OfUser(LocalPart(store, udid), last)) - ToSave(store, udid, cur)
  }

  datatype Outcome = Untouched | SavedOnly | Completed

  /** How far a switch gets. A batch call succeeds at once when it has nothing to do. */
  ghost function OutcomeOf(store: Store, udid: string, last: Int32, cur: Int32, queried: bool, saved: bool,
                           deleted: bool): Outcome
  {
    if last == cur || udid == "" || !queried then Untouched
    else if ToSave(store, udid, cur) != {} && !saved then Untouched
    else if ToDelete(store, udid, last, cur) != {} && !deleted then SavedOnly
    else Completed
  }

  ghost predicate SwitchResult(before: Store, after: Store, udid: string, last: Int32, cur: Int32, outcome: Outcome) {
    match outcome
    case Untouched => after == before
    case SavedOnly => SavedFor(before, after, udid, cur)
    case Completed => SwitchedTo(before, after, udid, last, cur)
  }

  class DynamicStore {
    var entries: Store

    /** `queried`, `saved` and `deleted` say whether the store's three calls succeed. */
    method OnUserChange(last: Int32, cur: Int32, udid: string, queried: bool, saved: bool, deleted: bool)
      requires WellFormed(entries, udid)
      modifies this
      ensures SwitchResult(old(entries), entries, udid, last, cur,
                           OutcomeOf(old(entries), udid, last, cur, queried, saved, deleted))
      ensures forall k :: k !in ToSave(old(entries), udid, cur) + ToDelete(old(entries), udid, last, cur) ==>
                SameAt(old(entries), entries, k)
      ensures WellFormed(entries, udid)
      ensures Clean(udid) && last != cur && udid != "" && queried && saved && deleted ==>
                MovedOnDevice(old(entries), entries, udid, last, cur)
    {
      if last != cur && udid != "" {
        CompletesIfAllSucceed(entries, udid, last, cur);
      }
      forall after | Clean(udid) && SwitchedTo(entries, after, udid, last, cur)
        ensures MovedOnDevice(entries, after, udid, last, cur)
      {
        SwitchMovesDevice(entries, after, udid, last, cur);
      }
      hide *;
      SameEverywhere(entries);
      if last == cur || udid == "" || !queried {
        OutcomeEarly(entries, udid, last, cur, queried, saved, deleted);
        return;
      }
      var profileMap := LocalPart(entries, udid);
      if profileMap == map[] {
        NothingLocal(entries, udid, last, cur, saved, deleted);
        return;
      }
      var lastKeys, curProfiles := SortByUser(profileMap, last, cur);
      var promoted: Store;
      lastKeys, promoted := Promote(lastKeys, curProfiles);
      SwitchSets(entries, udid, last, cur, lastKeys, promoted, saved, deleted);
      SwitchEffect(entries, profileMap, promoted, udid, last, cur);
      UntaggedWritten(entries, udid, cur);
      // each batch call reports success at once when it has nothing to do
      if promoted != map[] && !saved {
        return;
      }
      ghost var before := entries;
      entries := entries + promoted;
      if lastKeys != {} && !deleted {
        TouchedOnly(before, promoted, {}, entries);
        StillWellFormed(before, promoted, {}, udid);
        return;
      }
      entries := entries - lastKeys;
      TouchedOnly(before, promoted, lastKeys, entries);
      StillWellFormed(before, promoted, lastKeys, udid);
    }

    /** A put whose entries are stored at once; `saved` says whether the store accepts them. */
    method PutServiceProfile(p: ServiceProfile, isMultiUser: bool, foreground: Int32, localUdid: string, saved: bool)
      returns (stored: bool)
      modifies this
      ensures stored <==> 0 < |p.deviceId| <= 4096 && p.deviceId == localUdid && 0 < |p.serviceName| <= 4096 &&
                           '#' !in p.deviceId && '#' !in p.serviceName && saved
      ensures !stored ==> entries == old(entries)
      ensures stored ==>
                PutTo(old(entries), entries, ServiceValues(p), if isMultiUser then p.userId else -1, foreground)
      ensures forall k :: SameAt(old(entries), entries, k)
                || GetUserIdFromDbKey(k) == (if isMultiUser then p.userId else -1)
                || (GetUserIdFromDbKey(k) == -1 && p.userId == foreground)
    {
      hide KeyOf, CheckAndAddOhSuffix, IsKeyValid, ServiceValues, GetUserIdFromDbKey, PutTo;
      SameEverywhere(entries);
      ValidKeyIsClean(p.deviceId);
      ValidKeyIsClean(p.serviceName);
      if !ServiceValid(p, localUdid) {
        return false;
      }
      var values: Store := map[];
      if isMultiUser {
        values := ServiceProfileToEntries(p, values, true);
        if foreground == p.userId {
          values := ServiceProfileToEntries(p, values, false);
        }
      } else {
        values := ServiceProfileToEntries(p, values, false);
      }
      if !saved {
        return false;
      }
      ServicePutTo(p, isMultiUser, foreground, localUdid, entries);
      forall k {
        OthersUntouched(entries, entries + values, ServiceValues(p), {}, if isMultiUser then p.userId else -1,
                        foreground, k);
      }
      entries := entries + values;
      stored := true;
    }

    method PutCharacteristicProfile(p: CharacteristicProfile, isMultiUser: bool, foreground: Int32, localUdid: string,
                                    saved: bool)
      returns (stored: bool)
      modifies this
      ensures stored <==> 0 < |p.deviceId| <= 4096 && p.deviceId == localUdid && 0 < |p.serviceName| <= 4096 &&
                           0 < |p.charKey| <= 4096 && '#' !in p.deviceId && '#' !in p.serviceName &&
                           '#' !in p.charKey && saved
      ensures !stored ==> entries == old(entries)
      ensures stored ==>
                PutTo(old(entries), entries, CharValues(p), if isMultiUser then p.userId else -1, foreground)
      ensures forall k :: SameAt(old(entries), entries, k)
                || GetUserIdFromDbKey(k) == (if isMultiUser then p.userId else -1)
                || (GetUserIdFromDbKey(k) == -1 && p.userId == foreground)
    {
      hide KeyOf, CheckAndAddOhSuffix, IsKeyValid, CharValues, GetUserIdFromDbKey, PutTo;
      SameEverywhere(entries);
      ValidKeyIsClean(p.deviceId);
      ValidKeyIsClean(p.serviceName);
      ValidKeyIsClean(p.charKey);
      if !CharValid(p, localUdid) {
        return false;
      }
      var values: Store := map[];
      if isMultiUser {
        values := CharacteristicProfileToEntries(p, values, true);
        if foreground == p.userId {
          values := CharacteristicProfileToEntries(p, values, false);
        }
      } else {
        values := CharacteristicProfileToEntries(p, values, false);
      }
      if !saved {
        return false;
      }
      CharPutTo(p, isMultiUser, foreground, localUdid, entries);
      forall k {
        OthersUntouched(entries, entries + values, CharValues(p), {}, if isMultiUser then p.userId else -1,
                        foreground, k);
      }
      entries := entries + values;
      stored := true;
    }

    /** A deletion; `accepted` says whether the store carries it out. */
    method DeleteServiceProfile(deviceId: string, serviceName: string, isMultiUser: bool, userId: Int32,
                                foreground: Int32, localUdid: string, accepted: bool)
      returns (deleted: bool)
      modifies this
      ensures deleted <==> 0 < |deviceId| <= 4096 && deviceId == localUdid && 0 < |serviceName| <= 4096 &&
                           '#' !in deviceId && '#' !in serviceName && accepted
      ensures !deleted ==> entries == old(entries)
      ensures deleted ==>
                DeletedFrom(old(entries), entries,
                            ServiceValues(ServiceProfile(deviceId, serviceName, "", userId)).Keys,
                            if isMultiUser then userId else -1, foreground)
      ensures forall k :: SameAt(old(entries), entries, k)
                || GetUserIdFromDbKey(k) == (if isMultiUser then userId else -1)
                || (GetUserIdFromDbKey(k) == -1 && userId == foreground)
    {
      hide KeyOf, CheckAndAddOhSuffix, IsKeyValid, DeletedFrom, GetUserIdFromDbKey;
      SameEverywhere(entries);
      ValidKeyIsClean(deviceId);
      ValidKeyIsClean(serviceName);
      if !ServiceValid(ServiceProfile(deviceId, serviceName, "", userId), localUdid) {
        return false;
      }
      var keys := GenerateServiceDBkeys(deviceId, serviceName, isMultiUser, userId);
      if isMultiUser && foreground == userId {
        keys := keys + GenerateServiceDBkeys(deviceId, serviceName, false, DEFAULT_USER_ID);
      }
      if !accepted {
        return false;
      }
      ghost var ref := ServiceRef(deviceId, serviceName);
      OhSuffixKeepsClean(serviceName);
      TwoDeleted(entries, ref, SERVICE_NAME, SERVICE_TYPE, keys, if isMultiUser then userId else -1, foreground);
      ghost var props := ServiceValues(ServiceProfile(deviceId, serviceName, "", userId)).Keys;
      assert props == {(ref, SERVICE_NAME), (ref, SERVICE_TYPE)};
      forall k {
        OthersUntouched(entries, entries - set x | x in keys, map[], props, if isMultiUser then userId else -1,
                        foreground, k);
      }
      entries := entries - set k | k in keys;
      deleted := true;
    }

    /** Forgets a user who was removed from the system. */
    method DeleteRemovedUserData(userId: Int32, udid: string, queried: bool, deleted: bool) returns (done: bool)
      modifies this
      ensures done <==> 0 <= userId <= 100000 && udid != "" && queried
                        && (deleted || OfUser(LocalPart(old(entries), udid), userId) == {})
      ensures if done then UserRemovedFrom(old(entries), entries, udid, userId) else entries == old(entries)
      ensures forall k :: SameAt(old(entries), entries, k) || GetUserIdFromDbKey(k) == userId
    {
      hide KeyOf, GetUserIdFromDbKey, IsLocal, CleanRef;
      SameEverywhere(entries);
      if userId < 0 || userId > 100000 || udid == "" || !queried {
        return false;
      }
      var local := LocalPart(entries, udid);
      var keysToDelete: set<string> := {};
      var rest := local.Keys;
      while rest != {}
        invariant rest <= local.Keys && keysToDelete == OfUser(local, userId) - rest
        decreases rest
      {
        var k :| k in rest;
        if userId == GetUserIdFromDbKey(k) {
          keysToDelete := keysToDelete + {k};
        }
        rest := rest - {k};
      }
      assert keysToDelete == OfUser(local, userId);
      if keysToDelete != {} && !deleted {
        return false;
      }
      ghost var before := entries;
      entries := entries - keysToDelete;
      done := true;
      forall ref, p, u: Int32 | CleanRef(ref) && Clean(p)
        ensures if u == userId && Owns(before, udid, ref, p, u) then KeyOf(ref, p, u) !in entries
                else SameAt(before, entries, KeyOf(ref, p, u))
      {
        UserRecovered(ref, p, u);
      }
    }
  }

  lemma CompletesIfAllSucceed(store: Store, udid: string, last: Int32, cur: Int32)
    requires last != cur && udid != ""
    ensures OutcomeOf(store, udid, last, cur, true, true, true) == Completed
  {
  }

  lemma SameEverywhere(store: Store)
    ensures forall k :: SameAt(store, store, k)
  {
  }

  lemma OutcomeEarly(store: Store, udid: string, last: Int32, cur: Int32, queried: bool, saved: bool, deleted: bool)
    requires last == cur || udid == "" || !queried
    ensures SwitchResult(store, store, udid, last, cur, OutcomeOf(store, udid, last, cur, queried, saved, deleted))
  {
  }

  lemma TouchedOnly(before: Store, promoted: Store, dropped: set<string>, after: Store)
    requires after == before + promoted - dropped || (dropped == {} && after == before + promoted)
    ensures forall k :: k !in promoted.Keys + dropped ==> SameAt(before, after, k)
  {
  }

  lemma StillWellFormed(before: Store, promoted: Store, dropped: set<string>, udid: string)
    requires WellFormed(before, udid) && forall k :: k in promoted ==> IsWritten(k)
    ensures WellFormed(before + promoted - dropped, udid) && WellFormed(before + promoted, udid)
  {
    hide IsWritten, IsLocal;
  }

  lemma UntaggedWritten(store: Store, udid: string, cur: Int32)
    requires WellFormed(store, udid)
    ensures forall k :: k in ToSave(store, udid, cur) ==> IsWritten(k)
  {
    hide KeyOf, WithoutUser, GetUserIdFromDbKey, IsLocal;
    forall k | k in ToSave(store, udid, cur) ensures IsWritten(k) {
      var t :| t in OfUser(LocalPart(store, udid), cur) && WithoutUser(t) == k;
      assert IsWritten(t);
      var ref, p, u: Int32 :| Written(t, ref, p, u);
      UserRemoved(ref, p, u);
      assert Written(k, ref, p, DEFAULT_USER_ID);
    }
  }

  lemma SwitchSets(store: Store, udid: string, last: Int32, cur: Int32, left: set<string>, promoted: Store, saved: bool,
                   deleted: bool)
    requires last != cur && udid != ""
    requires promoted.Keys == Untagged(OfUser(LocalPart(store, udid), cur))
    requires left == Untagged(OfUser(LocalPart(store, udid), last)) - promoted.Keys
    ensures promoted.Keys == ToSave(store, udid, cur) && left == ToDelete(store, udid, last, cur)
    ensures OutcomeOf(store, udid, last, cur, true, saved, deleted) ==
            if promoted != map[] && !saved then Untouched else if left != {} && !deleted then SavedOnly else Completed
    ensures forall after :: SwitchResult(store, after, udid, last, cur, Untouched) <==> after == store
    ensures forall after :: SwitchResult(store, after, udid, last, cur, SavedOnly) <==>
             SavedFor(store, after, udid, cur)
    ensures forall after ::
              SwitchResult(store, after, udid, last, cur, Completed) <==> SwitchedTo(store, after, udid, last, cur)
  {
    hide Untagged, OfUser, LocalPart, SavedFor, SwitchedTo;
    assert promoted == map[] <==> promoted.Keys == {};
  }

  function LocalPart(store: Store, udid: string): Store {
    map k | k in store && IsLocal(k, udid) :: store[k]
  }

  /** First pass: the untagged keys of the leaving user, and the entries of the arriving one. */
  method SortByUser(profileMap: Store, last: Int32, cur: Int32) returns (lastKeys: set<string>, curProfiles: Store)
    ensures lastKeys == Untagged(OfUser(profileMap, last))
    ensures curProfiles.Keys == OfUser(profileMap, cur)
    ensures forall k :: k in curProfiles ==> k in profileMap && curProfiles[k] == profileMap[k]
  {
    hide WithoutUser, GetUserIdFromDbKey, Untagged;
    lastKeys, curProfiles := {}, map[];
    var rest := profileMap.Keys;
    UntaggedEmpty();
    assert OfUser(profileMap, last) - rest == {} && OfUser(profileMap, cur) - rest == {};
    while rest != {}
      invariant rest <= profileMap.Keys
      invariant lastKeys == Untagged(OfUser(profileMap, last) - rest)
      invariant curProfiles.Keys == OfUser(profileMap, cur) - rest
      invariant forall k :: k in curProfiles ==> k in profileMap && curProfiles[k] == profileMap[k]
      decreases rest
    {
      var key :| key in rest;
      var userId := GetUserIdFromDbKey(key);
      UntaggedVisit(OfUser(profileMap, last), rest, key);
      if userId != DEFAULT_USER_ID && userId == last {
        var dbKeyWithoutUID := RemoveUserIdFromDbKey(key);
        if dbKeyWithoutUID != "" {
          lastKeys := lastKeys + {dbKeyWithoutUID};
        }
      }
      if userId != DEFAULT_USER_ID && userId == cur {
        curProfiles := curProfiles[key := profileMap[key]];
      }
      rest := rest - {key};
    }
    assert OfUser(profileMap, last) - rest == OfUser(profileMap, last);
  }

  /** Second pass: the arriving user's entries move to their untagged keys, which need no deletion. */
  method Promote(lastKeys: set<string>, curProfiles: Store) returns (left: set<string>, promoted: Store)
    ensures left == lastKeys - promoted.Keys
    ensures promoted.Keys == Untagged(curProfiles.Keys)
    ensures forall k :: k in promoted ==>
              exists t :: t in curProfiles && WithoutUser(t) == k && promoted[k] == curProfiles[t]
  {
    hide WithoutUser, Untagged;
    left, promoted := lastKeys, map[];
    var rest := curProfiles.Keys;
    UntaggedEmpty();
    assert curProfiles.Keys - rest == {};
    while rest != {}
      invariant rest <= curProfiles.Keys
      invariant left == lastKeys - promoted.Keys
      invariant promoted.Keys == Untagged(curProfiles.Keys - rest)
      invariant forall k :: k in promoted ==>
                  exists t :: t in curProfiles && WithoutUser(t) == k && promoted[k] == curProfiles[t]
      decreases rest
    {
      var key :| key in rest;
      var dbKeyWithoutUID := RemoveUserIdFromDbKey(key);
      UntaggedVisit(curProfiles.Keys, rest, key);
      if dbKeyWithoutUID != "" {
        left := left - {dbKeyWithoutUID};
        promoted := promoted[dbKeyWithoutUID := curProfiles[key]];
      }
      rest := rest - {key};
    }
    assert curProfiles.Keys - rest == curProfiles.Keys;
  }

  ghost function OfUser(profiles: Store, u: Int32): set<string> {
    if u == DEFAULT_USER_ID then {} else set k | k in profiles && GetUserIdFromDbKey(k) == u
  }

  /** The same keys written for no user. */
  ghost function Untagged(keys: set<string>): set<string> {
    set k | k in keys && WithoutUser(k) != "" :: WithoutUser(k)
  }

  lemma UntaggedEmpty()
    ensures Untagged({}) == {}
  {
  }

  lemma UntaggedVisit(mine: set<string>, rest: set<string>, k: string)
    requires k in rest
    ensures Untagged(mine - (rest - {k}))
         == Untagged(mine - rest) + (if k in mine && WithoutUser(k) != "" then {WithoutUser(k)} else {})
  {
    hide WithoutUser;
    if k in mine {
      assert mine - (rest - {k}) == mine - rest + {k};
    } else {
      assert mine - (rest - {k}) == mine - rest;
    }
  }

  lemma NothingLocal(store: Store, udid: string, last: Int32, cur: Int32, saved: bool, deleted: bool)
    requires LocalPart(store, udid) == map[] && last != cur && udid != ""
    ensures OutcomeOf(store, udid, last, cur, true, saved, deleted) == Completed
    ensures SwitchResult(store, store, udid, last, cur, Completed)
  {
    hide KeyOf, IsLocal, WithoutUser, GetUserIdFromDbKey;
    assert forall k :: k in store && IsLocal(k, udid) ==> k in LocalPart(store, udid);
    assert OfUser(LocalPart(store, udid), cur) == {} && OfUser(LocalPart(store, udid), last) == {};
    UntaggedEmpty();
  }

  /** A well-formed local entry of a user is the only one that becomes its untagged key. */
  lemma UntaggedExact(store: Store, profiles: Store, udid: string, u: Int32, ref: ProfileRef, p: string)
    requires WellFormed(store, udid) && CleanRef(ref) && Clean(p) && u != DEFAULT_USER_ID
    requires profiles == LocalPart(store, udid)
    ensures KeyOf(ref, p, DEFAULT_USER_ID) in Untagged(OfUser(profiles, u)) <==> Owns(store, udid, ref, p, u)
    ensures forall t :: t in OfUser(profiles, u) && WithoutUser(t) == KeyOf(ref, p, DEFAULT_USER_ID) ==>
             t == KeyOf(ref, p, u)
  {
    hide KeyOf, WithoutUser, GetUserIdFromDbKey, IsLocal;
    var k0 := KeyOf(ref, p, DEFAULT_USER_ID);
    KeyNotEmpty(ref, p, DEFAULT_USER_ID);
    UserRemoved(ref, p, u);
    UserRecovered(ref, p, u);
    forall t | t in OfUser(profiles, u) && WithoutUser(t) == k0 ensures t == KeyOf(ref, p, u) {
      assert IsWritten(t);
      var ref', p', u': Int32 :| Written(t, ref', p', u');
      UserRemoved(ref', p', u');
      UserRecovered(ref', p', u');
      KeyInjective(ref', p', DEFAULT_USER_ID, ref, p, DEFAULT_USER_ID);
    }
    if Owns(store, udid, ref, p, u) {
      assert KeyOf(ref, p, u) in OfUser(profiles, u);
    }
  }

  lemma KeyNotEmpty(ref: ProfileRef, p: string, u: Int32)
    ensures KeyOf(ref, p, u) != ""
  {
  }

  lemma NeverUntagged(store: Store, profiles: Store, udid: string, v: Int32, ref: ProfileRef, p: string, u: Int32)
    requires WellFormed(store, udid) && CleanRef(ref) && Clean(p) && u != DEFAULT_USER_ID
    requires profiles == LocalPart(store, udid)
    ensures KeyOf(ref, p, u) !in Untagged(OfUser(profiles, v))
  {
    hide KeyOf, WithoutUser, GetUserIdFromDbKey, IsLocal;
    if KeyOf(ref, p, u) in Untagged(OfUser(profiles, v)) {
      var t :| t in OfUser(profiles, v) && WithoutUser(t) == KeyOf(ref, p, u);
      assert IsWritten(t);
      var ref', p', u': Int32 :| Written(t, ref', p', u');
      UserRemoved(ref', p', u');
      KeyInjective(ref', p', DEFAULT_USER_ID, ref, p, u);
    }
  }

  lemma SwitchEffect(store: Store, profiles: Store, promoted: Store, udid: string, last: Int32, cur: Int32)
    requires WellFormed(store, udid) && last != cur
    requires profiles == LocalPart(store, udid)
    requires promoted.Keys == Untagged(OfUser(profiles, cur))
    requires forall k :: k in promoted ==>
               exists t :: t in OfUser(profiles, cur) && WithoutUser(t) == k && promoted[k] == profiles[t]
    ensures SwitchedTo(store, store + promoted - (Untagged(OfUser(profiles, last)) - promoted.Keys), udid, last, cur)
    ensures SavedFor(store, store + promoted, udid, cur)
  {
    hide KeyOf, WithoutUser, GetUserIdFromDbKey, IsLocal, Untagged, OfUser;
    var after := store + promoted - (Untagged(OfUser(profiles, last)) - promoted.Keys);
    forall ref, p, u: Int32 | CleanRef(ref) && Clean(p) && u != DEFAULT_USER_ID
      ensures SameAt(store, after, KeyOf(ref, p, u))
    {
      NeverUntagged(store, profiles, udid, cur, ref, p, u);
      NeverUntagged(store, profiles, udid, last, ref, p, u);
    }
    forall ref, p | CleanRef(ref) && Clean(p)
      ensures var k := KeyOf(ref, p, DEFAULT_USER_ID);
              if Owns(store, udid, ref, p, cur) then k in after && after[k] == store[KeyOf(ref, p, cur)]
              else if Owns(store, udid, ref, p, last) then k !in after
              else SameAt(store, after, k)
    {
      OwnedOrNot(store, profiles, udid, cur, ref, p);
      OwnedOrNot(store, profiles, udid, last, ref, p);
    }
    SaveEffect(store, profiles, promoted, udid, cur);
  }

  lemma SaveEffect(store: Store, profiles: Store, promoted: Store, udid: string, cur: Int32)
    requires WellFormed(store, udid) && profiles == LocalPart(store, udid)
    requires promoted.Keys == Untagged(OfUser(profiles, cur))
    requires forall k :: k in promoted ==>
               exists t :: t in OfUser(profiles, cur) && WithoutUser(t) == k && promoted[k] == profiles[t]
    ensures SavedFor(store, store + promoted, udid, cur)
  {
    hide KeyOf, WithoutUser, GetUserIdFromDbKey, IsLocal, Untagged, OfUser;
    forall ref, p, u: Int32 | CleanRef(ref) && Clean(p) && u != DEFAULT_USER_ID
      ensures SameAt(store, store + promoted, KeyOf(ref, p, u))
    {
      NeverUntagged(store, profiles, udid, cur, ref, p, u);
    }
    forall ref, p | CleanRef(ref) && Clean(p)
      ensures var k := KeyOf(ref, p, DEFAULT_USER_ID);
              if Owns(store, udid, ref, p, cur)
                  then k in store + promoted && (store + promoted)[k] == store[KeyOf(ref, p, cur)]
              else SameAt(store, store + promoted, k)
    {
      OwnedOrNot(store, profiles, udid, cur, ref, p);
    }
  }

  lemma OwnedOrNot(store: Store, profiles: Store, udid: string, u: Int32, ref: ProfileRef, p: string)
    requires WellFormed(store, udid) && CleanRef(ref) && Clean(p)
    requires profiles == LocalPart(store, udid)
    ensures KeyOf(ref, p, DEFAULT_USER_ID) in Untagged(OfUser(profiles, u)) <==> Owns(store, udid, ref, p, u)
    ensures forall t :: t in OfUser(profiles, u) && WithoutUser(t) == KeyOf(ref, p, DEFAULT_USER_ID) ==>
             t == KeyOf(ref, p, u)
  {
    hide KeyOf, WithoutUser, GetUserIdFromDbKey, IsLocal;
    if u != DEFAULT_USER_ID {
      UntaggedExact(store, profiles, udid, u, ref, p);
    }
  }

  // ---------------------------------------------------------------- puts

  type Property = (ProfileRef, string)

  predicate ServiceValid(p: ServiceProfile, localUdid: string) {
    IsKeyValid(p.deviceId) && p.deviceId == localUdid && IsKeyValid(p.serviceName)
  }

  predicate CharValid(p: CharacteristicProfile, localUdid: string) {
    IsKeyValid(p.deviceId) && p.deviceId == localUdid && IsKeyValid(p.serviceName) && IsKeyValid(p.charKey)
  }

  function ServiceValues(p: ServiceProfile): map<Property, string> {
    var ref := ServiceRef(p.deviceId, p.serviceName);
    map[(ref, SERVICE_NAME) := p.serviceName, (ref, SERVICE_TYPE) := p.serviceType]
  }

  function CharValues(p: CharacteristicProfile): map<Property, string> {
    var ref := CharRef(p.deviceId, p.serviceName, p.charKey);
    map[(ref, CHARACTERISTIC_KEY) := p.charKey, (ref, CHARACTERISTIC_VALUE) := p.charValue]
  }

  /** A put or a deletion touches no key of another user, and none of no user unless it is for no user itself or for the
      one in the foreground. */
  lemma OthersUntouched(before: Store, after: Store, values: map<Property, string>, props: set<Property>, user: Int32,
                        foreground: Int32, k: string)
    requires PutTo(before, after, values, user, foreground) || DeletedFrom(before, after, props, user, foreground)
    ensures SameAt(before, after, k) || GetUserIdFromDbKey(k) == user
            || (GetUserIdFromDbKey(k) == -1 && user == foreground)
  {
    hide KeyOf, GetUserIdFromDbKey, CleanRef;
    if IsWritten(k) {
      var ref, p, u: Int32 :| Written(k, ref, p, u);
      UserRecovered(ref, p, u);
    }
  }

  /** Whether a put or a deletion for `user` reaches the entry of `u`: a foreground user's also reaches the untagged
      one. */
  predicate Reaches(user: Int32, foreground: Int32, u: Int32) {
    u == user || (u == DEFAULT_USER_ID && user == foreground)
  }

  /** The effect of a put on every property of every profile, and on every key that was never generated. */
  ghost predicate PutTo(before: Store, after: Store, values: map<Property, string>, user: Int32, foreground: Int32) {
    && (forall ref, p, u: Int32 :: CleanRef(ref) && Clean(p) ==>
          var k := KeyOf(ref, p, u);
          if (ref, p) in values && Reaches(user, foreground, u) then k in after && after[k] == values[(ref, p)]
          else SameAt(before, after, k))
    && forall k :: !IsWritten(k) ==> SameAt(before, after, k)
  }

  ghost predicate DeletedFrom(before: Store, after: Store, props: set<Property>, user: Int32, foreground: Int32) {
    && (forall ref, p, u: Int32 :: CleanRef(ref) && Clean(p) ==>
          var k := KeyOf(ref, p, u);
          if (ref, p) in props && Reaches(user, foreground, u) then k !in after else SameAt(before, after, k))
    && forall k :: !IsWritten(k) ==> SameAt(before, after, k)
  }

  /** Puts and deletions leave a well-formed store well-formed. */
  lemma KeepsWellFormed(before: Store, after: Store, udid: string, values: map<Property, string>, props: set<Property>,
                        user: Int32, foreground: Int32)
    requires WellFormed(before, udid)
    requires PutTo(before, after, values, user, foreground) || DeletedFrom(before, after, props, user, foreground)
    ensures WellFormed(after, udid)
  {
    hide KeyOf, IsLocal, IsWritten;
    forall k | k in after && IsLocal(k, udid) ensures IsWritten(k) {
      assert IsWritten(k) || SameAt(before, after, k);
    }
  }

  lemma TwoDeleted(store: Store, ref: ProfileRef, p0: string, p1: string, keys: seq<string>, user: Int32,
                   foreground: Int32)
    requires CleanRef(ref) && Clean(p0) && Clean(p1)
    requires keys == [KeyOf(ref, p0, user), KeyOf(ref, p1, user)]
                     + (if user == foreground && user != DEFAULT_USER_ID
                        then [KeyOf(ref, p0, DEFAULT_USER_ID), KeyOf(ref, p1, DEFAULT_USER_ID)] else [])
             || (user == foreground == DEFAULT_USER_ID
                 && keys == [KeyOf(ref, p0, user), KeyOf(ref, p1, user)] + [KeyOf(ref, p0, user), KeyOf(ref, p1, user)])
    ensures DeletedFrom(store, store - (set k | k in keys), {(ref, p0), (ref, p1)}, user, foreground)
  {
    hide KeyOf, CleanRef;
    var own := [KeyOf(ref, p0, user), KeyOf(ref, p1, user)];
    var free := [KeyOf(ref, p0, DEFAULT_USER_ID), KeyOf(ref, p1, DEFAULT_USER_ID)];
    TwoKeys(ref, p0, p1, user);
    TwoKeys(ref, p0, p1, DEFAULT_USER_ID);
    forall r: ProfileRef, p, u: Int32 | CleanRef(r) && Clean(p)
      ensures KeyOf(r, p, u) in keys <==> (r, p) in {(ref, p0), (ref, p1)} && Reaches(user, foreground, u)
    {
      assert KeyOf(r, p, u) in keys <==> KeyOf(r, p, u) in own || (user == foreground && KeyOf(r, p, u) in free);
    }
    forall k | !IsWritten(k) ensures k !in keys {
      NotWritten(k, ref, p0, user);
      NotWritten(k, ref, p1, user);
      NotWritten(k, ref, p0, DEFAULT_USER_ID);
      NotWritten(k, ref, p1, DEFAULT_USER_ID);
    }
  }

  /** Writing two properties of one profile for one user. */
  ghost predicate TwoWritten(before: Store, after: Store, ref: ProfileRef, p0: string, v0: string, p1: string,
                             v1: string, user: Int32)
  {
    after == before[KeyOf(ref, p0, user) := v0][KeyOf(ref, p1, user) := v1]
  }

  lemma TwoWrittenAt(before: Store, after: Store, ref: ProfileRef, p0: string, v0: string, p1: string, v1: string,
                     user: Int32, r: ProfileRef, p: string, u: Int32)
    requires TwoWritten(before, after, ref, p0, v0, p1, v1, user)
    requires CleanRef(ref) && Clean(p0) && Clean(p1) && p0 != p1 && CleanRef(r) && Clean(p)
    ensures var k := KeyOf(r, p, u);
            if r == ref && u == user && p == p0 then k in after && after[k] == v0
            else if r == ref && u == user && p == p1 then k in after && after[k] == v1
            else SameAt(before, after, k)
  {
    hide KeyOf;
    if KeyOf(r, p, u) == KeyOf(ref, p0, user) {
      KeyInjective(r, p, u, ref, p0, user);
    }
    if KeyOf(r, p, u) == KeyOf(ref, p1, user) {
      KeyInjective(r, p, u, ref, p1, user);
    }
  }

  /** A put writes the entries of its user, and the untagged ones too when that user is in the foreground. */
  lemma TwoPutTo(store: Store, once: Store, twice: Store, ref: ProfileRef, p0: string, v0: string, p1: string,
                 v1: string, user: Int32, foreground: Int32)
    requires CleanRef(ref) && Clean(p0) && Clean(p1) && p0 != p1
    requires TwoWritten(store, once, ref, p0, v0, p1, v1, user)
    requires if user == foreground then TwoWritten(once, twice, ref, p0, v0, p1, v1, DEFAULT_USER_ID) else twice == once
    ensures PutTo(store, twice, map[(ref, p0) := v0, (ref, p1) := v1], user, foreground)
  {
    hide KeyOf, TwoWritten, CleanRef;
    var values: map<Property, string> := map[(ref, p0) := v0, (ref, p1) := v1];
    forall r: ProfileRef, p, u: Int32 | CleanRef(r) && Clean(p)
      ensures var k := KeyOf(r, p, u);
              if (r, p) in values && Reaches(user, foreground, u) then k in twice && twice[k] == values[(r, p)]
              else SameAt(store, twice, k)
    {
      TwoWrittenAt(store, once, ref, p0, v0, p1, v1, user, r, p, u);
      if user == foreground {
        TwoWrittenAt(once, twice, ref, p0, v0, p1, v1, DEFAULT_USER_ID, r, p, u);
      }
    }
    forall k | !IsWritten(k) ensures SameAt(store, twice, k) {
      NotWritten(k, ref, p0, user);
      NotWritten(k, ref, p1, user);
      NotWritten(k, ref, p0, DEFAULT_USER_ID);
      NotWritten(k, ref, p1, DEFAULT_USER_ID);
      TwoWrittenElsewhere(store, once, ref, p0, v0, p1, v1, user, k);
      if user == foreground {
        TwoWrittenElsewhere(once, twice, ref, p0, v0, p1, v1, DEFAULT_USER_ID, k);
      }
    }
  }

  lemma NotWritten(k: string, ref: ProfileRef, p: string, u: Int32)
    requires !IsWritten(k) && CleanRef(ref) && Clean(p)
    ensures k != KeyOf(ref, p, u)
  {
    hide KeyOf, CleanRef;
    assert !Written(k, ref, p, u);
  }

  lemma TwoWrittenElsewhere(before: Store, after: Store, ref: ProfileRef, p0: string, v0: string, p1: string,
                            v1: string, user: Int32, k: string)
    requires TwoWritten(before, after, ref, p0, v0, p1, v1, user) && k != KeyOf(ref, p0, user)
             && k != KeyOf(ref, p1, user)
    ensures SameAt(before, after, k)
  {
    hide KeyOf;
  }

  lemma ServicePutTo(p: ServiceProfile, isMultiUser: bool, foreground: Int32, localUdid: string, store: Store)
    requires ServiceValid(p, localUdid)
    ensures var user := if isMultiUser then p.userId else -1;
            var once := ServiceProfileToEntries(p, map[], isMultiUser);
            var all := if isMultiUser && foreground == p.userId then ServiceProfileToEntries(p, once, false) else once;
            PutTo(store, store + all, ServiceValues(p), user, foreground)
  {
    hide KeyOf, CheckAndAddOhSuffix, IsKeyValid, PutTo;
    ValidKeyIsClean(p.deviceId);
    ValidKeyIsClean(p.serviceName);
    OhSuffixKeepsClean(p.serviceName);
    assert SERVICE_NAME[7] != SERVICE_TYPE[7];
    var ref, user := ServiceRef(p.deviceId, p.serviceName), if isMultiUser then p.userId else -1;
    var once := ServiceProfileToEntries(p, map[], isMultiUser);
    var twice := ServiceProfileToEntries(p, once, false);
    OverTwo(store, map[], ref, SERVICE_NAME, p.serviceName, SERVICE_TYPE, p.serviceType, user);
    OverTwo(store, once, ref, SERVICE_NAME, p.serviceName, SERVICE_TYPE, p.serviceType, DEFAULT_USER_ID);
    assert store + map[] == store;
    if user == foreground && !isMultiUser {
      RewriteSame(store, store + once, ref, SERVICE_NAME, p.serviceName, SERVICE_TYPE, p.serviceType);
    }
    TwoPutTo(store, store + once, store + (if isMultiUser && foreground == p.userId then twice else once), ref,
             SERVICE_NAME, p.serviceName, SERVICE_TYPE, p.serviceType, user, foreground);
  }

  lemma CharPutTo(p: CharacteristicProfile, isMultiUser: bool, foreground: Int32, localUdid: string, store: Store)
    requires CharValid(p, localUdid)
    ensures var user := if isMultiUser then p.userId else -1;
            var once := CharacteristicProfileToEntries(p, map[], isMultiUser);
            var all := if isMultiUser && foreground == p.userId
                then CharacteristicProfileToEntries(p, once, false) else once;
            PutTo(store, store + all, CharValues(p), user, foreground)
  {
    hide KeyOf, CheckAndAddOhSuffix, IsKeyValid, PutTo;
    ValidKeyIsClean(p.deviceId);
    ValidKeyIsClean(p.serviceName);
    ValidKeyIsClean(p.charKey);
    OhSuffixKeepsClean(p.serviceName);
    assert |CHARACTERISTIC_KEY| != |CHARACTERISTIC_VALUE|;
    var ref, user := CharRef(p.deviceId, p.serviceName, p.charKey), if isMultiUser then p.userId else -1;
    var once := CharacteristicProfileToEntries(p, map[], isMultiUser);
    var twice := CharacteristicProfileToEntries(p, once, false);
    OverTwo(store, map[], ref, CHARACTERISTIC_KEY, p.charKey, CHARACTERISTIC_VALUE, p.charValue, user);
    OverTwo(store, once, ref, CHARACTERISTIC_KEY, p.charKey, CHARACTERISTIC_VALUE, p.charValue, DEFAULT_USER_ID);
    assert store + map[] == store;
    if user == foreground && !isMultiUser {
      RewriteSame(store, store + once, ref, CHARACTERISTIC_KEY, p.charKey, CHARACTERISTIC_VALUE, p.charValue);
    }
    TwoPutTo(store, store + once, store + (if isMultiUser && foreground == p.userId then twice else once), ref,
             CHARACTERISTIC_KEY, p.charKey, CHARACTERISTIC_VALUE, p.charValue, user, foreground);
  }

  lemma OverTwo(store: Store, into: Store, ref: ProfileRef, p0: string, v0: string, p1: string, v1: string, user: Int32)
    ensures TwoWritten(store + into, store + into[KeyOf(ref, p0, user) := v0][KeyOf(ref, p1, user) := v1],
                       ref, p0, v0, p1, v1, user)
  {
    hide KeyOf;
  }

  lemma RewriteSame(before: Store, after: Store, ref: ProfileRef, p0: string, v0: string, p1: string, v1: string)
    requires CleanRef(ref) && Clean(p0) && Clean(p1) && p0 != p1
    requires TwoWritten(before, after, ref, p0, v0, p1, v1, DEFAULT_USER_ID)
    ensures TwoWritten(after, after, ref, p0, v0, p1, v1, DEFAULT_USER_ID)
  {
    hide KeyOf;
    var k0, k1 := KeyOf(ref, p0, DEFAULT_USER_ID), KeyOf(ref, p1, DEFAULT_USER_ID);
    if k0 == k1 {
      KeyInjective(ref, p0, DEFAULT_USER_ID, ref, p1, DEFAULT_USER_ID);
    }
    assert after[k0 := v0] == after && after[k1 := v1] == after;
  }
}
