/** The '#'-separated keys under which profiles are stored: how they are written, how they
    are taken apart by position, and how an owning user is attached to them. */
module DbKeys {
  import opened Text

  const DEV_PREFIX := "dev"
  const SVR_PREFIX := "svr"
  const CHAR_PREFIX := "char"
  const OH_PROFILE_SUFFIX := "_OH"
  const MAX_STRING_LEN: nat := 4096
  const DEFAULT_USER_ID: Int32 := -1
  const NEED_ADD_OH_SUFFIX_SVR_NAMES := {"DistributeModemService", "multiScreenAssistantService", "appInfo"}

  /** What a profile is about: a device, a service of it, or a characteristic of a service. */
  datatype ProfileRef =
    | Dev(device: string)
    | Svr(device: string, service: string)
    | Chr(device: string, service: string, charKey: string)

  predicate Clean(s: string) {
    '#' !in s
  }

  predicate CleanRef(r: ProfileRef) {
    match r
    case Dev(d) => Clean(d)
    case Svr(d, s) => Clean(d) && Clean(s)
    case Chr(d, s, c) => Clean(d) && Clean(s) && Clean(c)
  }

  predicate IsKeyValid(key: string) {
    0 < |key| <= MAX_STRING_LEN && Find(key, SEPARATOR) < 0
  }

  lemma ValidKeyIsClean(key: string)
    ensures IsKeyValid(key) <==> 0 < |key| <= MAX_STRING_LEN && Clean(key)
  {
    assert forall j: nat | j < |key| :: OccursAt(key, SEPARATOR, j) <==> key[j] == '#';
  }

  // ---------------------------------------------------------------- writing keys

  function GenerateDeviceProfileKey(deviceId: string): string {
    DEV_PREFIX + SEPARATOR + deviceId
  }

  function GenerateServiceProfileKey(deviceId: string, serviceName: string): string {
    SVR_PREFIX + SEPARATOR + deviceId + SEPARATOR + serviceName
  }

  function GenerateCharProfileKey(deviceId: string, serviceName: string, charKey: string): string {
    CHAR_PREFIX + SEPARATOR + deviceId + SEPARATOR + serviceName + SEPARATOR + charKey
  }

  function ProfileKey(r: ProfileRef): string {
    match r
    case Dev(d) => GenerateDeviceProfileKey(d)
    case Svr(d, s) => GenerateServiceProfileKey(d, s)
    case Chr(d, s, c) => GenerateCharProfileKey(d, s, c)
  }

  function GenerateDBKey(profileKey: string, property: string, userId: Int32): string {
    if userId != DEFAULT_USER_ID
    then profileKey + SEPARATOR + property + SEPARATOR + ToString(userId)
    else profileKey + SEPARATOR + property
  }

  function KeyOf(r: ProfileRef, property: string, userId: Int32): string {
    GenerateDBKey(ProfileKey(r), property, userId)
  }

  // ---------------------------------------------------------------- reading keys

  /** Index of the property segment, which also fixes where a user id may follow. */
  function PropertyIndex(prefix: string): nat {
    if prefix == DEV_PREFIX then 2 else if prefix == SVR_PREFIX then 3 else 4
  }

  predicate KnownPrefix(prefix: string) {
    prefix == DEV_PREFIX || prefix == SVR_PREFIX || prefix == CHAR_PREFIX
  }

  predicate HasUserTag(segments: seq<string>) {
    |segments| >= 3 && KnownPrefix(segments[0]) &&
    var at := PropertyIndex(segments[0]) + 1;
    |segments| > at && IsNumStr(segments[at])
  }

  function GetUserIdFromDbKey(dbKey: string): Int32 {
    if dbKey == "" then DEFAULT_USER_ID
    else
      var splitKeys := Split(dbKey);
      if |splitKeys| < 3 then DEFAULT_USER_ID
      else if splitKeys[0] == DEV_PREFIX && |splitKeys| > 3 && IsNumStr(splitKeys[3]) then Atoi(splitKeys[3])
      else if splitKeys[0] == SVR_PREFIX && |splitKeys| > 4 && IsNumStr(splitKeys[4]) then Atoi(splitKeys[4])
      else if splitKeys[0] == CHAR_PREFIX && |splitKeys| > 5 && IsNumStr(splitKeys[5]) then Atoi(splitKeys[5])
      else DEFAULT_USER_ID
  }

  function GetProfileProperty(dbKey: string, userId: Int32): string {
    if |dbKey| == 0 || |dbKey| > MAX_STRING_LEN then ""
    else
      var keyUser := GetUserIdFromDbKey(dbKey);
      var splitKeys := Split(dbKey);
      if |splitKeys| < 3 then ""
      else if splitKeys[0] == DEV_PREFIX then
        if userId != DEFAULT_USER_ID && keyUser == DEFAULT_USER_ID then splitKeys[2]
        else if userId == keyUser then splitKeys[2] else ""
      else if splitKeys[0] == SVR_PREFIX && |splitKeys| >= 4 then
        if userId != DEFAULT_USER_ID && keyUser == DEFAULT_USER_ID then splitKeys[3]
        else if userId == keyUser then splitKeys[3] else ""
      else if splitKeys[0] == CHAR_PREFIX && |splitKeys| >= 5 then
        if userId != DEFAULT_USER_ID && keyUser == DEFAULT_USER_ID then splitKeys[4]
        else if userId == keyUser then splitKeys[4] else ""
      else ""
  }

  function SegmentByDBKey(dbKey: string, index: nat): string {
    if |dbKey| == 0 || |dbKey| > MAX_STRING_LEN then ""
    else
      var res := Split(dbKey);
      if |res| <= index then "" else res[index]
  }

  function GetDeviceIdByDBKey(dbKey: string): string {
    SegmentByDBKey(dbKey, 1)
  }

  function GetServiceNameByDBKey(dbKey: string): string {
    SegmentByDBKey(dbKey, 2)
  }

  function StripUserTag(segments: seq<string>): seq<string> {
    if HasUserTag(segments)
    then var at := PropertyIndex(segments[0]) + 1; segments[..at] + segments[at + 1..]
    else segments
  }

  /** Drops the user id; a key written for a user becomes the same key written for no user. */
  method RemoveUserIdFromDbKey(dbKey: string) returns (r: string)
    ensures r == WithoutUser(dbKey)
    ensures forall ref, property, userId: Int32 ::
              CleanRef(ref) && Clean(property) && dbKey == KeyOf(ref, property, userId)
              ==> r == KeyOf(ref, property, DEFAULT_USER_ID)
  {
    hide KeyOf, CleanRef, Pieces, Join, IsNumStr;
    UntaggedAlways(dbKey);
    var code, splitKeys := SplitString(dbKey, SEPARATOR, []);
    if code != DP_SUCCESS || |splitKeys| < 3 {
      return "";
    }
    assert splitKeys == Split(dbKey);
    if splitKeys[0] == DEV_PREFIX && |splitKeys| > 3 && IsNumStr(splitKeys[3]) {
      splitKeys := splitKeys[..3] + splitKeys[4..];
    }
    if splitKeys[0] == SVR_PREFIX && |splitKeys| > 4 && IsNumStr(splitKeys[4]) {
      splitKeys := splitKeys[..4] + splitKeys[5..];
    }
    if splitKeys[0] == CHAR_PREFIX && |splitKeys| > 5 && IsNumStr(splitKeys[5]) {
      splitKeys := splitKeys[..5] + splitKeys[6..];
    }
    assert splitKeys == StripUserTag(Split(dbKey));
    r := JoinString(splitKeys, SEPARATOR);
  }

  lemma UntaggedAlways(dbKey: string)
    ensures forall ref, property, userId: Int32 ::
              CleanRef(ref) && Clean(property) && dbKey == KeyOf(ref, property, userId)
              ==> WithoutUser(dbKey) == KeyOf(ref, property, DEFAULT_USER_ID)
  {
    hide KeyOf, CleanRef, WithoutUser;
    forall ref, property, userId: Int32 |
      CleanRef(ref) && Clean(property) && dbKey == KeyOf(ref, property, userId)
      ensures WithoutUser(dbKey) == KeyOf(ref, property, DEFAULT_USER_ID)
    {
      UserRemoved(ref, property, userId);
    }
  }

  function WithoutUser(dbKey: string): string {
    if dbKey == "" || |Split(dbKey)| < 3 then "" else Join(StripUserTag(Split(dbKey)), SEPARATOR)
  }

  // ---------------------------------------------------------------- what reading undoes

  function Path(r: ProfileRef): seq<string> {
    match r
    case Dev(d) => [DEV_PREFIX, d]
    case Svr(d, s) => [SVR_PREFIX, d, s]
    case Chr(d, s, c) => [CHAR_PREFIX, d, s, c]
  }

  function UserTag(userId: Int32): seq<string> {
    if userId == DEFAULT_USER_ID then [] else [ToString(userId)]
  }

  lemma ProfileKeyIsJoin(r: ProfileRef)
    ensures ProfileKey(r) == Join(Path(r), SEPARATOR)
  {
    match r
    case Dev(d) =>
      JoinSnoc([DEV_PREFIX], d, SEPARATOR);
    case Svr(d, s) =>
      JoinSnoc([SVR_PREFIX], d, SEPARATOR);
      JoinSnoc([SVR_PREFIX, d], s, SEPARATOR);
      assert [SVR_PREFIX] + [d] == [SVR_PREFIX, d] && [SVR_PREFIX, d] + [s] == Path(r);
    case Chr(d, s, c) =>
      JoinSnoc([CHAR_PREFIX], d, SEPARATOR);
      JoinSnoc([CHAR_PREFIX, d], s, SEPARATOR);
      JoinSnoc([CHAR_PREFIX, d, s], c, SEPARATOR);
      assert [CHAR_PREFIX] + [d] == [CHAR_PREFIX, d] && [CHAR_PREFIX, d] + [s] == [CHAR_PREFIX, d, s];
      assert [CHAR_PREFIX, d, s] + [c] == Path(r);
  }

  /** A written key splits into exactly its path, its property and its user tag. */
  lemma KeySegments(r: ProfileRef, property: string, userId: Int32)
    requires CleanRef(r) && Clean(property)
    ensures Split(KeyOf(r, property, userId)) == Path(r) + [property] + UserTag(userId)
  {
    var path := Path(r);
    var segments := path + [property] + UserTag(userId);
    AtoiToString(userId);
    ProfileKeyIsJoin(r);
    JoinSnoc(path, property, SEPARATOR);
    if userId == DEFAULT_USER_ID {
      assert segments == path + [property];
    } else {
      JoinSnoc(path + [property], ToString(userId), SEPARATOR);
    }
    assert KeyOf(r, property, userId) == Join(segments, SEPARATOR);
    forall p | p in segments ensures '#' !in p {
      assert p in path || p == property || p in UserTag(userId);
    }
    SplitJoin(segments, '#');
  }

  /** The user a key was written for is read back, for every 32-bit user and however numeric the segments look. */
  lemma UserRecovered(r: ProfileRef, property: string, userId: Int32)
    requires CleanRef(r) && Clean(property)
    ensures GetUserIdFromDbKey(KeyOf(r, property, userId)) == userId
  {
    KeySegments(r, property, userId);
    AtoiToString(userId);
  }

  /** The user of any string at all: the numeral right after the property of a known kind of key, else none. */
  lemma UserIsTag(dbKey: string)
    ensures GetUserIdFromDbKey(dbKey)
         == if dbKey != "" && HasUserTag(Split(dbKey)) then Atoi(Split(dbKey)[PropertyIndex(Split(dbKey)[0]) + 1])
            else DEFAULT_USER_ID
  {
    hide Split, Atoi, IsNumStr;
  }

  /** A reader sees the property of its own keys and of keys without a user, and of no others; a key beyond the length
      limit names none. */
  lemma PropertyRecovered(r: ProfileRef, property: string, userId: Int32, reader: Int32)
    requires CleanRef(r) && Clean(property)
    ensures GetProfileProperty(KeyOf(r, property, userId), reader)
         == if |KeyOf(r, property, userId)| <= MAX_STRING_LEN && (userId == reader || userId == DEFAULT_USER_ID)
            then property else ""
  {
    KeySegments(r, property, userId);
    UserRecovered(r, property, userId);
  }

  lemma UserRemoved(r: ProfileRef, property: string, userId: Int32)
    requires CleanRef(r) && Clean(property)
    ensures WithoutUser(KeyOf(r, property, userId)) == KeyOf(r, property, DEFAULT_USER_ID)
  {
    KeySegments(r, property, userId);
    KeySegments(r, property, DEFAULT_USER_ID);
    AtoiToString(userId);
    var segments := Split(KeyOf(r, property, userId));
    assert StripUserTag(segments) == Path(r) + [property];
    JoinSplit(KeyOf(r, property, DEFAULT_USER_ID), '#');
  }

  /** Different profiles, properties or users never share a key. */
  lemma KeyInjective(r: ProfileRef, p: string, u: Int32, r': ProfileRef, p': string, u': Int32)
    requires CleanRef(r) && Clean(p) && CleanRef(r') && Clean(p')
    requires KeyOf(r, p, u) == KeyOf(r', p', u')
    ensures r == r' && p == p' && u == u'
  {
    KeySegments(r, p, u);
    KeySegments(r', p', u');
    UserRecovered(r, p, u);
    UserRecovered(r', p', u');
    var s, s' := Path(r) + [p] + UserTag(u), Path(r') + [p'] + UserTag(u');
    assert s[0] == s'[0] && s[1] == s'[1] && s[2] == s'[2];
    if !r.Dev? {
      assert s[3] == s'[3];
      if r.Chr? {
        assert s[4] == s'[4];
      }
    }
  }

  // ---------------------------------------------------------------- the _OH suffix

  predicate IsNeedAddOhSuffix(serviceName: string) {
    0 < |serviceName| <= MAX_STRING_LEN && serviceName in NEED_ADD_OH_SUFFIX_SVR_NAMES
  }

  function CheckAndAddOhSuffix(serviceName: string): string {
    if IsNeedAddOhSuffix(serviceName) then serviceName + OH_PROFILE_SUFFIX else serviceName
  }

  function CheckAndRemoveOhSuffix(serviceName: string): string {
    if EndsWith(serviceName, OH_PROFILE_SUFFIX) then serviceName[..|serviceName| - 3] else serviceName
  }

  lemma OhSuffixKeepsClean(s: string)
    ensures Clean(CheckAndAddOhSuffix(s)) <==> Clean(s)
  {
  }

  /** Removing takes off one "_OH" that ends the name, listed or not, and nothing else. */
  lemma OhSuffixRemoved(s: string)
    ensures CheckAndRemoveOhSuffix(s + "_OH") == s
    ensures CheckAndRemoveOhSuffix(s) == s || s == CheckAndRemoveOhSuffix(s) + "_OH"
  {
    assert (s + "_OH")[|s|..] == "_OH" && (s + "_OH")[..|s|] == s;
  }

  /** Removing after adding is the identity exactly on names that do not end in "_OH". */
  lemma OhSuffixRoundTrip(s: string)
    ensures CheckAndRemoveOhSuffix(CheckAndAddOhSuffix(s)) == CheckAndRemoveOhSuffix(s)
    ensures CheckAndRemoveOhSuffix(CheckAndAddOhSuffix(s)) == s <==> !EndsWith(s, OH_PROFILE_SUFFIX)
  {
    if IsNeedAddOhSuffix(s) {
      assert CheckAndAddOhSuffix(s)[..|s|] == s;
      assert CheckAndAddOhSuffix(s)[|s|..] == OH_PROFILE_SUFFIX;
      assert s[|s| - 1] != 'H';
    }
  }

  /** Two services share a stored name exactly when they are equal or one is a listed name and the other its "_OH"
      form. */
  lemma OhSuffixCollision(s: string, t: string)
    ensures CheckAndAddOhSuffix(s) == CheckAndAddOhSuffix(t) <==>
            s == t || (IsNeedAddOhSuffix(s) && t == s + "_OH") || (IsNeedAddOhSuffix(t) && s == t + "_OH")
  {
    if IsNeedAddOhSuffix(s) && IsNeedAddOhSuffix(t) {
      assert (s + "_OH")[..|s|] == s && (t + "_OH")[..|t|] == t;
      assert s[|s| - 1] != 'H' && t[|t| - 1] != 'H';
    }
  }
}
