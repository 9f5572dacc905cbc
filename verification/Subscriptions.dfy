/** The client's mirror of its subscriptions, and how it is sent again to a restarted service:
    only the records travel, and the service rebuilds the table keys from them. */
module Subscriptions {
  import opened Text
  import opened Parcels

  const PROFILE_CHANGE_TYPE_MIN := 0
  const PROFILE_CHANGE_TYPE_MAX := 21
  const MAX_SUBSCRIBE_CHANGE_SIZE: nat := 20
  const MAX_LISTENER_SIZE: nat := 100
  const MAX_SUBSCRIBE_INFO_SIZE: nat := 500
  const DP_GET_SERVICE_FAILED: Int32 := 98566147
  const DP_EXCEED_MAX_SIZE_FAIL: Int32 := 98566201

  /** The values an enumeration running from 0 to 21 can hold. */
  type ChangeType = x: int | 0 <= x < 32

  predicate IsChangeType(t: int) {
    PROFILE_CHANGE_TYPE_MIN < t < PROFILE_CHANGE_TYPE_MAX
  }

  datatype SubscribeInfo =
    SubscribeInfo(saId: Int32, subscribeKey: string, types: set<ChangeType>, listener: Option<nat>)
  {
    function AddProfileChangeType(t: ChangeType): SubscribeInfo {
      if !IsChangeType(t) || |types| > MAX_SUBSCRIBE_CHANGE_SIZE then this else this.(types := types + {t})
    }

    predicate ValidTypes() {
      forall t :: t in types ==> IsChangeType(t)
    }

    predicate Sendable() {
      listener.Some? && ValidTypes()
    }
  }

  const BLANK := SubscribeInfo(-1, "", {}, None)

  /** The key a record is filed under, on both sides. */
  function TagOf(subscribeKey: string, saId: Int32): string {
    subscribeKey + SEPARATOR + ToString(saId)
  }

  function Tag(info: SubscribeInfo): string {
    TagOf(info.subscribeKey, info.saId)
  }

  lemma LastSeparator(k: string, d: string, k': string, d': string)
    requires '#' !in d && '#' !in d' && k + "#" + d == k' + "#" + d'
    ensures k == k' && d == d'
  {
    var t := k + "#" + d;
    assert t[|k|] == '#' && t[|k'|] == '#';
    assert forall i | |k| < i < |t| :: t[i] == d[i - |k| - 1];
    assert forall i | |k'| < i < |t| :: t[i] == d'[i - |k'| - 1];
    assert |k| == |k'|;
    assert t[..|k|] == k && t[..|k|] == k' && t[|k| + 1..] == d && t[|k| + 1..] == d';
  }

  /** The tag determines both the subscription key, '#' included, and the subscriber. */
  lemma TagInjective(k: string, sa: Int32, k': string, sa': Int32)
    requires TagOf(k, sa) == TagOf(k', sa')
    ensures k == k' && sa == sa'
  {
    hide ToString, Atoi, IsNumStr;
    AtoiToString(sa);
    AtoiToString(sa');
    LastSeparator(k, ToString(sa), k', ToString(sa'));
  }

  /** Types added one at a time are always valid, so the size check never rejects one. */
  lemma {:induction false} AddedTypesValid(info: SubscribeInfo, adds: seq<ChangeType>)
    requires info.ValidTypes()
    ensures var r := AddAll(info, adds);
            r.ValidTypes() && r == info.(types := info.types + set t | t in adds && 1 <= t <= 20)
    decreases |adds|
  {
    if adds != [] {
      AtMostTwenty(info.types);
      AddedTypesValid(info.AddProfileChangeType(adds[0]), adds[1..]);
      assert adds == [adds[0]] + adds[1..];
    }
  }

  /** A record can be sent and rebuilt when it has a listener and only types from 1 to 20. */
  lemma SendableExactly(info: SubscribeInfo)
    ensures info.Sendable() <==> info.listener.Some? && forall t :: t in info.types ==> 1 <= t <= 20
  {
  }

  function AddAll(info: SubscribeInfo, adds: seq<ChangeType>): SubscribeInfo
    decreases |adds|
  {
    if adds == [] then info else AddAll(info.AddProfileChangeType(adds[0]), adds[1..])
  }

  lemma AtMostTwenty(types: set<ChangeType>)
    requires forall t :: t in types ==> IsChangeType(t)
    ensures |types| <= MAX_SUBSCRIBE_CHANGE_SIZE
  {
    BoundedCard(types, PROFILE_CHANGE_TYPE_MAX - 1);
  }

  lemma {:induction false} BoundedCard(types: set<ChangeType>, n: nat)
    requires forall t :: t in types ==> 1 <= t <= n
    ensures |types| <= n
  {
    if n == 0 {
      assert types == {};
    } else if n < 32 {
      BoundedCard(types - {n}, n - 1);
    } else {
      BoundedCard(types, n - 1);
    }
  }

  // ---------------------------------------------------------------- change types

  /** The items of an unordered set, in whatever order it yields them. */
  ghost predicate ListsTypes(items: seq<Cell>, types: set<ChangeType>) {
    && |items| == |types|
    && (forall i | 0 <= i < |items| :: items[i].Word? && items[i].word in types)
    && (forall t :: t in types ==> Word(t) in items)
  }

  ghost predicate EncodesTypes(cells: seq<Cell>, types: set<ChangeType>) {
    && cells != [] && cells[0] == ToWord(|types|)
    && if 0 < |types| <= MAX_SUBSCRIBE_CHANGE_SIZE then ListsTypes(cells[1..], types) else cells[1..] == []
  }

  function DecodeTypeItems(cells: seq<Cell>, pos: nat, n: nat, into: set<ChangeType>): Decoded<set<ChangeType>>
    decreases n
  {
    if n == 0 then Decoded(true, pos, into)
    else
      var (num, p) := WordAt(cells, pos);
      if !IsChangeType(num) then Decoded(false, p, into) else DecodeTypeItems(cells, p, n - 1, into + {num})
  }

  function DecodeTypes(cells: seq<Cell>, pos: nat, into: set<ChangeType>): Decoded<set<ChangeType>> {
    var (size, p) := WordAt(cells, pos);
    if size == 0 || size > MAX_SUBSCRIBE_CHANGE_SIZE then Decoded(false, p, into)
    else DecodeTypeItems(cells, p, size, into)
  }

  method MarshalTypes(parcel: MessageParcel, types: set<ChangeType>) returns (ok: bool, ghost written: seq<Cell>)
    modifies parcel`cells
    ensures parcel.cells == old(parcel.cells) + written && EncodesTypes(written, types)
    ensures ok <==> 0 < |types| <= 20
  {
    hide ToWord, ListsTypes;
    assert ListsTypes([], {}) by { NoTypes(); }
    parcel.Write(ToWord(|types|));
    written := [ToWord(|types|)];
    if |types| == 0 || |types| > MAX_SUBSCRIBE_CHANGE_SIZE {
      return false, written;
    }
    var rest := types;
    ghost var items: seq<Cell> := [];
    assert types - rest == {};
    while rest != {}
      invariant rest <= types && parcel.cells == old(parcel.cells) + written
      invariant written == [ToWord(|types|)] + items
      invariant ListsTypes(items, types - rest)
      decreases rest
    {
      var t :| t in rest;
      SmallWord(t);
      parcel.Write(ToWord(t));
      ListsMore(items, types - rest, t);
      assert types - (rest - {t}) == (types - rest) + {t};
      items, written := items + [Word(t)], written + [Word(t)];
      rest := rest - {t};
    }
    assert types - rest == types && written[1..] == items;
    ok := true;
  }

  lemma NoTypes()
    ensures ListsTypes([], {})
  {
  }

  lemma ListsMore(items: seq<Cell>, types: set<ChangeType>, t: ChangeType)
    requires ListsTypes(items, types) && t !in types
    ensures ListsTypes(items + [Word(t)], types + {t})
  {
  }

  method UnMarshalTypes(parcel: MessageParcel, into: set<ChangeType>) returns (ok: bool, types: set<ChangeType>)
    modifies parcel`pos
    ensures Decoded(ok, parcel.pos, types) == DecodeTypes(parcel.cells, old(parcel.pos), into)
  {
    types := into;
    var size := parcel.ReadUint32();
    if size == 0 || size > MAX_SUBSCRIBE_CHANGE_SIZE {
      return false, types;
    }
    var left: nat := size;
    while left > 0
      invariant DecodeTypeItems(parcel.cells, parcel.pos, left, types)
          == DecodeTypes(parcel.cells, old(parcel.pos), into)
    {
      var num := parcel.ReadUint32();
      if !IsChangeType(num) {
        return false, types;
      }
      types := types + {num};
      left := left - 1;
    }
    ok := true;
  }

  /** Valid items are all read; the first invalid one stops the reading inside the items. */
  lemma {:induction false} TypeItemsDecoded(cells: seq<Cell>, pos: nat, items: seq<Cell>, into: set<ChangeType>)
    requires Holds(cells, pos, items) && forall i | 0 <= i < |items| :: items[i].Word?
    ensures var d := DecodeTypeItems(cells, pos, |items|, into);
            && pos <= d.pos <= pos + |items|
            && (d.ok <==> forall i | 0 <= i < |items| :: IsChangeType(items[i].word))
            && (d.ok ==> d.pos == pos + |items|)
            && (d.ok ==> forall t: ChangeType ::
                  t in d.value <==> t in into || exists i :: 0 <= i < |items| && items[i].word == t)
            && (forall t :: t in d.value && t !in into ==> IsChangeType(t))
    decreases |items|
  {
    if items != [] {
      HoldsHead(cells, pos, items);
      var num := items[0].word;
      if IsChangeType(num) {
        var rest := items[1..];
        TypeItemsDecoded(cells, pos + 1, rest, into + {num});
        assert forall i | 0 <= i < |rest| :: items[i + 1] == rest[i];
        assert forall i | 0 < i < |items| :: items[i] == rest[i - 1];
      }
    }
  }

  lemma ListedDecoded(cells: seq<Cell>, pos: nat, items: seq<Cell>, types: set<ChangeType>)
    requires ListsTypes(items, types) && Holds(cells, pos, items)
    ensures var d := DecodeTypeItems(cells, pos, |items|, {});
            && |items| == |types| && pos <= d.pos <= pos + |items|
            && (d.value == types <==> forall t :: t in types ==> IsChangeType(t))
            && (d.value == types ==> d.pos == pos + |items|)
  {
    TypeItemsDecoded(cells, pos, items, {});
    var d := DecodeTypeItems(cells, pos, |items|, {});
    if forall t :: t in types ==> IsChangeType(t) {
      forall t: ChangeType ensures t in d.value <==> t in types {
        if t in types {
          var i :| 0 <= i < |items| && items[i] == Word(t);
        }
      }
    }
  }

  lemma TypesDecoded(cells: seq<Cell>, pos: nat, e: seq<Cell>, types: set<ChangeType>)
    requires EncodesTypes(e, types) && Holds(cells, pos, e)
    ensures var d := DecodeTypes(cells, pos, {});
            && pos < d.pos <= pos + |e|
            && (d.value == types <==> forall t :: t in types ==> 1 <= t <= 20)
            && (d.value == types ==> d.pos == pos + |e|)
  {
    assert forall t: ChangeType :: IsChangeType(t) <==> 1 <= t <= 20;
    hide ToWord, ListsTypes, IsChangeType, Holds, DecodeTypeItems;
    HoldsHead(cells, pos, e);
    BoundedCard(types - {0}, 31);
    SmallWord(|types|);
    if 0 < |types| <= MAX_SUBSCRIBE_CHANGE_SIZE {
      ListedDecoded(cells, pos + 1, e[1..], types);
    } else if forall t :: t in types ==> IsChangeType(t) {
      AtMostTwenty(types);
    }
  }

  // ---------------------------------------------------------------- one record

  ghost predicate EncodesInfo(cells: seq<Cell>, info: SubscribeInfo) {
    && info.listener.Some? && |cells| >= 4
    && cells[0] == ToWord(info.saId) && cells[1] == Chars(info.subscribeKey)
    && cells[|cells| - 1] == Remote(info.listener.value)
    && EncodesTypes(cells[2..|cells| - 1], info.types)
  }

  function DecodeInfo(cells: seq<Cell>, pos: nat): Decoded<SubscribeInfo> {
    if pos >= |cells| || !cells[pos].Word? then Decoded(false, pos, BLANK)
    else
      var i0 := BLANK.(saId := SignedOf(cells[pos].word));
      if pos + 1 >= |cells| || !cells[pos + 1].Chars? then Decoded(false, pos + 1, i0)
      else
        var types := DecodeTypes(cells, pos + 2, {});
        var i1 := i0.(subscribeKey := cells[pos + 1].chars, types := types.value);
        if types.pos < |cells| && cells[types.pos].Remote?
        then Decoded(true, types.pos + 1, i1.(listener := Some(cells[types.pos].handle)))
        else Decoded(false, types.pos, i1)
  }

  method MarshalInfo(parcel: MessageParcel, info: SubscribeInfo) returns (ok: bool, ghost written: seq<Cell>)
    modifies parcel`cells
    ensures ok <==> info.listener.Some?
    ensures ok ==> parcel.cells == old(parcel.cells) + written && EncodesInfo(written, info)
  {
    hide ToWord, ListsTypes;
    parcel.Write(ToWord(info.saId));
    parcel.Write(Chars(info.subscribeKey));
    var _, types := MarshalTypes(parcel, info.types);
    written := [];
    if info.listener.None? {
      return false, written;
    }
    parcel.Write(Remote(info.listener.value));
    written := [ToWord(info.saId), Chars(info.subscribeKey)] + types + [Remote(info.listener.value)];
    assert written[2..|written| - 1] == types;
    ok := true;
  }

  method UnMarshalInfo(parcel: MessageParcel) returns (ok: bool, info: SubscribeInfo)
    modifies parcel`pos
    ensures Decoded(ok, parcel.pos, info) == DecodeInfo(parcel.cells, old(parcel.pos))
  {
    info := BLANK;
    var sa := parcel.Read(INT32S.read);
    if sa.None? {
      return false, info;
    }
    info := info.(saId := sa.value);
    var key := parcel.Read(STRINGS.read);
    if key.None? {
      return false, info;
    }
    var _, types := UnMarshalTypes(parcel, {});
    info := info.(subscribeKey := key.value, types := types);
    var listener := parcel.Read((c: Cell) => if c.Remote? then Some(c.handle) else None);
    if listener.None? {
      return false, info;
    }
    info := info.(listener := listener);
    ok := true;
  }

  /** A record arrives intact exactly when its change types are valid; otherwise it fails or arrives with fewer
      types. */
  lemma InfoDecoded(cells: seq<Cell>, pos: nat, e: seq<Cell>, info: SubscribeInfo)
    requires EncodesInfo(e, info) && Holds(cells, pos, e)
    ensures var d := DecodeInfo(cells, pos);
            && Tag(d.value) == Tag(info)
            && (info.ValidTypes() ==> d == Decoded(true, pos + |e|, info))
            && (!info.ValidTypes() ==> d.value.types != info.types)
            && (d.ok ==> d.pos == pos + |e|)
  {
    hide DecodeTypes, EncodesTypes, ToWord, SignedOf, Holds, TagOf;
    var n := |e| - 1;
    var types := e[2..n];
    assert e == [e[0], e[1]] + types + [e[n]];
    HoldsSplit(cells, pos, [e[0], e[1]] + types, [e[n]]);
    HoldsSplit(cells, pos, [e[0], e[1]], types);
    HoldsHead(cells, pos + n, [e[n]]);
    HoldsHead(cells, pos, e);
    HoldsHead(cells, pos + 1, e[1..]);
    TypesPlaced(cells, pos + 2, types, info.types);
    WordRoundTrip(info.saId);
    TypesDecoded(cells, pos + 2, types, info.types);
  }

  lemma TypesPlaced(cells: seq<Cell>, pos: nat, e: seq<Cell>, types: set<ChangeType>)
    requires EncodesTypes(e, types) && Holds(cells, pos, e)
    ensures pos + |e| <= |cells| && forall i | pos <= i < pos + |e| :: cells[i].Word?
  {
    hide EncodesTypes;
    TypesAreWords(e, types);
    assert forall i | pos <= i < pos + |e| :: cells[i] == cells[pos..pos + |e|][i - pos];
  }

  lemma TypesAreWords(e: seq<Cell>, types: set<ChangeType>)
    requires EncodesTypes(e, types)
    ensures forall i | 0 <= i < |e| :: e[i].Word?
  {
    hide ToWord;
    assert forall i | 0 < i < |e| :: e[i] == e[1..][i - 1];
  }

  // ---------------------------------------------------------------- the table

  type Table = map<string, SubscribeInfo>

  ghost predicate Keyed(t: Table) {
    forall k :: k in t ==> k == Tag(t[k])
  }

  /** The records in the order the table is walked. */
  ghost function Infos(t: Table): seq<SubscribeInfo>
    decreases t.Keys
  {
    if t == map[] then []
    else
      var k := Least(t.Keys);
      [t[k]] + Infos(t - {k})
  }

  ghost predicate EncodesInfos(cells: seq<Cell>, infos: seq<SubscribeInfo>)
    decreases |infos|
  {
    if infos == [] then cells == []
    else exists n: nat :: n <= |cells| && EncodesInfo(cells[..n], infos[0]) && EncodesInfos(cells[n..], infos[1..])
  }

  lemma {:induction false} EncodesSnoc(cells: seq<Cell>, infos: seq<SubscribeInfo>, e: seq<Cell>, info: SubscribeInfo)
    requires EncodesInfos(cells, infos) && EncodesInfo(e, info)
    ensures EncodesInfos(cells + e, infos + [info])
    decreases |infos|
  {
    hide EncodesInfo;
    if infos == [] {
      assert (cells + e)[..|e|] == e && (cells + e)[|e|..] == [];
      assert ([info])[1..] == [];
      assert EncodesInfos((cells + e)[|e|..], [info][1..]);
      assert infos + [info] == [info];
    } else {
      var n: nat :| n <= |cells| && EncodesInfo(cells[..n], infos[0]) && EncodesInfos(cells[n..], infos[1..]);
      EncodesSnoc(cells[n..], infos[1..], e, info);
      assert (cells + e)[..n] == cells[..n] && (cells + e)[n..] == cells[n..] + e;
      assert (infos + [info])[1..] == infos[1..] + [info];
    }
  }

  function DecodeInfos(cells: seq<Cell>, pos: nat, n: nat, into: Table): Decoded<Table>
    decreases n
  {
    if n == 0 then Decoded(true, pos, into)
    else
      var d := DecodeInfo(cells, pos);
      if !d.ok then Decoded(false, d.pos, into) else DecodeInfos(cells, d.pos, n - 1, into[Tag(d.value) := d.value])
  }

  function DecodeTable(cells: seq<Cell>, pos: nat, into: Table): Decoded<Table> {
    var (size, p) := WordAt(cells, pos);
    if size == 0 || size > MAX_LISTENER_SIZE then Decoded(false, p, into) else DecodeInfos(cells, p, size, into)
  }

  ghost predicate AllListening(t: Table) {
    forall k :: k in t ==> t[k].listener.Some?
  }

  ghost predicate EncodesTable(cells: seq<Cell>, t: Table) {
    cells != [] && cells[0] == ToWord(|t|) && EncodesInfos(cells[1..], Infos(t))
  }

  method MarshalTable(parcel: MessageParcel, t: Table) returns (ok: bool, ghost written: seq<Cell>)
    modifies parcel`cells
    ensures ok <==> 0 < |t| <= 100 && AllListening(t)
    ensures ok ==> parcel.cells == old(parcel.cells) + written && EncodesTable(written, t)
  {
    hide EncodesInfos, Infos, ToWord;
    parcel.Write(ToWord(|t|));
    written := [ToWord(|t|)];
    if |t| == 0 || |t| > MAX_LISTENER_SIZE {
      return false, written;
    }
    ghost var items;
    ok, items := MarshalInfos(parcel, t);
    written := written + items;
    assert written[1..] == items;
  }

  method MarshalInfos(parcel: MessageParcel, t: Table) returns (ok: bool, ghost items: seq<Cell>)
    modifies parcel`cells
    ensures ok <==> AllListening(t)
    ensures ok ==> parcel.cells == old(parcel.cells) + items && EncodesInfos(items, Infos(t))
  {
    hide EncodesInfo, EncodesInfos, IsLeast, Infos;
    var left := t;
    ghost var done: seq<SubscribeInfo>;
    items, done := [], [];
    NothingEncoded();
    while left != map[]
      invariant parcel.cells == old(parcel.cells) + items
      invariant EncodesInfos(items, done) && done + Infos(left) == Infos(t)
      invariant forall k :: k in left ==> k in t && left[k] == t[k]
      invariant forall k :: k in t && k !in left ==> t[k].listener.Some?
      decreases left.Keys
    {
      InfosHead(left);
      var k := NextKey(left.Keys);
      ghost var e;
      ok, e := MarshalInfo(parcel, left[k]);
      if !ok {
        return false, items;
      }
      EncodesSnoc(items, done, e, left[k]);
      items, done := items + e, done + [left[k]];
      left := left - {k};
    }
    assert done == Infos(t);
    ok := true;
  }

  lemma NothingEncoded()
    ensures EncodesInfos([], []) && Infos(map[]) == []
  {
  }

  method UnMarshalTable(parcel: MessageParcel, into: Table) returns (ok: bool, t: Table)
    modifies parcel`pos
    ensures Decoded(ok, parcel.pos, t) == DecodeTable(parcel.cells, old(parcel.pos), into)
  {
    hide DecodeInfo, Tag;
    t := into;
    var size := parcel.ReadUint32();
    if size == 0 || size > MAX_LISTENER_SIZE {
      return false, t;
    }
    var left: nat := size;
    while left > 0
      invariant DecodeInfos(parcel.cells, parcel.pos, left, t) == DecodeTable(parcel.cells, old(parcel.pos), into)
    {
      var good, info := UnMarshalInfo(parcel);
      if !good {
        return false, t;
      }
      t := t[Tag(info) := info];
      left := left - 1;
    }
    ok := true;
  }

  /** A table of none or of more than 100 records, or a set of none or of more than 20 types, is refused unread. */
  lemma TableSizesRefused(cells: seq<Cell>, pos: nat, t: Table, types: set<ChangeType>)
    requires pos < |cells| && cells[pos].Word?
    ensures cells[pos].word == 0 || cells[pos].word > 100 ==> DecodeTable(cells, pos, t) == Decoded(false, pos + 1, t)
    ensures cells[pos].word == 0 || cells[pos].word > 20 ==>
              DecodeTypes(cells, pos, types) == Decoded(false, pos + 1, types)
  {
  }

  ghost predicate AllValid(t: Table) {
    forall k :: k in t ==> t[k].ValidTypes()
  }

  /** No invalid record of `t` is filed as sent, and what was there under other keys stays. */
  ghost predicate Rebuilt(v: Table, into: Table, t: Table) {
    && (forall k :: k in t && !t[k].ValidTypes() ==> k in v && v[k] != t[k])
    && (forall k :: k in into && k !in t ==> k in v && v[k] == into[k])
  }

  lemma RebuiltStep(v: Table, into: Table, t: Table, k: string, filed: SubscribeInfo)
    requires k in t && Rebuilt(v, into[k := filed], t - {k}) && (t[k].ValidTypes() || filed != t[k])
    ensures Rebuilt(v, into, t)
  {
    hide SubscribeInfo.ValidTypes;
    assert k in into[k := filed] && k !in t - {k};
    assert forall j :: j in t && j != k ==> j in t - {k} && (t - {k})[j] == t[j];
    assert forall j :: j in into && j != k ==> j in into[k := filed] && into[k := filed][j] == into[j];
  }

  lemma InfosHead(t: Table)
    requires t != map[]
    ensures var k := Least(t.Keys);
            && k in t && Infos(t) == [t[k]] + Infos(t - {k})
            && (t - {k}).Keys == t.Keys - {k} && |t - {k}| == |t| - 1
  {
    hide IsLeast;
    var k := Least(t.Keys);
    assert (t - {k}).Keys == t.Keys - {k};
  }

  lemma EncodesHead(e: seq<Cell>, info: SubscribeInfo, infos: seq<SubscribeInfo>) returns (n: nat)
    requires EncodesInfos(e, [info] + infos)
    ensures n <= |e| && EncodesInfo(e[..n], info) && EncodesInfos(e[n..], infos) && e == e[..n] + e[n..]
  {
    hide EncodesInfo;
    assert ([info] + infos)[1..] == infos;
    n :| n <= |e| && EncodesInfo(e[..n], info) && EncodesInfos(e[n..], infos);
  }

  /** Valid records rebuild their part of the table; an invalid one fails the whole or is filed changed. */
  lemma {:induction false} InfosDecoded(cells: seq<Cell>, pos: nat, e: seq<Cell>, t: Table, into: Table)
    requires Keyed(t) && EncodesInfos(e, Infos(t)) && Holds(cells, pos, e)
    ensures var d := DecodeInfos(cells, pos, |t|, into);
            && (AllValid(t) ==> d == Decoded(true, pos + |e|, into + t))
            && (d.ok ==> Rebuilt(d.value, into, t))
    decreases t.Keys
  {
    hide EncodesInfo, EncodesInfos, DecodeInfo, IsLeast, Holds, TagOf, Infos, Rebuilt, SubscribeInfo.ValidTypes;
    if t == map[] {
      NothingToDecode(e, into);
    } else {
      InfosHead(t);
      var k := Least(t.Keys);
      var rest := t - {k};
      var n := EncodesHead(e, t[k], Infos(rest));
      HoldsSplit(cells, pos, e[..n], e[n..]);
      InfoDecoded(cells, pos, e[..n], t[k]);
      var d := DecodeInfo(cells, pos);
      assert Tag(d.value) == Tag(t[k]) == k;
      assert !t[k].ValidTypes() ==> d.value != t[k];
      assert AllValid(t) ==> t[k].ValidTypes() && AllValid(rest);
      if d.ok {
        InfosDecoded(cells, d.pos, e[n..], rest, into[k := d.value]);
        var v := DecodeInfos(cells, d.pos, |rest|, into[k := d.value]);
        if v.ok {
          RebuiltStep(v.value, into, t, k, d.value);
        }
        MergeStep(into, t, k);
      }
    }
  }

  lemma NothingToDecode(e: seq<Cell>, into: Table)
    requires EncodesInfos(e, Infos(map[]))
    ensures e == [] && into + map[] == into && Rebuilt(into, into, map[])
  {
  }

  /** A sent table arrives as itself exactly when all its change types are valid. */
  lemma TableDecoded(cells: seq<Cell>, pos: nat, e: seq<Cell>, t: Table)
    requires Keyed(t) && 0 < |t| <= 100 && EncodesTable(e, t) && Holds(cells, pos, e)
    ensures var d := DecodeTable(cells, pos, map[]);
            && (d.ok && d.value == t <==> AllValid(t))
            && (AllValid(t) ==> d.pos == pos + |e|)
  {
    hide EncodesInfos, DecodeInfos, Infos, Holds, TagOf, ToWord, Keyed, SubscribeInfo.ValidTypes;
    SmallWord(|t|);
    HoldsHead(cells, pos, e);
    InfosDecoded(cells, pos + 1, e[1..], t, map[]);
    assert map[] + t == t;
  }
}
