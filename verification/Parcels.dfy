/** Records crossing a process boundary: a parcel is a queue of cells read through a cursor.
    Encoders write length headers and items; decoders check sizes, and some callers ignore
    what an inner encoder or decoder reports. */
module Parcels {
  import opened Text

  type UInt32 = x: int | 0 <= x < 0x1_0000_0000
  const MAX_ID_SIZE: nat := 1000
  const MAX_DEVICE_SIZE: nat := 1000
  const MAX_PARAM_SIZE: nat := 20

  /** One 32-bit word, one string, or one remote object. */
  datatype Cell = Word(word: UInt32) | Chars(chars: string) | Remote(handle: nat)

  datatype Decoded<+T> = Decoded(ok: bool, pos: nat, value: T)

  /** Both signed and unsigned 32-bit values travel as the same word. */
  function ToWord(v: int): (c: Cell)
    ensures c.Word?
  {
    Word(v % 0x1_0000_0000)
  }

  function SignedOf(w: UInt32): Int32 {
    if w < 0x8000_0000 then w else w - 0x1_0000_0000
  }

  predicate Holds(cells: seq<Cell>, pos: nat, part: seq<Cell>) {
    pos + |part| <= |cells| && cells[pos..pos + |part|] == part
  }

  lemma HoldsSplit(cells: seq<Cell>, pos: nat, a: seq<Cell>, b: seq<Cell>)
    requires Holds(cells, pos, a + b)
    ensures Holds(cells, pos, a) && Holds(cells, pos + |a|, b)
  {
    var part := a + b;
    assert forall i | 0 <= i < |part| :: cells[pos + i] == cells[pos..pos + |part|][i] == part[i];
    assert forall i | 0 <= i < |a| :: a[i] == part[i];
    assert forall i | 0 <= i < |b| :: b[i] == part[|a| + i];
  }

  lemma HoldsHead(cells: seq<Cell>, pos: nat, part: seq<Cell>)
    requires Holds(cells, pos, part) && part != []
    ensures pos < |cells| && cells[pos] == part[0] && Holds(cells, pos + 1, part[1..])
  {
    assert part == [part[0]] + part[1..];
    HoldsSplit(cells, pos, [part[0]], part[1..]);
    assert cells[pos..pos + 1][0] == cells[pos];
  }

  /** An unsigned read that finds no word yields 0 and stays put. */
  function WordAt(cells: seq<Cell>, pos: nat): (UInt32, nat) {
    if pos < |cells| && cells[pos].Word? then (cells[pos].word, pos + 1) else (0, pos)
  }

  class MessageParcel {
    var cells: seq<Cell>
    var pos: nat

    constructor ()
      ensures cells == [] && pos == 0
    {
      cells, pos := [], 0;
    }

    method Write(c: Cell)
      modifies this`cells
      ensures cells == old(cells) + [c]
    {
      cells := cells + [c];
    }

    method ReadUint32() returns (v: UInt32)
      modifies this`pos
      ensures (v, pos) == WordAt(cells, old(pos))
    {
      v := 0;
      if pos < |cells| && cells[pos].Word? {
        v, pos := cells[pos].word, pos + 1;
      }
    }

    /** Reads one cell that `read` understands; anything else is a failed read that stays put. */
    method Read<T>(read: Cell -> Option<T>) returns (v: Option<T>)
      modifies this`pos
      ensures v == (if old(pos) < |cells| then read(cells[old(pos)]) else None)
      ensures pos == if v.Some? then old(pos) + 1 else old(pos)
    {
      v := None;
      if pos < |cells| {
        v := read(cells[pos]);
        pos := if v.Some? then pos + 1 else pos;
      }
    }
  }

  // ---------------------------------------------------------------- lists of strings and of numbers

  /** How the items of a list travel. */
  datatype ItemCodec<!T> = ItemCodec(write: T -> Cell, read: Cell -> Option<T>)

  const STRINGS: ItemCodec<string> :=
    ItemCodec((s: string) => Chars(s), (c: Cell) => if c.Chars? then Some(c.chars) else None)
  const INT32S: ItemCodec<Int32> :=
    ItemCodec((v: Int32) => ToWord(v), (c: Cell) => if c.Word? then Some(SignedOf(c.word)) else None)

  ghost predicate Faithful<T(!new)>(codec: ItemCodec<T>) {
    forall v: T :: codec.read(codec.write(v)) == Some(v)
  }

  lemma WordRoundTrip(v: Int32)
    ensures SignedOf(ToWord(v).word) == v
  {
  }

  lemma SmallWord(n: nat)
    requires n < 0x1_0000_0000
    ensures ToWord(n) == Word(n)
  {
  }

  lemma CodecsFaithful()
    ensures Faithful(STRINGS) && Faithful(INT32S)
  {
    forall v: Int32 ensures INT32S.read(INT32S.write(v)) == Some(v) {
      hide ToWord, SignedOf;
      WordRoundTrip(v);
      assert INT32S.write(v) == ToWord(v);
    }
  }

  function EncodeItems<T>(codec: ItemCodec<T>, items: seq<T>): (cells: seq<Cell>)
    ensures |cells| == |items|
  {
    if items == [] then [] else [codec.write(items[0])] + EncodeItems(codec, items[1..])
  }

  function EncodeList<T>(codec: ItemCodec<T>, items: seq<T>): seq<Cell> {
    [ToWord(|items|)] + if |items| > MAX_ID_SIZE then [] else EncodeItems(codec, items)
  }

  function DecodeItems<T>(codec: ItemCodec<T>, cells: seq<Cell>, pos: nat, n: nat, into: seq<T>): Decoded<seq<T>>
    decreases n
  {
    if n == 0 then Decoded(true, pos, into)
    else if pos < |cells| && codec.read(cells[pos]).Some?
    then DecodeItems(codec, cells, pos + 1, n - 1, into + [codec.read(cells[pos]).value])
    else Decoded(false, pos, into)
  }

  function DecodeList<T>(codec: ItemCodec<T>, cells: seq<Cell>, pos: nat, into: seq<T>): Decoded<seq<T>> {
    var (size, p) := WordAt(cells, pos);
    if size == 0 then Decoded(true, p, into)
    else if size > MAX_ID_SIZE then Decoded(false, p, into)
    else DecodeItems(codec, cells, p, size, into)
  }

  method MarshalList<T>(parcel: MessageParcel, codec: ItemCodec<T>, items: seq<T>) returns (ok: bool)
    modifies parcel`cells
    ensures parcel.cells == old(parcel.cells) + EncodeList(codec, items)
    ensures ok <==> |items| <= 1000
  {
    parcel.Write(ToWord(|items|));
    if items == [] {
      return true;
    }
    if |items| > MAX_ID_SIZE {
      return false;
    }
    for i := 0 to |items|
      invariant parcel.cells + EncodeItems(codec, items[i..]) == old(parcel.cells) + EncodeList(codec, items)
    {
      parcel.Write(codec.write(items[i]));
    }
    ok := true;
  }

  method UnMarshalList<T>(parcel: MessageParcel, codec: ItemCodec<T>, into: seq<T>) returns (ok: bool, list: seq<T>)
    modifies parcel`pos
    ensures Decoded(ok, parcel.pos, list) == DecodeList(codec, parcel.cells, old(parcel.pos), into)
  {
    list := into;
    var size := parcel.ReadUint32();
    if size == 0 {
      return true, list;
    }
    if size > MAX_ID_SIZE {
      return false, list;
    }
    var left: nat := size;
    while left > 0
      invariant DecodeItems(codec, parcel.cells, parcel.pos, left, list)
          == DecodeList(codec, parcel.cells, old(parcel.pos), into)
    {
      var item := parcel.Read(codec.read);
      if item.None? {
        return false, list;
      }
      list := list + [item.value];
      left := left - 1;
    }
    ok := true;
  }

  lemma {:induction false} ItemsRoundTrip<T(!new)>(codec: ItemCodec<T>, cells: seq<Cell>, pos: nat, items: seq<T>,
                                              into: seq<T>)
    requires Faithful(codec) && Holds(cells, pos, EncodeItems(codec, items))
    ensures DecodeItems(codec, cells, pos, |items|, into) == Decoded(true, pos + |items|, into + items)
    decreases |items|
  {
    if items == [] {
      assert into + items == into;
    } else {
      HoldsHead(cells, pos, EncodeItems(codec, items));
      ItemsRoundTrip(codec, cells, pos + 1, items[1..], into + [items[0]]);
      assert into + [items[0]] + items[1..] == into + items;
    }
  }

  /** An over-long list travels as its bare length and arrives as no items, but never shifts what follows it. */
  lemma ListRoundTrip<T(!new)>(codec: ItemCodec<T>, cells: seq<Cell>, pos: nat, items: seq<T>, into: seq<T>)
    requires Faithful(codec) && |items| < 0x1_0000_0000 && Holds(cells, pos, EncodeList(codec, items))
    ensures DecodeList(codec, cells, pos, into)
         == Decoded(|items| <= MAX_ID_SIZE, pos + |EncodeList(codec, items)|,
                    into + if |items| <= MAX_ID_SIZE then items else [])
  {
    HoldsHead(cells, pos, EncodeList(codec, items));
    if |items| <= MAX_ID_SIZE {
      assert EncodeList(codec, items)[1..] == EncodeItems(codec, items);
      ItemsRoundTrip(codec, cells, pos + 1, items, into);
    } else {
      assert into + [] == into;
    }
  }

  // ---------------------------------------------------------------- device filter options

  datatype Filter = Filter(userId: Int32, accountId: string, deviceIds: seq<string>, wiseDeviceIds: seq<string>,
                           deviceProfileIds: seq<Int32>)

  function EncodeFilter(f: Filter): seq<Cell> {
    [ToWord(f.userId), Chars(f.accountId)] + EncodeList(STRINGS, f.deviceIds)
    + EncodeList(STRINGS, f.wiseDeviceIds) + EncodeList(INT32S, f.deviceProfileIds)
  }

  function DecodeFilter(cells: seq<Cell>, pos: nat, into: Filter): Decoded<Filter> {
    if pos >= |cells| || !cells[pos].Word? then Decoded(false, pos, into)
    else
      var f := into.(userId := SignedOf(cells[pos].word));
      if pos + 1 >= |cells| || !cells[pos + 1].Chars? then Decoded(false, pos + 1, f)
      else
        var ids := DecodeList(STRINGS, cells, pos + 2, into.deviceIds);
        var wise := DecodeList(STRINGS, cells, ids.pos, into.wiseDeviceIds);
        var nums := DecodeList(INT32S, cells, wise.pos, into.deviceProfileIds);
        Decoded(true, nums.pos, f.(accountId := cells[pos + 1].chars, deviceIds := ids.value,
                                   wiseDeviceIds := wise.value, deviceProfileIds := nums.value))
  }

  /** What the three capped additions add. */
  datatype Addition = DeviceId(id: string) | WiseDeviceId(id: string) | DeviceProfileId(number: Int32)

  function Added(f: Filter, a: Addition): Filter {
    match a
    case DeviceId(id) => if |f.deviceIds| < MAX_DEVICE_SIZE then f.(deviceIds := f.deviceIds + [id]) else f
    case WiseDeviceId(id) => if |f.wiseDeviceIds| < MAX_DEVICE_SIZE
        then f.(wiseDeviceIds := f.wiseDeviceIds + [id]) else f
    case DeviceProfileId(number) =>
      if |f.deviceProfileIds| < MAX_DEVICE_SIZE then f.(deviceProfileIds := f.deviceProfileIds + [number]) else f
  }

  class DeviceProfileFilterOptions {
    var userId: Int32
    var accountId: string
    var deviceIds: seq<string>
    var wiseDeviceIds: seq<string>
    var deviceProfileIds: seq<Int32>

    function Value(): Filter
      reads this
    {
      Filter(userId, accountId, deviceIds, wiseDeviceIds, deviceProfileIds)
    }

    constructor (userId: Int32)
      ensures Value() == Filter(userId, "", [], [], [])
    {
      this.userId, accountId, deviceIds, wiseDeviceIds, deviceProfileIds := userId, "", [], [], [];
    }

    method AddDeviceIds(deviceId: string)
      modifies this`deviceIds
      ensures Value() == Added(old(Value()), DeviceId(deviceId))
      ensures deviceIds == if |old(deviceIds)| >= 1000 then old(deviceIds) else old(deviceIds) + [deviceId]
    {
      if |deviceIds| >= MAX_DEVICE_SIZE {
        return;
      }
      deviceIds := deviceIds + [deviceId];
    }

    method AddWiseDeviceIds(wiseDeviceId: string)
      modifies this`wiseDeviceIds
      ensures Value() == Added(old(Value()), WiseDeviceId(wiseDeviceId))
      ensures wiseDeviceIds ==
              if |old(wiseDeviceIds)| >= 1000 then old(wiseDeviceIds) else old(wiseDeviceIds) + [wiseDeviceId]
    {
      if |wiseDeviceIds| >= MAX_DEVICE_SIZE {
        return;
      }
      wiseDeviceIds := wiseDeviceIds + [wiseDeviceId];
    }

    method AddDeviceProfileIds(deviceProfileId: Int32)
      modifies this`deviceProfileIds
      ensures Value() == Added(old(Value()), DeviceProfileId(deviceProfileId))
      ensures deviceProfileIds ==
              if |old(deviceProfileIds)| >= 1000 then old(deviceProfileIds)
              else old(deviceProfileIds) + [deviceProfileId]
    {
      if |deviceProfileIds| >= MAX_DEVICE_SIZE {
        return;
      }
      deviceProfileIds := deviceProfileIds + [deviceProfileId];
    }

    method Marshalling(parcel: MessageParcel) returns (ok: bool)
      modifies parcel`cells
      ensures ok && parcel.cells == old(parcel.cells) + EncodeFilter(Value())
    {
      hide EncodeList, ToWord;
      parcel.Write(ToWord(userId));
      parcel.Write(Chars(accountId));
      var _ := MarshalList(parcel, STRINGS, deviceIds);
      var _ := MarshalList(parcel, STRINGS, wiseDeviceIds);
      var _ := MarshalList(parcel, INT32S, deviceProfileIds);
      ok := true;
    }

    method UnMarshalling(parcel: MessageParcel) returns (ok: bool)
      modifies parcel`pos, this
      ensures Decoded(ok, parcel.pos, Value()) == DecodeFilter(parcel.cells, old(parcel.pos), old(Value()))
    {
      var user := parcel.Read(INT32S.read);
      if user.None? {
        return false;
      }
      userId := user.value;
      var account := parcel.Read(STRINGS.read);
      if account.None? {
        return false;
      }
      accountId := account.value;
      var _, ids := UnMarshalList(parcel, STRINGS, deviceIds);
      var _, wise := UnMarshalList(parcel, STRINGS, wiseDeviceIds);
      var _, nums := UnMarshalList(parcel, INT32S, deviceProfileIds);
      deviceIds, wiseDeviceIds, deviceProfileIds := ids, wise, nums;
      ok := true;
    }
  }

  function Capped<T>(list: seq<T>): seq<T> {
    if |list| <= MAX_ID_SIZE then list else []
  }

  /** Decoding consumes exactly what encoding wrote, appends every list that fits and drops the others. */
  lemma FilterRoundTrip(f: Filter, cells: seq<Cell>, pos: nat, into: Filter)
    requires Holds(cells, pos, EncodeFilter(f))
    requires |f.deviceIds| < 0x1_0000_0000 && |f.wiseDeviceIds| < 0x1_0000_0000 && |f.deviceProfileIds| < 0x1_0000_0000
    ensures DecodeFilter(cells, pos, into)
         == Decoded(true, pos + |EncodeFilter(f)|,
                    Filter(f.userId, f.accountId, into.deviceIds + Capped(f.deviceIds),
                           into.wiseDeviceIds + Capped(f.wiseDeviceIds),
                           into.deviceProfileIds + Capped(f.deviceProfileIds)))
  {
    hide DecodeList, EncodeList, Faithful;
    CodecsFaithful();
    var head := [ToWord(f.userId), Chars(f.accountId)];
    var a, b, c := EncodeList(STRINGS, f.deviceIds), EncodeList(STRINGS, f.wiseDeviceIds),
        EncodeList(INT32S, f.deviceProfileIds);
    HoldsSplit(cells, pos, head + a + b, c);
    HoldsSplit(cells, pos, head + a, b);
    HoldsSplit(cells, pos, head, a);
    HoldsHead(cells, pos, head);
    HoldsHead(cells, pos + 1, head[1..]);
    ListRoundTrip(STRINGS, cells, pos + 2, f.deviceIds, into.deviceIds);
    ListRoundTrip(STRINGS, cells, pos + 2 + |a|, f.wiseDeviceIds, into.wiseDeviceIds);
    ListRoundTrip(INT32S, cells, pos + 2 + |a| + |b|, f.deviceProfileIds, into.deviceProfileIds);
  }

  predicate WithinCaps(f: Filter) {
    |f.deviceIds| <= 1000 && |f.wiseDeviceIds| <= 1000 && |f.deviceProfileIds| <= 1000
  }

  function Empty(userId: Int32): Filter {
    Filter(userId, "", [], [], [])
  }

  /** Options arrive as sent exactly when none of their lists is over 1000. */
  lemma FilterSurvives(f: Filter, cells: seq<Cell>, pos: nat, userId: Int32)
    requires Holds(cells, pos, EncodeFilter(f))
    requires |f.deviceIds| < 0x1_0000_0000 && |f.wiseDeviceIds| < 0x1_0000_0000 && |f.deviceProfileIds| < 0x1_0000_0000
    ensures DecodeFilter(cells, pos, Empty(userId)) == Decoded(true, pos + |EncodeFilter(f)|, f) <==> WithinCaps(f)
  {
    hide DecodeFilter, EncodeFilter, Holds;
    FilterRoundTrip(f, cells, pos, Empty(userId));
    assert [] + Capped(f.deviceIds) == Capped(f.deviceIds) && [] + Capped(f.wiseDeviceIds) == Capped(f.wiseDeviceIds);
    assert [] + Capped(f.deviceProfileIds) == Capped(f.deviceProfileIds);
  }

  function AddedAll(f: Filter, adds: seq<Addition>): Filter
    decreases |adds|
  {
    if adds == [] then f else AddedAll(Added(f, adds[0]), adds[1..])
  }

  lemma {:induction false} AddsWithinCaps(f: Filter, adds: seq<Addition>)
    requires WithinCaps(f)
    ensures WithinCaps(AddedAll(f, adds))
    decreases |adds|
  {
    if adds != [] {
      AddsWithinCaps(Added(f, adds[0]), adds[1..]);
    }
  }

  /** Whatever is added, and however often, options built by the capped additions arrive as built. */
  lemma AddedFilterArrives(user: Int32, adds: seq<Addition>, cells: seq<Cell>, pos: nat, reader: Int32)
    requires Holds(cells, pos, EncodeFilter(AddedAll(Empty(user), adds)))
    ensures var f := AddedAll(Empty(user), adds);
            DecodeFilter(cells, pos, Empty(reader)) == Decoded(true, pos + |EncodeFilter(f)|, f)
  {
    hide DecodeFilter, EncodeFilter, Holds, AddedAll;
    AddsWithinCaps(Empty(user), adds);
    FilterSurvives(AddedAll(Empty(user), adds), cells, pos, reader);
  }

  // ---------------------------------------------------------------- query parameters

  type Params = map<string, string>

  function ParamText(key: string, value: string): string {
    key + SEPARATOR + value
  }

  function ParamCells(pairs: seq<(string, string)>): (cells: seq<Cell>)
    ensures |cells| == |pairs|
  {
    if pairs == [] then [] else [Chars(ParamText(pairs[0].0, pairs[0].1))] + ParamCells(pairs[1..])
  }

  ghost function EncodeParams(params: Params): seq<Cell> {
    [ToWord(|params|)] + if 0 < |params| <= MAX_PARAM_SIZE then ParamCells(Listing(params)) else []
  }

  /** A text without a separator is skipped; otherwise the first separator ends the key. */
  function WithParam(params: Params, item: string): Params {
    var at := Find(item, SEPARATOR);
    if at < 0 then params else params[item[..at] := item[at + 1..]]
  }

  function DecodeParamItems(cells: seq<Cell>, pos: nat, n: nat, into: Params): Decoded<Params>
    decreases n
  {
    if n == 0 then Decoded(true, pos, into)
    else if pos < |cells| && cells[pos].Chars?
    then DecodeParamItems(cells, pos + 1, n - 1, WithParam(into, cells[pos].chars))
    else Decoded(false, pos, into)
  }

  function DecodeParams(cells: seq<Cell>, pos: nat, into: Params): Decoded<Params> {
    var (size, p) := WordAt(cells, pos);
    if size == 0 || size > MAX_PARAM_SIZE then Decoded(false, p, into) else DecodeParamItems(cells, p, size, into)
  }

  lemma ListingHead(m: Params)
    requires m != map[]
    ensures var k := Least(m.Keys); k in m && Listing(m) == [(k, m[k])] + Listing(m - {k})
  {
  }

  lemma EncodeNext(m: Params)
    requires m != map[]
    ensures var k := Least(m.Keys);
            k in m && ParamCells(Listing(m)) == [Chars(ParamText(k, m[k]))] + ParamCells(Listing(m - {k}))
  {
    hide Listing, Less, IsLeast, ParamText;
    ListingHead(m);
  }

  method MarshalParams(parcel: MessageParcel, params: Params) returns (ok: bool)
    modifies parcel`cells
    ensures parcel.cells == old(parcel.cells) + EncodeParams(params)
    ensures ok <==> 0 < |params| <= 20
  {
    hide Listing, ParamCells, ToWord;
    parcel.Write(ToWord(|params|));
    if |params| == 0 || |params| > MAX_PARAM_SIZE {
      return false;
    }
    MarshalPairs(parcel, params);
    ok := true;
  }

  method MarshalPairs(parcel: MessageParcel, params: Params)
    modifies parcel`cells
    ensures parcel.cells == old(parcel.cells) + ParamCells(Listing(params))
  {
    hide IsLeast, ParamText, Listing, ParamCells;
    var left := params;
    while left != map[]
      invariant parcel.cells + ParamCells(Listing(left)) == old(parcel.cells) + ParamCells(Listing(params))
      decreases left.Keys
    {
      var k := NextKey(left.Keys);
      EncodeNext(left);
      parcel.Write(Chars(ParamText(k, left[k])));
      left := left - {k};
    }
    NoCells();
  }

  lemma NoCells()
    ensures ParamCells(Listing(map[])) == []
  {
  }

  method UnMarshalParams(parcel: MessageParcel, into: Params) returns (ok: bool, params: Params)
    modifies parcel`pos
    ensures Decoded(ok, parcel.pos, params) == DecodeParams(parcel.cells, old(parcel.pos), into)
  {
    params := into;
    var size := parcel.ReadUint32();
    if size == 0 || size > MAX_PARAM_SIZE {
      return false, params;
    }
    var left: nat := size;
    while left > 0
      invariant DecodeParamItems(parcel.cells, parcel.pos, left, params)
          == DecodeParams(parcel.cells, old(parcel.pos), into)
    {
      var item := parcel.Read(STRINGS.read);
      if item.None? {
        return false, params;
      }
      left := left - 1;
      var position := Find(item.value, SEPARATOR);
      if position < 0 {
        continue;
      }
      params := params[item.value[..position] := item.value[position + 1..]];
    }
    ok := true;
  }

  /** A size of none or of more than 20 is refused before any pair is read; so is a list of more than 1000. */
  lemma SizesRefused(cells: seq<Cell>, pos: nat, params: Params, list: seq<string>)
    requires pos < |cells| && cells[pos].Word?
    ensures cells[pos].word == 0 || cells[pos].word > 20 ==>
              DecodeParams(cells, pos, params) == Decoded(false, pos + 1, params)
    ensures cells[pos].word > 1000 ==> DecodeList(STRINGS, cells, pos, list) == Decoded(false, pos + 1, list)
    ensures cells[pos].word == 0 ==> DecodeList(STRINGS, cells, pos, list) == Decoded(true, pos + 1, list)
  {
  }

  /** The first '#' of "key#value" ends the key, whatever the value holds. */
  lemma ParamSplits(key: string, value: string, into: Params)
    ensures '#' !in key ==> WithParam(into, ParamText(key, value)) == into[key := value]
  {
    var item := ParamText(key, value);
    var at := Find(item, SEPARATOR);
    assert OccursAt(item, SEPARATOR, |key|);
    assert forall j: nat | j < |item| :: OccursAt(item, SEPARATOR, j) <==> item[j] == '#';
    if '#' !in key {
      assert at == |key| by {
        assert forall j | 0 <= j < |key| :: item[j] == key[j];
      }
      assert item[..at] == key && item[at + 1..] == value;
    }
  }

  ghost predicate Separable(pairs: seq<(string, string)>) {
    forall i | 0 <= i < |pairs| :: '#' !in pairs[i].0
  }

  lemma {:induction false} ParamItems(pairs: seq<(string, string)>, cells: seq<Cell>, pos: nat, into: Params)
    requires Holds(cells, pos, ParamCells(pairs))
    ensures var d := DecodeParamItems(cells, pos, |pairs|, into);
            d.ok && d.pos == pos + |pairs| && (Separable(pairs) ==> d.value == Overlay(into, pairs))
    decreases |pairs|
  {
    hide ParamText, WithParam, Holds, Find;
    if pairs != [] {
      var (k, v) := pairs[0];
      HoldsHead(cells, pos, ParamCells(pairs));
      ParamSplits(k, v, into);
      ParamItems(pairs[1..], cells, pos + 1, WithParam(into, ParamText(k, v)));
    }
  }

  /** No decoded key contains the separator, whatever was sent. */
  lemma {:induction false} DecodedKeys(cells: seq<Cell>, pos: nat, n: nat, into: Params)
    ensures forall k :: k in DecodeParamItems(cells, pos, n, into).value && k !in into ==> '#' !in k
    decreases n
  {
    hide Find;
    if n > 0 && pos < |cells| && cells[pos].Chars? {
      var item := cells[pos].chars;
      DecodedKeys(cells, pos + 1, n - 1, WithParam(into, item));
      KeyBeforeSeparator(item);
    }
  }

  lemma KeyBeforeSeparator(item: string)
    ensures var at := Find(item, SEPARATOR); at >= 0 ==> at < |item| && '#' !in item[..at]
  {
    var at := Find(item, SEPARATOR);
    assert forall j: nat | j < |item| :: OccursAt(item, SEPARATOR, j) <==> item[j] == '#';
    assert forall j | 0 <= j < at :: item[..at][j] == item[j] != '#';
  }

  lemma {:induction false} ListingKeys(m: Params)
    ensures Separable(Listing(m)) <==> forall k :: k in m ==> '#' !in k
    decreases m.Keys
  {
    hide IsLeast, Listing;
    if m == map[] {
      assert |Listing(m)| == 0;
    } else {
      var k := Least(m.Keys);
      ListingHead(m);
      ListingKeys(m - {k});
      var l, rest := Listing(m), Listing(m - {k});
      assert l[0] == (k, m[k]) && forall i | 0 < i < |l| :: l[i] == rest[i - 1];
      assert forall i | 0 <= i < |rest| :: l[i + 1] == rest[i];
      assert forall j :: j in m <==> j == k || j in m - {k};
      assert Separable(l) <==> '#' !in k && Separable(rest);
    }
  }

  lemma ParamsFraming(params: Params, cells: seq<Cell>, pos: nat)
    requires 0 < |params| <= 20 && Holds(cells, pos, EncodeParams(params))
    ensures var d := DecodeParams(cells, pos, map[]);
            && d.ok && d.pos == pos + |EncodeParams(params)|
            && (Separable(Listing(params)) ==> d.value == Overlay(map[], Listing(params)))
            && (forall k :: k in d.value ==> '#' !in k)
  {
    hide Listing, Overlay, ParamCells, DecodeParamItems, Holds, Separable;
    var pairs := Listing(params);
    HoldsHead(cells, pos, EncodeParams(params));
    assert EncodeParams(params)[1..] == ParamCells(pairs);
    ParamItems(pairs, cells, pos + 1, map[]);
    DecodedKeys(cells, pos + 1, |params|, map[]);
  }

  /** Query parameters arrive unchanged exactly when no key contains the separator. */
  lemma ParamsRoundTrip(params: Params, cells: seq<Cell>, pos: nat)
    requires 0 < |params| <= 20 && Holds(cells, pos, EncodeParams(params))
    ensures var d := DecodeParams(cells, pos, map[]);
            && d.ok && d.pos == pos + |EncodeParams(params)|
            && (d.value == params <==> forall k :: k in params ==> '#' !in k)
  {
    hide Listing, Overlay, DecodeParams, EncodeParams, Holds, Separable;
    ParamsFraming(params, cells, pos);
    ListingKeys(params);
    OverlayListing(map[], params);
    assert map[] + params == params;
  }
}
