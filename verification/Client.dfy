/** The client side: a mirror of the caller's subscriptions that outlives the service, and
    a bounded retry of calls that fail because the service is away. */
module Client {
  import opened Text
  import opened Parcels
  import opened Subscriptions

  class DistributedDeviceProfileClient {
    var subscribeInfos: Table

    constructor ()
      ensures subscribeInfos == map[]
    {
      subscribeInfos := map[];
    }

    /** `service` is what the running service answers, or None when it cannot be reached. */
    method SubscribeDeviceProfile(info: SubscribeInfo, service: Option<Int32>) returns (code: Int32)
      modifies this
      ensures subscribeInfos ==
              if service.None? then old(subscribeInfos) else Apply(old(subscribeInfos), Subscribe(info))
      ensures code == if service.None? then 98566147
                      else if |old(subscribeInfos)| > 100 then 98566201
                      else service.value
    {
      if service.None? {
        return DP_GET_SERVICE_FAILED;
      }
      if |subscribeInfos| > MAX_LISTENER_SIZE {
        return DP_EXCEED_MAX_SIZE_FAIL;
      }
      var subscribeTag := info.subscribeKey + SEPARATOR + ToString(info.saId);
      subscribeInfos := subscribeInfos[subscribeTag := info];
      code := service.value;
    }

    method UnSubscribeDeviceProfile(info: SubscribeInfo, service: Option<Int32>) returns (code: Int32)
      modifies this
      ensures subscribeInfos ==
              if service.None? then old(subscribeInfos) else Apply(old(subscribeInfos), UnSubscribe(info))
      ensures code == if service.None? then 98566147 else service.value
    {
      if service.None? {
        return DP_GET_SERVICE_FAILED;
      }
      subscribeInfos := subscribeInfos - {Tag(info)};
      code := service.value;
    }

    /** Sends the mirror to a restarted service and reports the table that service ends up with.
        The whole mirror arrives exactly when it is neither empty nor over 100 entries and every record is sendable. */
    method SendSubscribeInfosToService(serviceUp: bool) returns (received: Option<Table>)
      requires Keyed(subscribeInfos)
      ensures received == Some(subscribeInfos) <==>
              serviceUp && 0 < |subscribeInfos| <= 100 && AllSendable(subscribeInfos)
      ensures received.Some? ==> 0 < |subscribeInfos| <= 100 && AllListening(subscribeInfos)
    {
      hide EncodesTable, Keyed, Holds, DecodeTable, SubscribeInfo.ValidTypes;
      if !serviceUp || |subscribeInfos| == 0 || |subscribeInfos| > MAX_SUBSCRIBE_INFO_SIZE {
        return None;
      }
      var data := new MessageParcel();
      var ok, written := MarshalTable(data, subscribeInfos);
      if !ok {
        return None;
      }
      ghost var sent := data.cells;
      var arrived, table := UnMarshalTable(data, map[]);
      assert Holds(sent, 0, written) by { WholeHolds(written); }
      TableDecoded(sent, 0, written, subscribeInfos);
      received := if arrived then Some(table) else None;
    }
  }

  lemma WholeHolds(cells: seq<Cell>)
    ensures Holds(cells, 0, cells) && [] + cells == cells
  {
  }

  ghost predicate AllSendable(t: Table) {
    forall k :: k in t ==> t[k].Sendable()
  }

  // ---------------------------------------------------------------- runs of subscriptions

  datatype Operation = Subscribe(info: SubscribeInfo) | UnSubscribe(info: SubscribeInfo)

  function Apply(t: Table, op: Operation): Table {
    match op
    case Subscribe(info) => if |t| > MAX_LISTENER_SIZE then t else t[Tag(info) := info]
    case UnSubscribe(info) => t - {Tag(info)}
  }

  function Run(ops: seq<Operation>): Table {
    if ops == [] then map[] else Apply(Run(ops[..|ops| - 1]), ops[|ops| - 1])
  }

  /** The subscriptions as the callers think of them: one record per key and subscriber. */
  type Book = map<(string, Int32), SubscribeInfo>

  function ApplyBook(b: Book, op: Operation): Book {
    var id := (op.info.subscribeKey, op.info.saId);
    match op
    case Subscribe(info) => if |b| > MAX_LISTENER_SIZE then b else b[id := info]
    case UnSubscribe(info) => b - {id}
  }

  function RunBook(ops: seq<Operation>): Book {
    if ops == [] then map[] else ApplyBook(RunBook(ops[..|ops| - 1]), ops[|ops| - 1])
  }

  ghost predicate SameRecord(t: Table, b: Book, k: string, sa: Int32) {
    if (k, sa) in b then TagOf(k, sa) in t && t[TagOf(k, sa)] == b[(k, sa)] else TagOf(k, sa) !in t
  }

  ghost predicate Mirrors(t: Table, b: Book) {
    Keyed(t) && |t| == |b| && forall k, sa: Int32 :: SameRecord(t, b, k, sa)
  }

  lemma PutMirrors(t: Table, b: Book, info: SubscribeInfo)
    requires Mirrors(t, b)
    ensures Mirrors(t[Tag(info) := info], b[(info.subscribeKey, info.saId) := info])
  {
    hide Tag, SameRecord;
    var t', b' := t[Tag(info) := info], b[(info.subscribeKey, info.saId) := info];
    forall k, sa: Int32 ensures SameRecord(t', b', k, sa) {
      PutMirrorsAt(t, b, info, k, sa);
    }
    PutMirrorsAt(t, b, info, info.subscribeKey, info.saId);
    PutCard(t, Tag(info), info);
    PutCard(b, (info.subscribeKey, info.saId), info);
  }

  lemma PutCard<K>(m: map<K, SubscribeInfo>, k: K, v: SubscribeInfo)
    ensures |m[k := v]| == |m| + if k in m then 0 else 1
  {
    assert m[k := v].Keys == m.Keys + {k};
  }

  lemma PutMirrorsAt(t: Table, b: Book, info: SubscribeInfo, k: string, sa: Int32)
    requires Mirrors(t, b)
    ensures SameRecord(t[Tag(info) := info], b[(info.subscribeKey, info.saId) := info], k, sa)
    ensures (info.subscribeKey, info.saId) in b <==> Tag(info) in t
  {
    hide TagOf, Keyed;
    assert SameRecord(t, b, k, sa) && SameRecord(t, b, info.subscribeKey, info.saId);
    if TagOf(k, sa) == Tag(info) {
      TagInjective(k, sa, info.subscribeKey, info.saId);
    }
  }

  lemma DropMirrors(t: Table, b: Book, info: SubscribeInfo)
    requires Mirrors(t, b)
    ensures Mirrors(t - {Tag(info)}, b - {(info.subscribeKey, info.saId)})
  {
    hide TagOf, SameRecord;
    var t', b' := t - {Tag(info)}, b - {(info.subscribeKey, info.saId)};
    forall k, sa: Int32 ensures SameRecord(t', b', k, sa) {
      DropMirrorsAt(t, b, info, k, sa);
    }
    DropMirrorsAt(t, b, info, info.subscribeKey, info.saId);
    DropCard(t, Tag(info));
    DropCard(b, (info.subscribeKey, info.saId));
  }

  lemma DropCard<K>(m: map<K, SubscribeInfo>, k: K)
    ensures |m - {k}| == |m| - if k in m then 1 else 0
  {
    assert (m - {k}).Keys == m.Keys - {k};
  }

  lemma DropMirrorsAt(t: Table, b: Book, info: SubscribeInfo, k: string, sa: Int32)
    requires Mirrors(t, b)
    ensures SameRecord(t - {Tag(info)}, b - {(info.subscribeKey, info.saId)}, k, sa)
    ensures (info.subscribeKey, info.saId) in b <==> Tag(info) in t
  {
    hide TagOf, Keyed;
    assert SameRecord(t, b, k, sa) && SameRecord(t, b, info.subscribeKey, info.saId);
    if TagOf(k, sa) == Tag(info) {
      TagInjective(k, sa, info.subscribeKey, info.saId);
    }
  }

  lemma ApplyMirrors(t: Table, b: Book, op: Operation)
    requires Mirrors(t, b)
    ensures Mirrors(Apply(t, op), ApplyBook(b, op))
  {
    match op
    case Subscribe(info) =>
      if |t| <= MAX_LISTENER_SIZE {
        hide Tag;
        PutMirrors(t, b, info);
      }
    case UnSubscribe(info) =>
      hide Mirrors, Tag;
      DropMirrors(t, b, info);
  }

  /** After every run the mirror holds exactly one entry per live subscription, under its own tag, and at most 101. */
  lemma {:induction false} RunMirrors(ops: seq<Operation>)
    ensures Mirrors(Run(ops), RunBook(ops)) && |Run(ops)| <= 101
  {
    hide Mirrors;
    if ops == [] {
      NothingMirrors();
    } else {
      var before := ops[..|ops| - 1];
      RunMirrors(before);
      ApplyMirrors(Run(before), RunBook(before), ops[|ops| - 1]);
      ApplySize(Run(before), ops[|ops| - 1]);
    }
  }

  lemma NothingMirrors()
    ensures Mirrors(map[], map[])
  {
  }

  lemma ApplySize(t: Table, op: Operation)
    requires |t| <= MAX_LISTENER_SIZE + 1
    ensures |Apply(t, op)| <= MAX_LISTENER_SIZE + 1
  {
    hide Tag;
    var t' := Apply(t, op);
    assert op.Subscribe? && t' != t ==> t'.Keys == t.Keys + {Tag(op.info)};
    assert op.UnSubscribe? ==> t'.Keys == t.Keys - {Tag(op.info)};
  }

  /** One well-formed record per subscriber id, all with the same subscription key. */
  function Crowd(n: nat): seq<Operation>
    requires n < 0x8000_0000
  {
    if n == 0 then [] else Crowd(n - 1) + [Subscribe(SubscribeInfo(n, "trust_device_profile", {1}, Some(n)))]
  }

  lemma {:induction false} CrowdSize(n: nat)
    requires n <= MAX_LISTENER_SIZE + 1
    ensures |Run(Crowd(n))| == n
    ensures forall sa: Int32 :: TagOf("trust_device_profile", sa) in Run(Crowd(n)) ==> sa <= n
    ensures AllSendable(Run(Crowd(n)))
  {
    hide TagOf;
    if n > 0 {
      CrowdSize(n - 1);
      var ops, t := Crowd(n), Run(Crowd(n - 1));
      var info := ops[|ops| - 1].info;
      assert ops[..|ops| - 1] == Crowd(n - 1) && info.saId == n;
      assert Run(ops) == t[Tag(info) := info] && Tag(info) !in t;
      PutCard(t, Tag(info), info);
      forall sa: Int32 | TagOf("trust_device_profile", sa) in Run(ops) ensures sa <= n {
        if TagOf("trust_device_profile", sa) == Tag(info) {
          TagInjective("trust_device_profile", sa, info.subscribeKey, info.saId);
        }
      }
    }
  }

  /** The size check lets a 101st subscription in; such a mirror, though all its records are sendable, exceeds
      what a resend carries. */
  lemma MirrorCanOutgrowResend()
    ensures exists ops :: |Run(ops)| == 101 && AllSendable(Run(ops))
  {
    CrowdSize(MAX_LISTENER_SIZE + 1);
    assert |Run(Crowd(MAX_LISTENER_SIZE + 1))| == MAX_LISTENER_SIZE + 1;
  }

  // ---------------------------------------------------------------- retried calls

  const DP_READ_PARCEL_FAIL: Int32 := 98566236
  const RETRY_ERR_CODES: set<Int32> := {98566331, 98566160, 32, 29189}
  const MAX_RETRY_TIMES: nat := 7

  /** What one call meets: no service, a transport failure, a refusal by the service, or a reply to decode. */
  datatype Attempt<+T> =
    | NoService
    | SendFailed(errCode: Int32)
    | Refused(ret: Int32)
    | Replied(decoded: bool, items: seq<T>)

  predicate FailureHasCode<T>(a: Attempt<T>) {
    match a
    case SendFailed(errCode) => errCode != DP_SUCCESS
    case Refused(ret) => ret != DP_SUCCESS
    case _ => true
  }

  function CodeOf<T>(a: Attempt<T>): Int32 {
    match a
    case NoService => DP_GET_SERVICE_FAILED
    case SendFailed(errCode) => errCode
    case Refused(ret) => ret
    case Replied(decoded, _) => if decoded then DP_SUCCESS else DP_READ_PARCEL_FAIL
  }

  /** A list getter of the proxy: the out-list grows only while a reply is being decoded. */
  method ProxyGetList<T>(a: Attempt<T>, list: seq<T>) returns (ret: Int32, filled: seq<T>)
    requires FailureHasCode(a) && !a.NoService?
    ensures ret == CodeOf(a) && filled == list + if a.Replied? then a.items else []
    ensures a.Replied? ==> ret == if a.decoded then 0 else 98566236
    ensures filled != list ==> ret !in {98566331, 98566160, 32, 29189}
  {
    filled := list;
    if a.SendFailed? {
      return a.errCode, filled;
    }
    if a.Refused? {
      return a.ret, filled;
    }
    filled := filled + a.items;
    if !a.decoded {
      return DP_READ_PARCEL_FAIL, filled;
    }
    ret := DP_SUCCESS;
  }

  /** The retry loop: it stops at the first attempt whose code is not retryable, after at most seven. */
  method RetryClientRequest<T>(firstRet: Int32, attempts: seq<Attempt<T>>, list: seq<T>)
    returns (ret: Int32, filled: seq<T>, used: nat)
    requires |attempts| == MAX_RETRY_TIMES && forall a :: a in attempts ==> FailureHasCode(a)
    ensures 1 <= used <= MAX_RETRY_TIMES
    ensures ret == CodeOf(attempts[used - 1])
    ensures forall i | 0 <= i < used - 1 :: CodeOf(attempts[i]) in RETRY_ERR_CODES
    ensures ret in RETRY_ERR_CODES ==> used == MAX_RETRY_TIMES
    ensures filled == list + if attempts[used - 1].Replied? then attempts[used - 1].items else []
  {
    ret, filled, used := firstRet, list, 0;
    while used < MAX_RETRY_TIMES
      invariant used <= MAX_RETRY_TIMES
      invariant used > 0 ==> ret == CodeOf(attempts[used - 1]) && ret in RETRY_ERR_CODES
      invariant forall i | 0 <= i < used :: CodeOf(attempts[i]) in RETRY_ERR_CODES
      invariant filled == list
    {
      used := used + 1;
      if attempts[used - 1].NoService? {
        return DP_GET_SERVICE_FAILED, filled, used;
      }
      ret, filled := ProxyGetList(attempts[used - 1], filled);
      if ret !in RETRY_ERR_CODES {
        break;
      }
    }
  }

  /** A whole client call: at most eight attempts, and the caller's list holds what the last one decoded, once. */
  method GetList<T>(attempts: seq<Attempt<T>>, list: seq<T>) returns (ret: Int32, filled: seq<T>, used: nat)
    requires |attempts| == 8 && forall a :: a in attempts ==> FailureHasCode(a)
    ensures 1 <= used <= 8
    ensures ret == CodeOf(attempts[used - 1])
    ensures forall i | 0 <= i < used - 1 :: CodeOf(attempts[i]) in {98566331, 98566160, 32, 29189}
    ensures ret in {98566331, 98566160, 32, 29189} <==>
            forall a :: a in attempts ==> CodeOf(a) in {98566331, 98566160, 32, 29189}
    ensures ret in {98566331, 98566160, 32, 29189} ==> used == 8
    ensures filled == list + if attempts[used - 1].Replied? then attempts[used - 1].items else []
  {
    if attempts[0].NoService? {
      return DP_GET_SERVICE_FAILED, list, 1;
    }
    ret, filled := ProxyGetList(attempts[0], list);
    used := 1;
    if ret in RETRY_ERR_CODES {
      var more;
      ret, filled, more := RetryClientRequest(ret, attempts[1..], filled);
      used := 1 + more;
    }
    assert attempts[used - 1] in attempts;
  }
}
