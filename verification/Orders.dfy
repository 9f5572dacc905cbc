/** The comparison operators that ordered containers of device and service records rely on. */
module Orders {
  import opened Text

  type UInt16 = x: int | 0 <= x < 0x1_0000
  type Int64 = x: int | -0x8000_0000_0000_0000 <= x < 0x8000_0000_0000_0000

  datatype TrustedDeviceInfo = TrustedDeviceInfo(
    networkId: string, authForm: Int32, deviceTypeId: UInt16, osVersion: string, osType: Int32,
    udid: string, uuid: string)
  {
    predicate Differs(other: TrustedDeviceInfo) {
      networkId != other.networkId || authForm != other.authForm || deviceTypeId != other.deviceTypeId ||
      osVersion != other.osVersion || osType != other.osType || udid != other.udid || uuid != other.uuid
    }

    predicate Before(other: TrustedDeviceInfo) {
      || Less(networkId, other.networkId)
      || (networkId == other.networkId && authForm < other.authForm)
      || (networkId == other.networkId && authForm == other.authForm && deviceTypeId < other.deviceTypeId)
      || (networkId == other.networkId && authForm == other.authForm && deviceTypeId == other.deviceTypeId &&
          Less(osVersion, other.osVersion))
      || (networkId == other.networkId && authForm == other.authForm && deviceTypeId == other.deviceTypeId &&
          osVersion == other.osVersion && osType < other.osType)
      || (networkId == other.networkId && authForm == other.authForm && deviceTypeId == other.deviceTypeId &&
          osVersion == other.osVersion && osType == other.osType && Less(udid, other.udid))
      || (networkId == other.networkId && authForm == other.authForm && deviceTypeId == other.deviceTypeId &&
          osVersion == other.osVersion && osType == other.osType && udid == other.udid && Less(uuid, other.uuid))
    }
  }

  /** The part of a service record its operators look at, and the rest of it. */
  datatype ServiceInfo = ServiceInfo(udid: string, userId: Int32, serviceId: Int64, payload: string)
  {
    predicate Before(other: ServiceInfo) {
      || Less(udid, other.udid)
      || (udid == other.udid && userId < other.userId)
      || (udid == other.udid && userId == other.userId && serviceId < other.serviceId)
    }

    predicate Same(other: ServiceInfo) {
      udid == other.udid && userId == other.userId && serviceId == other.serviceId
    }
  }

  lemma TransitiveOn(a: string, b: string, c: string)
    ensures Less(a, b) && Less(b, c) ==> Less(a, c)
    ensures Less(a, b) ==> a != b && !Less(b, a)
  {
    if Less(a, b) && Less(b, c) {
      LessTransitive(a, b, c);
    }
    LessTrichotomy(a, b);
  }

  /** Of two device records exactly one comes first, unless no field differs. */
  lemma DeviceOrderTotal(a: TrustedDeviceInfo, b: TrustedDeviceInfo)
    ensures !(a.Before(b) && b.Before(a))
    ensures !a.Before(b) && !b.Before(a) <==> !a.Differs(b)
    ensures !a.Differs(b) <==> a == b
  {
    hide Less;
    LessTrichotomy(a.networkId, b.networkId);
    LessTrichotomy(a.osVersion, b.osVersion);
    LessTrichotomy(a.udid, b.udid);
    LessTrichotomy(a.uuid, b.uuid);
  }

  lemma DeviceOrderTransitive(a: TrustedDeviceInfo, b: TrustedDeviceInfo, c: TrustedDeviceInfo)
    requires a.Before(b) && b.Before(c)
    ensures a.Before(c)
  {
    hide Less;
    TransitiveOn(a.networkId, b.networkId, c.networkId);
    TransitiveOn(a.osVersion, b.osVersion, c.osVersion);
    TransitiveOn(a.udid, b.udid, c.udid);
    TransitiveOn(a.uuid, b.uuid, c.uuid);
  }

  /** Service records are ordered up to `==`, which ignores everything but udid, user and service id. */
  lemma ServiceOrderWeak(a: ServiceInfo, b: ServiceInfo, c: ServiceInfo)
    ensures !(a.Before(b) && b.Before(a))
    ensures a.Before(b) && b.Before(c) ==> a.Before(c)
    ensures !a.Before(b) && !b.Before(a) <==> a.Same(b)
    ensures a.Same(b) && b.Same(c) ==> a.Same(c)
  {
    hide Less;
    TransitiveOn(a.udid, b.udid, c.udid);
    LessTrichotomy(a.udid, b.udid);
  }

  // ---------------------------------------------------------------- what the orders are

  datatype Field = Name(text: string) | Number(value: int)

  predicate FieldLess(a: Field, b: Field) {
    if a.Name? && b.Name? then Less(a.text, b.text) else a.Number? && b.Number? && a.value < b.value
  }

  /** The first field in which two records differ decides, the smaller value coming first. */
  ghost predicate LexicographicallyBefore(a: seq<Field>, b: seq<Field>) {
    exists i: nat :: i < |a| && i < |b| && a[..i] == b[..i] && FieldLess(a[i], b[i])
  }

  function DeviceFields(a: TrustedDeviceInfo): seq<Field> {
    [Name(a.networkId), Number(a.authForm), Number(a.deviceTypeId), Name(a.osVersion), Number(a.osType), Name(a.udid),
     Name(a.uuid)]
  }

  function ServiceFields(a: ServiceInfo): seq<Field> {
    [Name(a.udid), Number(a.userId), Number(a.serviceId)]
  }

  lemma PrefixAgrees(x: seq<Field>, y: seq<Field>, i: nat)
    requires i <= |x| && i <= |y| && x[..i] == y[..i]
    ensures forall j | 0 <= j < i :: x[j] == y[j]
  {
    assert forall j | 0 <= j < i :: x[j] == x[..i][j] == y[..i][j] == y[j];
  }

  lemma DeviceDecided(a: TrustedDeviceInfo, b: TrustedDeviceInfo, i: nat)
    requires i < 7 && DeviceFields(a)[..i] == DeviceFields(b)[..i] && FieldLess(DeviceFields(a)[i], DeviceFields(b)[i])
    ensures a.Before(b)
  {
    hide Less;
    var x, y := DeviceFields(a), DeviceFields(b);
    PrefixAgrees(x, y, i);
    assert i > 0 ==> x[0] == y[0];
    assert i > 1 ==> x[1] == y[1];
    assert i > 2 ==> x[2] == y[2];
    assert i > 3 ==> x[3] == y[3];
    assert i > 4 ==> x[4] == y[4];
    assert i > 5 ==> x[5] == y[5];
  }

  /** Device records are ordered by network id, authentication form, device type, system version, system type, udid and
      uuid, in this order. */
  lemma DeviceOrderLexicographic(a: TrustedDeviceInfo, b: TrustedDeviceInfo)
    ensures a.Before(b) <==> LexicographicallyBefore(DeviceFields(a), DeviceFields(b))
  {
    hide Less;
    var x, y := DeviceFields(a), DeviceFields(b);
    if a.Before(b) {
      var i: nat := if Less(a.networkId, b.networkId) then 0
                    else if a.authForm < b.authForm then 1
                    else if a.deviceTypeId < b.deviceTypeId then 2
                    else if Less(a.osVersion, b.osVersion) then 3
                    else if a.osType < b.osType then 4
                    else if Less(a.udid, b.udid) then 5 else 6;
      DeviceFirstDiffers(a, b, i);
    }
    if LexicographicallyBefore(x, y) {
      var i: nat :| i < 7 && x[..i] == y[..i] && FieldLess(x[i], y[i]);
      DeviceDecided(a, b, i);
    }
  }

  lemma DeviceFirstDiffers(a: TrustedDeviceInfo, b: TrustedDeviceInfo, i: nat)
    requires a.Before(b)
    requires i == if Less(a.networkId, b.networkId) then 0
                  else if a.networkId == b.networkId && a.authForm < b.authForm then 1
                  else if a.networkId == b.networkId && a.authForm == b.authForm &&
                          a.deviceTypeId < b.deviceTypeId then 2
                  else if a.networkId == b.networkId && a.authForm == b.authForm && a.deviceTypeId == b.deviceTypeId &&
                          Less(a.osVersion, b.osVersion) then 3
                  else if a.networkId == b.networkId && a.authForm == b.authForm && a.deviceTypeId == b.deviceTypeId &&
                          a.osVersion == b.osVersion && a.osType < b.osType then 4
                  else if a.networkId == b.networkId && a.authForm == b.authForm && a.deviceTypeId == b.deviceTypeId &&
                          a.osVersion == b.osVersion && a.osType == b.osType && Less(a.udid, b.udid) then 5 else 6
    ensures DeviceFields(a)[..i] == DeviceFields(b)[..i] && FieldLess(DeviceFields(a)[i], DeviceFields(b)[i])
  {
    hide Less;
  }

  /** Service records are ordered by udid, user and service id, in this order. */
  lemma ServiceOrderLexicographic(a: ServiceInfo, b: ServiceInfo)
    ensures a.Before(b) <==> LexicographicallyBefore(ServiceFields(a), ServiceFields(b))
  {
    hide Less;
    var x, y := ServiceFields(a), ServiceFields(b);
    if a.Before(b) {
      var i: nat := if Less(a.udid, b.udid) then 0
                    else if a.udid == b.udid && a.userId < b.userId then 1 else 2;
      assert x[..i] == y[..i] && FieldLess(x[i], y[i]);
    }
    if LexicographicallyBefore(x, y) {
      var i: nat :| i < 3 && x[..i] == y[..i] && FieldLess(x[i], y[i]);
      PrefixAgrees(x, y, i);
      assert i == 0 || i == 1 || i == 2;
      assert i > 0 ==> x[0] == y[0];
      assert i > 1 ==> x[1] == y[1];
    }
  }
}
