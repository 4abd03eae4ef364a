/**
 * The peripheral side of the link (SensorFirmware/main.py): the BLESensor
 * object's IRQ handler, which tracks connections and serves relay writes, and
 * its Int16 characteristic update with notification fan-out.
 *
 * The BLE stack and the pins are abstract state of the object: the attribute
 * store is a map from attribute handle to stored bytes, each relay pin holds
 * the level last driven, and the notifications, indications and advertising
 * requests are appended to the ghost `log`.
 */
module SensorFirmware {
  import opened Gatt
  import opened Wrappers

  type ConnHandle = int
  type AttrHandle = int

  const EnvSenseUuid: Uuid := Uuid16(0x181A)
  const TempCharUuid: Uuid := Uuid16(0x2A6E)
  const HumidCharUuid: Uuid := Uuid16(0x2A6F)
  const RelayCharUuid: Uuid := Uuid128("E04E0525-ECBC-4E2C-AAB6-A3EC009506C6")

  const AdvertiseIntervalUs: int := 250000
  const DefaultName: string := "Pi Pico Sensor"

  /** The IRQ events the handler distinguishes; any other event is ignored. */
  datatype IrqEvent =
    | CentralConnect(connHandle: ConnHandle)
    | CentralDisconnect(connHandle: ConnHandle)
    | GattsIndicateDone(connHandle: ConnHandle, valueHandle: AttrHandle, status: int)
    | GattsWrite(connHandle: ConnHandle, attrHandle: AttrHandle)
    | OtherEvent(code: int)

  /** A request the firmware makes of the BLE stack besides storing a value. */
  datatype BleCall =
    | GattsNotify(connHandle: ConnHandle, valueHandle: AttrHandle)
    | GattsIndicate(connHandle: ConnHandle, valueHandle: AttrHandle)
    | GapAdvertise(intervalUs: int)

  /** struct.pack('<h', value): the two bytes of `value` in two's complement, low byte first. */
  function PackI16LE(value: Int16): (bytes: seq<Byte>)
    ensures |bytes| == 2
    ensures LittleEndian16(bytes[0], bytes[1]) == ToUnsigned(value)
  {
    var u := ToUnsigned(value);
    var lo, hi := u % 0x100, u / 0x100;
    [ByteOf(lo), ByteOf(hi)]
  }

  /** The relay bits a relay write carries: the low two bits of its first byte, none if it is empty. */
  function RelayBits(data: seq<Byte>): (bits: Option<Byte>)
    ensures bits.Some? <==> |data| > 0
    ensures bits.Some? ==> bits.value as int == data[0] as int % 4
  {
    if |data| > 0 then Some(data[0] & 0x3) else None
  }

  /** Only the first byte of a relay write is looked at. */
  lemma RelayBitsIgnoresTail(data: seq<Byte>)
    requires |data| > 0
    ensures RelayBits(data) == RelayBits(data[..1])
  {
  }

  /** The notifications and indications sent to the connections `order`, in that order. */
  function Fanout(order: seq<ConnHandle>, handle: AttrHandle, notify: bool, indicate: bool): seq<BleCall> {
    if order == [] then []
    else
      var c := order[|order| - 1];
      Fanout(order[..|order| - 1], handle, notify, indicate)
        + (if notify then [GattsNotify(c, handle)] else [])
        + (if indicate then [GattsIndicate(c, handle)] else [])
  }

  /** Visiting one more connection appends its notification and then its indication. */
  lemma FanoutSnoc(order: seq<ConnHandle>, c: ConnHandle, handle: AttrHandle, notify: bool, indicate: bool)
    ensures Fanout(order + [c], handle, notify, indicate)
         == Fanout(order, handle, notify, indicate)
            + (if notify then [GattsNotify(c, handle)] else [])
            + (if indicate then [GattsIndicate(c, handle)] else [])
  {
    assert (order + [c])[..|order + [c]| - 1] == order;
  }

  /** Regrouping a concatenation of four call logs. */
  lemma AppendRegroup(a: seq<BleCall>, b: seq<BleCall>, c: seq<BleCall>, d: seq<BleCall>)
    ensures a + b + c + d == a + (b + c + d)
  {
  }

  /** Appending an element not yet present keeps a sequence free of repeats. */
  lemma DistinctSnoc(order: seq<ConnHandle>, c: ConnHandle)
    requires Distinct(order) && c !in order
    ensures Distinct(order + [c])
  {
  }

  /**
   * Each connection gets exactly one notification if `notify` is set and one
   * indication if `indicate` is, and no other connection or handle gets any.
   */
  lemma {:induction false} FanoutOncePerConnection(order: seq<ConnHandle>, handle: AttrHandle,
                                                   notify: bool, indicate: bool, call: BleCall)
    requires Distinct(order)
    requires call.GattsNotify? || call.GattsIndicate?
    ensures multiset(Fanout(order, handle, notify, indicate))[call]
            == if (if call.GattsNotify? then notify else indicate)
                  && call.valueHandle == handle && call.connHandle in order then 1 else 0
  {
    if order != [] {
      var init := order[..|order| - 1];
      var last := order[|order| - 1];
      assert order == init + [last];
      assert Distinct(init);
      assert last !in init;
      FanoutOncePerConnection(init, handle, notify, indicate, call);
    }
  }

  /** Every call of the fan-out is a notification or an indication of `handle` to one of `order`. */
  lemma {:induction false} FanoutTargets(order: seq<ConnHandle>, handle: AttrHandle, notify: bool, indicate: bool)
    ensures forall call :: call in Fanout(order, handle, notify, indicate) ==>
      ((call.GattsNotify? && notify) || (call.GattsIndicate? && indicate))
      && call.valueHandle == handle && call.connHandle in order
  {
    if order != [] {
      FanoutTargets(order[..|order| - 1], handle, notify, indicate);
    }
  }

  /** With neither flag set there is nothing to send. */
  lemma {:induction false} FanoutSilent(order: seq<ConnHandle>, handle: AttrHandle)
    ensures Fanout(order, handle, false, false) == []
  {
    if order != [] {
      FanoutSilent(order[..|order| - 1], handle);
    }
  }

  /** A non-empty set of connections has a member to visit next. */
  lemma NonEmptyHasMember(s: set<ConnHandle>)
    requires s != {}
    ensures exists c :: c in s
  {
    if forall c :: c !in s {
      assert false;
    }
  }

  class BLESensor {
    /** Value handles of the temperature, humidity and relay characteristics. */
    const tHandle: AttrHandle
    const hHandle: AttrHandle
    const rHandle: AttrHandle
    /** The name put in the advertising payload. */
    const name: string

    var connections: set<ConnHandle>
    /** The local value store of the GATT server; a handle without an entry reads as empty. */
    var attributes: map<AttrHandle, seq<Byte>>
    /** Level last driven on each relay pin; None before the first relay write. */
    var relay1: Option<bool>
    var relay2: Option<bool>
    ghost var log: seq<BleCall>

    /** __init__, from the handles the service registration returned: no connections, advertising started. */
    constructor (th: AttrHandle, hh: AttrHandle, rh: AttrHandle, name: string)
      ensures tHandle == th && hHandle == hh && rHandle == rh
      ensures this.name == if |name| == 0 then DefaultName else name
      ensures connections == {} && attributes == map[] && relay1.None? && relay2.None?
      ensures log == [GapAdvertise(AdvertiseIntervalUs)]
    {
      tHandle, hHandle, rHandle := th, hh, rh;
      connections := {};
      attributes := map[];
      relay1, relay2 := None, None;
      this.name := if |name| == 0 then DefaultName else name;
      log := [GapAdvertise(AdvertiseIntervalUs)];
    }

    /** gatts_read: the stored value of `handle`. */
    function StoredValue(handle: AttrHandle): seq<Byte>
      reads this
    {
      if handle in attributes then attributes[handle] else []
    }

    /** A central's write to `handle`, stored by the stack before it raises the write IRQ. */
    method RemoteWrite(handle: AttrHandle, data: seq<Byte>)
      modifies this`attributes
      ensures attributes == old(attributes)[handle := data]
    {
      attributes := attributes[handle := data];
    }

    /**
     * _irq: a connect adds the connection and a disconnect removes it (Python's
     * set.remove raises for an unknown handle, so it must be present) and
     * advertises again. A non-empty write to the relay characteristic drives
     * both relay pins from the low two bits of its first byte, stores those bits
     * as the single-byte value and notifies the writer. Everything else is ignored.
     */
    method Irq(event: IrqEvent)
      requires event.CentralDisconnect? ==> event.connHandle in connections
      modifies this`connections, this`attributes, this`relay1, this`relay2, this`log
      ensures event.CentralConnect? ==>
        connections == old(connections) + {event.connHandle}
        && attributes == old(attributes) && relay1 == old(relay1) && relay2 == old(relay2) && log == old(log)
      ensures event.CentralDisconnect? ==>
        connections == old(connections) - {event.connHandle}
        && attributes == old(attributes) && relay1 == old(relay1) && relay2 == old(relay2)
        && log == old(log) + [GapAdvertise(AdvertiseIntervalUs)]
      ensures event.GattsIndicateDone? || event.OtherEvent?
        || (event.GattsWrite? && (event.attrHandle != rHandle || RelayBits(old(StoredValue(rHandle))).None?))
        ==> unchanged(this)
      ensures event.GattsWrite? && event.attrHandle == rHandle && RelayBits(old(StoredValue(rHandle))).Some? ==>
        var bits := RelayBits(old(StoredValue(rHandle))).value;
        && connections == old(connections)
        && relay1 == Some(bits & 0x1 != 0) && relay2 == Some(bits & 0x2 != 0)
        && attributes == old(attributes)[rHandle := [bits]]
        && log == old(log) + [GattsNotify(event.connHandle, rHandle)]
    {
      match event
      case CentralConnect(connHandle) =>
        connections := connections + {connHandle};
      case CentralDisconnect(connHandle) =>
        connections := connections - {connHandle};
        Advertise();
      case GattsIndicateDone(_, _, _) =>
      case GattsWrite(connHandle, attrHandle) =>
        if attrHandle == rHandle {
          var data := StoredValue(attrHandle);
          var bits: Option<Byte> := None;
          if |data| > 0 {
            bits := Some(data[0] & 0x3);
          }
          if bits.Some? {
            relay1 := Some(bits.value & 0x1 != 0);
            relay2 := Some(bits.value & 0x2 != 0);
            attributes := attributes[attrHandle := [bits.value]];
            log := log + [GattsNotify(connHandle, attrHandle)];
          }
        }
      case OtherEvent(_) =>
    }

    /** _advertise: start advertising with the default interval. */
    method Advertise()
      modifies this`log
      ensures log == old(log) + [GapAdvertise(AdvertiseIntervalUs)]
    {
      log := log + [GapAdvertise(AdvertiseIntervalUs)];
    }

    /**
     * _update_i16_value: store `value` as two little-endian bytes, then, if
     * asked to, notify and/or indicate every tracked connection once. The
     * ghost `order` is the order in which the connection set was visited.
     * struct.pack('<h') rejects a value outside the Int16 range.
     */
    method UpdateI16Value(handle: AttrHandle, value: int, notify: bool, indicate: bool)
      returns (ghost order: seq<ConnHandle>)
      requires -0x8000 <= value < 0x8000
      modifies this`attributes, this`log
      ensures attributes == old(attributes)[handle := PackI16LE(value as Int16)]
      ensures notify || indicate ==> Distinct(order) && forall c :: c in order <==> c in connections
      ensures !(notify || indicate) ==> order == []
      ensures log == old(log) + Fanout(order, handle, notify, indicate)
    {
      var bytes := PackI16LE(value as Int16);
      attributes := attributes[handle := bytes];
      order := [];
      if notify || indicate {
        var remaining := connections;
        while remaining != {}
          invariant remaining <= connections
          invariant attributes == old(attributes)[handle := bytes]
          invariant forall c :: c in order ==> c in connections && c !in remaining
          invariant forall c :: c in connections ==> c in order || c in remaining
          invariant Distinct(order)
          invariant log == old(log) + Fanout(order, handle, notify, indicate)
          decreases remaining
        {
          NonEmptyHasMember(remaining);
          var connHandle :| connHandle in remaining;
          FanoutSnoc(order, connHandle, handle, notify, indicate);
          DistinctSnoc(order, connHandle);
          ghost var notified: seq<BleCall> := if notify then [GattsNotify(connHandle, handle)] else [];
          ghost var indicated: seq<BleCall> := if indicate then [GattsIndicate(connHandle, handle)] else [];
          AppendRegroup(old(log), Fanout(order, handle, notify, indicate), notified, indicated);
          if notify {
            log := log + [GattsNotify(connHandle, handle)];
          }
          if indicate {
            log := log + [GattsIndicate(connHandle, handle)];
          }
          assert log == old(log) + Fanout(order, handle, notify, indicate) + notified + indicated;
          order := order + [connHandle];
          remaining := remaining - {connHandle};
        }
      }
    }
  }
}
