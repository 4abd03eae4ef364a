/**
 * The client's session with the sensor (PeripheralManager.swift): a
 * PeripheralManager object whose fields are changed by the central-manager and
 * peripheral delegate callbacks, one method per callback.
 *
 * The radio stack is not modelled. What the code reads from it is passed in:
 * whether the central is powered on, and the values the stack holds for the
 * characteristics. What the code asks of it is appended to the ghost `trace`.
 */
module PeripheralSession {
  import opened Gatt
  import opened Wrappers
  import opened ClientCodec

  const EnvironmentalSensingServiceUUID: Uuid := Uuid16(0x181A)
  const TemperatureCharacteristicUUID: Uuid := Uuid16(0x2A6E)
  const HumidityCharacteristicUUID: Uuid := Uuid16(0x2A6F)
  const RelayCharacteristicUUID: Uuid := Uuid128("E04E0525-ECBC-4E2C-AAB6-A3EC009506C6")

  const RequiredServices: seq<Uuid> := [EnvironmentalSensingServiceUUID]
  const RequiredCharacteristics: seq<Uuid> :=
    [TemperatureCharacteristicUUID, HumidityCharacteristicUUID, RelayCharacteristicUUID]

  /** A discovered peripheral: an identity and the name it advertises, if any. */
  datatype Peripheral = Peripheral(id: nat, name: Option<string>)

  /** A characteristic object of the radio stack: an identity and its UUID. */
  datatype Characteristic = Characteristic(id: nat, uuid: Uuid)

  /** A service of a peripheral with the characteristics discovered so far (None before discovery). */
  datatype Service = Service(id: nat, uuid: Uuid, characteristics: Option<seq<Characteristic>>)

  datatype WriteType = WithResponse | WithoutResponse

  /** A request the client makes of the radio stack. */
  datatype RadioCall =
    | ScanForPeripherals(services: seq<Uuid>)
    | StopScan
    | Connect(peripheral: Peripheral)
    | DiscoverServices(peripheral: Peripheral, serviceUuids: seq<Uuid>)
    | DiscoverCharacteristics(peripheral: Peripheral, characteristicUuids: seq<Uuid>, service: Service)
    | SetNotifyValue(peripheral: Peripheral, enabled: bool, characteristic: Characteristic)
    | WriteValue(peripheral: Peripheral, data: seq<Byte>, characteristic: Characteristic, writeType: WriteType)

  /** The current value the radio stack holds for `c` (`characteristic.value`). */
  function ValueOf(c: Characteristic, values: map<Characteristic, seq<Byte>>): Option<seq<Byte>> {
    if c in values then Some(values[c]) else None
  }

  /** The UUIDs the characteristic-discovery callback binds a handle for. */
  predicate IsRequired(uuid: Uuid) {
    uuid == TemperatureCharacteristicUUID || uuid == HumidityCharacteristicUUID || uuid == RelayCharacteristicUUID
  }

  function Characteristics(service: Service): seq<Characteristic> {
    service.characteristics.GetOr([])
  }

  /** The characteristics of all services, in order. */
  function AllCharacteristics(services: seq<Service>): seq<Characteristic> {
    if services == [] then []
    else AllCharacteristics(services[..|services| - 1]) + Characteristics(services[|services| - 1])
  }

  /** The handle bound for `uuid` after visiting `cs` in order, starting from `current`. */
  function Bind(cs: seq<Characteristic>, uuid: Uuid, current: Option<Characteristic>): Option<Characteristic> {
    if cs == [] then current
    else if cs[|cs| - 1].uuid == uuid then Some(cs[|cs| - 1])
    else Bind(cs[..|cs| - 1], uuid, current)
  }

  /** The subscriptions issued while visiting `cs` in order. */
  function Subscriptions(p: Peripheral, cs: seq<Characteristic>): seq<RadioCall> {
    if cs == [] then []
    else
      var c := cs[|cs| - 1];
      Subscriptions(p, cs[..|cs| - 1]) + (if IsRequired(c.uuid) then [SetNotifyValue(p, true, c)] else [])
  }

  /** Visiting one more service appends its characteristics. */
  lemma AllCharacteristicsStep(ss: seq<Service>, i: nat)
    requires i < |ss|
    ensures AllCharacteristics(ss[..i + 1]) == AllCharacteristics(ss[..i]) + Characteristics(ss[i])
  {
    assert ss[..i + 1][..i] == ss[..i];
  }

  /** Visiting one more characteristic: it is bound if it has the UUID, else the binding stays. */
  lemma BindStep(seen: seq<Characteristic>, c: Characteristic, uuid: Uuid, current: Option<Characteristic>)
    ensures Bind(seen + [c], uuid, current) == (if c.uuid == uuid then Some(c) else Bind(seen, uuid, current))
  {
    assert (seen + [c])[..|seen|] == seen;
  }

  /** Regrouping a concatenation of three radio logs. */
  lemma AppendRegroup(a: seq<RadioCall>, b: seq<RadioCall>, c: seq<RadioCall>)
    ensures a + b + c == a + (b + c)
  {
  }

  /** Visiting one more characteristic subscribes to it if it is a required one. */
  lemma SubscriptionsStep(p: Peripheral, seen: seq<Characteristic>, c: Characteristic)
    ensures Subscriptions(p, seen + [c])
         == Subscriptions(p, seen) + (if IsRequired(c.uuid) then [SetNotifyValue(p, true, c)] else [])
  {
    assert (seen + [c])[..|seen|] == seen;
  }

  /** With no characteristic of that UUID, the handle keeps its previous binding. */
  lemma {:induction false} BindWithoutMatch(cs: seq<Characteristic>, uuid: Uuid, current: Option<Characteristic>)
    requires forall k :: 0 <= k < |cs| ==> cs[k].uuid != uuid
    ensures Bind(cs, uuid, current) == current
  {
    if cs != [] {
      BindWithoutMatch(cs[..|cs| - 1], uuid, current);
    }
  }

  /** Otherwise the handle is the last characteristic of that UUID. */
  lemma {:induction false} BindLastMatch(cs: seq<Characteristic>, uuid: Uuid, current: Option<Characteristic>, k: nat)
    requires k < |cs| && cs[k].uuid == uuid
    requires forall j :: k < j < |cs| ==> cs[j].uuid != uuid
    ensures Bind(cs, uuid, current) == Some(cs[k])
  {
    if k < |cs| - 1 {
      BindLastMatch(cs[..|cs| - 1], uuid, current, k);
    }
  }

  /** A handle is only ever bound to a visited characteristic of the handle's own UUID. */
  lemma {:induction false} BindMatches(cs: seq<Characteristic>, uuid: Uuid, current: Option<Characteristic>)
    ensures Bind(cs, uuid, current) == current
         || (Bind(cs, uuid, current).Some? && Bind(cs, uuid, current).value in cs
             && Bind(cs, uuid, current).value.uuid == uuid)
  {
    if cs != [] && cs[|cs| - 1].uuid != uuid {
      BindMatches(cs[..|cs| - 1], uuid, current);
    }
  }

  /** Exactly the visited characteristics with a required UUID are subscribed, all on `p`. */
  lemma {:induction false} SubscriptionsExact(p: Peripheral, cs: seq<Characteristic>, c: Characteristic)
    ensures SetNotifyValue(p, true, c) in Subscriptions(p, cs) <==> c in cs && IsRequired(c.uuid)
    ensures forall call :: call in Subscriptions(p, cs) ==>
      call.SetNotifyValue? && call.peripheral == p && call.enabled
      && call.characteristic in cs && IsRequired(call.characteristic.uuid)
  {
    if cs != [] {
      SubscriptionsExact(p, cs[..|cs| - 1], c);
      assert cs == cs[..|cs| - 1] + [cs[|cs| - 1]];
    }
  }

  class PeripheralManager {
    var isConnected: bool
    var peripheralName: Option<string>
    /** Raw temperature reading in hundredths of a degree. */
    var temperature: Option<Int16>
    /** Raw humidity reading in hundredths of a percent. */
    var humidity: Option<Int16>
    var relays: seq<bool>

    var connectedPeripheral: Option<Peripheral>
    var tempCharacteristic: Option<Characteristic>
    var humidityCharacteristic: Option<Characteristic>
    var relayCharacteristic: Option<Characteristic>

    /** Whether the central manager has a scan running. */
    var isScanning: bool
    /** Every request made of the radio stack, oldest first. */
    ghost var trace: seq<RadioCall>

    /** The relay vector is empty until the first value update, and has RelayCount entries after it. */
    ghost predicate Valid()
      reads this`relays
    {
      |relays| == 0 || |relays| == RelayCount
    }

    constructor ()
      ensures Valid()
      ensures !isConnected && peripheralName.None? && temperature.None? && humidity.None? && relays == []
      ensures connectedPeripheral.None? && tempCharacteristic.None? && humidityCharacteristic.None?
      ensures relayCharacteristic.None? && !isScanning && trace == []
    {
      isConnected := false;
      peripheralName, temperature, humidity := None, None, None;
      relays := [];
      connectedPeripheral := None;
      tempCharacteristic, humidityCharacteristic, relayCharacteristic := None, None, None;
      isScanning := false;
      trace := [];
    }

    /** startScan: scan for the sensing service only if the radio is on and no session is up. */
    method StartScan(poweredOn: bool)
      modifies this`isScanning, this`trace
      ensures if poweredOn && !isConnected
        then isScanning && trace == old(trace) + [ScanForPeripherals(RequiredServices)]
        else isScanning == old(isScanning) && trace == old(trace)
    {
      if poweredOn && !isConnected {
        isScanning := true;
        trace := trace + [ScanForPeripherals(RequiredServices)];
      }
    }

    /** centralManagerDidUpdateState: re-evaluate scanning on every radio state change. */
    method DidUpdateState(poweredOn: bool)
      modifies this`isScanning, this`trace
      ensures if poweredOn && !isConnected
        then isScanning && trace == old(trace) + [ScanForPeripherals(RequiredServices)]
        else isScanning == old(isScanning) && trace == old(trace)
    {
      StartScan(poweredOn);
    }

    /**
     * centralManager(_:didDiscover:): unless a session is up, connect to the
     * peripheral, stop scanning and record it. A second discovery that arrives
     * before the connection completes is handled the same way.
     */
    method DidDiscover(peripheral: Peripheral)
      modifies this`peripheralName, this`connectedPeripheral, this`isScanning, this`trace
      ensures if old(isConnected)
        then peripheralName == old(peripheralName) && connectedPeripheral == old(connectedPeripheral)
             && isScanning == old(isScanning) && trace == old(trace)
        else peripheralName == peripheral.name && connectedPeripheral == Some(peripheral)
             && !isScanning && trace == old(trace) + [Connect(peripheral), StopScan]
    {
      if !isConnected {
        trace := trace + [Connect(peripheral)];
        isScanning := false;
        trace := trace + [StopScan];
        peripheralName := peripheral.name;
        connectedPeripheral := Some(peripheral);
      }
    }

    /** centralManager(_:didConnect:): mark connected and discover the sensing service. */
    method DidConnect(peripheral: Peripheral)
      modifies this`isConnected, this`trace
      ensures isConnected
      ensures trace == old(trace) + [DiscoverServices(peripheral, RequiredServices)]
    {
      isConnected := true;
      trace := trace + [DiscoverServices(peripheral, RequiredServices)];
    }

    /** peripheral(_:didDiscoverServices:): ask for the three characteristics in every service found. */
    method DidDiscoverServices(peripheral: Peripheral, services: Option<seq<Service>>)
      modifies this`trace
      ensures var ss := services.GetOr([]);
        trace == old(trace) + seq(|ss|, i requires 0 <= i < |ss| =>
          DiscoverCharacteristics(peripheral, RequiredCharacteristics, ss[i]))
    {
      var ss := services.GetOr([]);
      ghost var calls := seq(|ss|, i requires 0 <= i < |ss| =>
        DiscoverCharacteristics(peripheral, RequiredCharacteristics, ss[i]));
      for i := 0 to |ss|
        invariant trace == old(trace) + calls[..i]
      {
        assert calls[..i + 1] == calls[..i] + [calls[i]];
        trace := trace + [DiscoverCharacteristics(peripheral, RequiredCharacteristics, ss[i])];
      }
      assert calls[..|ss|] == calls;
    }

    /**
     * peripheral(_:didDiscoverCharacteristicsFor:): visit every characteristic of
     * every service of the peripheral (not only `service`), bind and subscribe
     * those with one of the three required UUIDs and skip the rest.
     */
    method DidDiscoverCharacteristicsFor(peripheral: Peripheral, service: Service, services: Option<seq<Service>>)
      modifies this`tempCharacteristic, this`humidityCharacteristic, this`relayCharacteristic, this`trace
      ensures var cs := AllCharacteristics(services.GetOr([]));
        && tempCharacteristic == Bind(cs, TemperatureCharacteristicUUID, old(tempCharacteristic))
        && humidityCharacteristic == Bind(cs, HumidityCharacteristicUUID, old(humidityCharacteristic))
        && relayCharacteristic == Bind(cs, RelayCharacteristicUUID, old(relayCharacteristic))
        && trace == old(trace) + Subscriptions(peripheral, cs)
    {
      var ss := services.GetOr([]);
      ghost var seen: seq<Characteristic> := [];
      var i := 0;
      while i < |ss|
        invariant 0 <= i <= |ss|
        invariant seen == AllCharacteristics(ss[..i])
        invariant tempCharacteristic == Bind(seen, TemperatureCharacteristicUUID, old(tempCharacteristic))
        invariant humidityCharacteristic == Bind(seen, HumidityCharacteristicUUID, old(humidityCharacteristic))
        invariant relayCharacteristic == Bind(seen, RelayCharacteristicUUID, old(relayCharacteristic))
        invariant trace == old(trace) + Subscriptions(peripheral, seen)
      {
        var cs := Characteristics(ss[i]);
        AllCharacteristicsStep(ss, i);
        var j := 0;
        while j < |cs|
          invariant 0 <= j <= |cs|
          invariant seen == AllCharacteristics(ss[..i]) + cs[..j]
          invariant tempCharacteristic == Bind(seen, TemperatureCharacteristicUUID, old(tempCharacteristic))
          invariant humidityCharacteristic == Bind(seen, HumidityCharacteristicUUID, old(humidityCharacteristic))
          invariant relayCharacteristic == Bind(seen, RelayCharacteristicUUID, old(relayCharacteristic))
          invariant trace == old(trace) + Subscriptions(peripheral, seen)
        {
          var characteristic := cs[j];
          BindStep(seen, characteristic, TemperatureCharacteristicUUID, old(tempCharacteristic));
          BindStep(seen, characteristic, HumidityCharacteristicUUID, old(humidityCharacteristic));
          BindStep(seen, characteristic, RelayCharacteristicUUID, old(relayCharacteristic));
          SubscriptionsStep(peripheral, seen, characteristic);
          AppendRegroup(old(trace), Subscriptions(peripheral, seen),
                        if IsRequired(characteristic.uuid) then [SetNotifyValue(peripheral, true, characteristic)] else []);
          Visit(peripheral, characteristic);
          assert cs[..j + 1] == cs[..j] + [characteristic];
          seen := seen + [characteristic];
          j := j + 1;
        }
        assert cs[..j] == cs;
        i := i + 1;
      }
      assert ss[..i] == ss;
    }

    /** The body of the characteristic loop: bind and subscribe `c` if its UUID is a required one. */
    method Visit(peripheral: Peripheral, c: Characteristic)
      modifies this`tempCharacteristic, this`humidityCharacteristic, this`relayCharacteristic, this`trace
      ensures tempCharacteristic == if c.uuid == TemperatureCharacteristicUUID then Some(c) else old(tempCharacteristic)
      ensures humidityCharacteristic == if c.uuid == HumidityCharacteristicUUID then Some(c) else old(humidityCharacteristic)
      ensures relayCharacteristic == if c.uuid == RelayCharacteristicUUID then Some(c) else old(relayCharacteristic)
      ensures trace == old(trace) + if IsRequired(c.uuid) then [SetNotifyValue(peripheral, true, c)] else []
    {
      if c.uuid == TemperatureCharacteristicUUID {
        tempCharacteristic := Some(c);
        trace := trace + [SetNotifyValue(peripheral, true, c)];
      } else if c.uuid == HumidityCharacteristicUUID {
        humidityCharacteristic := Some(c);
        trace := trace + [SetNotifyValue(peripheral, true, c)];
      } else if c.uuid == RelayCharacteristicUUID {
        relayCharacteristic := Some(c);
        trace := trace + [SetNotifyValue(peripheral, true, c)];
      }
    }

    /** readTemperature: a reading only while connected, with a bound handle that has a value. */
    function ReadTemperature(values: map<Characteristic, seq<Byte>>): (r: Option<Int16>)
      reads this
      requires isConnected && tempCharacteristic.Some? && tempCharacteristic.value in values
               ==> |values[tempCharacteristic.value]| >= 2
      ensures r.Some? <==> isConnected && tempCharacteristic.Some? && tempCharacteristic.value in values
      ensures r.Some? ==> r.value == DataToInt16(values[tempCharacteristic.value])
    {
      if isConnected && tempCharacteristic.Some? && tempCharacteristic.value in values then
        Some(DataToInt16(values[tempCharacteristic.value]))
      else
        None
    }

    /** readHumidity: like readTemperature, but without the isConnected test. */
    function ReadHumidity(values: map<Characteristic, seq<Byte>>): (r: Option<Int16>)
      reads this
      requires humidityCharacteristic.Some? && humidityCharacteristic.value in values
               ==> |values[humidityCharacteristic.value]| >= 2
      ensures r.Some? <==> humidityCharacteristic.Some? && humidityCharacteristic.value in values
      ensures r.Some? ==> r.value == DataToInt16(values[humidityCharacteristic.value])
    {
      if humidityCharacteristic.Some? && humidityCharacteristic.value in values then
        Some(DataToInt16(values[humidityCharacteristic.value]))
      else
        None
    }

    /** readRelays: [] with no relay handle, otherwise RelayCount bits unpacked from the handle's value. */
    method ReadRelays(values: map<Characteristic, seq<Byte>>) returns (bits: seq<bool>)
      ensures relayCharacteristic.None? ==> bits == []
      ensures relayCharacteristic.Some? ==>
        bits == UnpackRelays(ValueOf(relayCharacteristic.value, values), RelayCount)
    {
      if relayCharacteristic.Some? {
        var characteristic := relayCharacteristic.value;
        bits := seq(RelayCount, _ => false);
        ghost var want := UnpackRelays(ValueOf(characteristic, values), RelayCount);
        if characteristic in values {
          var data := values[characteristic];
          for bitIndex := 0 to |bits|
            invariant |bits| == RelayCount
            invariant forall i :: 0 <= i < bitIndex ==> bits[i] == want[i]
            invariant forall i :: bitIndex <= i < RelayCount ==> !bits[i]
          {
            var byteIndex := bitIndex / 8;
            if byteIndex < |data| {
              var byte := data[byteIndex];
              var mask: Byte := (1 as Byte) << (bitIndex % 8);
              bits := bits[bitIndex := (byte & mask) != 0];
            }
          }
        }
        return bits;
      }
      return [];
    }

    /** peripheral(_:didUpdateValueFor:): re-read all three observable readings, whichever handle changed. */
    method DidUpdateValueFor(peripheral: Peripheral, characteristic: Characteristic, values: map<Characteristic, seq<Byte>>)
      requires Valid()
      requires isConnected && tempCharacteristic.Some? && tempCharacteristic.value in values
               ==> |values[tempCharacteristic.value]| >= 2
      requires humidityCharacteristic.Some? && humidityCharacteristic.value in values
               ==> |values[humidityCharacteristic.value]| >= 2
      modifies this`temperature, this`humidity, this`relays
      ensures Valid()
      ensures temperature == ReadTemperature(values) && humidity == ReadHumidity(values)
      ensures relayCharacteristic.None? ==> relays == []
      ensures relayCharacteristic.Some? ==>
        relays == UnpackRelays(ValueOf(relayCharacteristic.value, values), RelayCount)
    {
      temperature := ReadTemperature(values);
      humidity := ReadHumidity(values);
      relays := ReadRelays(values);
    }

    /**
     * centralManager(_:didDisconnectPeripheral:): drop the connection and all
     * three handles in one step, then try to scan again. The name, the readings
     * and the relay vector keep their values.
     */
    method DidDisconnectPeripheral(peripheral: Peripheral, poweredOn: bool)
      modifies this`isConnected, this`connectedPeripheral, this`tempCharacteristic
      modifies this`humidityCharacteristic, this`relayCharacteristic, this`isScanning, this`trace
      ensures !isConnected && connectedPeripheral.None?
      ensures tempCharacteristic.None? && humidityCharacteristic.None? && relayCharacteristic.None?
      ensures peripheralName == old(peripheralName) && relays == old(relays)
      ensures temperature == old(temperature) && humidity == old(humidity)
      ensures isScanning == (poweredOn || old(isScanning))
      ensures trace == old(trace) + (if poweredOn then [ScanForPeripherals(RequiredServices)] else [])
    {
      isConnected := false;
      connectedPeripheral := None;
      tempCharacteristic := None;
      humidityCharacteristic := None;
      relayCharacteristic := None;
      StartScan(poweredOn);
    }

    /**
     * setRelayState: with a bound relay handle and an index inside the vector,
     * set that relay and write the whole packed vector without response. The
     * write goes to the connected peripheral and is skipped if there is none.
     */
    method SetRelayState(index: nat, value: bool)
      requires Valid()
      modifies this`relays, this`trace
      ensures Valid()
      ensures relayCharacteristic.None? || index >= |old(relays)| ==>
        relays == old(relays) && trace == old(trace)
      ensures relayCharacteristic.Some? && index < |old(relays)| ==>
        && relays == old(relays)[index := value]
        && trace == old(trace) + (if connectedPeripheral.None? then [] else
            [WriteValue(connectedPeripheral.value, Pack(relays), relayCharacteristic.value, WithoutResponse)])
      ensures forall call :: call in trace[|old(trace)|..] ==>
        call.WriteValue? && call.writeType == WithoutResponse
        && UnpackRelays(Some(call.data), RelayCount) == relays
    {
      if relayCharacteristic.Some? {
        var characteristic := relayCharacteristic.value;
        if index < |relays| {
          relays := relays[index := value];
          var packedBits := PackRelays(relays);
          PackUnpackRoundTrip(relays);
          if connectedPeripheral.Some? {
            trace := trace + [WriteValue(connectedPeripheral.value, packedBits, characteristic, WithoutResponse)];
          }
        }
      }
    }
  }

  /**
   * Discovery as a caller sees it: two peripherals are discovered before the
   * first connection completes, and the second one replaces the first.
   * Once connected, further discoveries are ignored.
   */
  method DiscoveryScenario()
  {
    var m := new PeripheralManager();
    m.DidUpdateState(true);
    assert m.isScanning;

    var a := Peripheral(1, Some("Pi Pico Sensor"));
    var b := Peripheral(2, None);
    m.DidDiscover(a);
    m.DidDiscover(b);
    assert m.connectedPeripheral == Some(b) && m.peripheralName.None?;
    assert m.trace == [ScanForPeripherals(RequiredServices), Connect(a), StopScan, Connect(b), StopScan];
    m.DidConnect(b);
    m.DidDiscover(a);
    assert m.connectedPeripheral == Some(b) && m.isConnected;
  }

  /** The values of the streaming example decode to 23.61 degrees, -0.01 percent and relays off, on. */
  lemma ReadingExamples(values: map<Characteristic, seq<Byte>>, t: Characteristic, h: Characteristic, r: Characteristic)
    requires t in values && h in values && r in values
    requires values[t] == [0x39, 0x09] && values[h] == [0xFF, 0xFF] && values[r] == [0x02]
    ensures DataToInt16(values[t]) == 2361 && DataToInt16(values[h]) == -1
    ensures UnpackRelays(ValueOf(r, values), RelayCount) == [false, true]
  {
    DataToInt16Examples();
    assert BitSet(0x02, 1) && !BitSet(0x02, 0);
  }

  /** One service holding the three required characteristics and another one binds each handle to its own. */
  lemma BindExample(svc: Service, t: Characteristic, h: Characteristic, other: Characteristic, r: Characteristic)
    requires svc.characteristics == Some([t, h, other, r])
    requires t.uuid == TemperatureCharacteristicUUID && h.uuid == HumidityCharacteristicUUID
    requires r.uuid == RelayCharacteristicUUID && !IsRequired(other.uuid)
    ensures var cs := AllCharacteristics([svc]);
      && Bind(cs, TemperatureCharacteristicUUID, None) == Some(t)
      && Bind(cs, HumidityCharacteristicUUID, None) == Some(h)
      && Bind(cs, RelayCharacteristicUUID, None) == Some(r)
  {
    assert AllCharacteristics([svc]) == [t, h, other, r] by {
      assert [svc][..0] == [];
    }
    BindLastMatch([t, h, other, r], TemperatureCharacteristicUUID, None, 0);
    BindLastMatch([t, h, other, r], HumidityCharacteristicUUID, None, 1);
    BindLastMatch([t, h, other, r], RelayCharacteristicUUID, None, 3);
  }

  /**
   * A session as a caller sets it up: scan, connect, and one characteristic
   * discovery that binds the three handles and skips an unrelated characteristic.
   */
  method BoundSession() returns (m: PeripheralManager, p: Peripheral, t: Characteristic, h: Characteristic, r: Characteristic)
    ensures fresh(m) && m.Valid() && m.isConnected && m.connectedPeripheral == Some(p)
    ensures m.tempCharacteristic == Some(t) && m.humidityCharacteristic == Some(h) && m.relayCharacteristic == Some(r)
    ensures t.uuid == TemperatureCharacteristicUUID && h.uuid == HumidityCharacteristicUUID && r.uuid == RelayCharacteristicUUID
  {
    m := new PeripheralManager();
    p := Peripheral(2, None);
    m.DidDiscover(p);
    m.DidConnect(p);

    t := Characteristic(10, TemperatureCharacteristicUUID);
    h := Characteristic(11, HumidityCharacteristicUUID);
    r := Characteristic(12, RelayCharacteristicUUID);
    var other := Characteristic(13, Uuid16(0x2A19));
    var svc := Service(20, EnvironmentalSensingServiceUUID, Some([t, h, other, r]));
    BindExample(svc, t, h, other, r);
    m.DidDiscoverCharacteristicsFor(p, svc, Some([svc]));
  }

  /**
   * Streaming on a bound session: one update refreshes every reading and a
   * relay is switched, while a relay index past the vector is ignored.
   */
  method StreamingScenario() returns (m: PeripheralManager)
    ensures fresh(m) && m.Valid() && m.relayCharacteristic.Some?
    ensures m.temperature == Some(2361) && m.humidity == Some(-1) && m.relays == [true, true]
  {
    var p, t, h, r;
    m, p, t, h, r := BoundSession();
    assert t != h && t != r && h != r;
    var values := map[t := [0x39, 0x09], h := [0xFF, 0xFF], r := [0x02]];
    ReadingExamples(values, t, h, r);
    m.DidUpdateValueFor(p, t, values);
    assert m.temperature == Some(2361) && m.humidity == Some(-1);
    assert m.relays == [false, true];

    m.SetRelayState(0, true);
    assert m.relays == [true, true];
    m.SetRelayState(2, false);
  }

  /** After the link drops the readings stay, and relay commands are ignored. */
  method DisconnectScenario() {
    var m := StreamingScenario();
    m.DidDisconnectPeripheral(m.connectedPeripheral.GetOr(Peripheral(2, None)), true);
    assert !m.isConnected && m.relayCharacteristic.None?;
    assert m.temperature == Some(2361) && m.relays == [true, true];
    m.SetRelayState(0, false);
    assert m.relays == [true, true];
  }
}
