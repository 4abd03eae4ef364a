# PicoSensorApp link model

A Dafny model of both ends of the PicoSensorApp BLE link, with proofs about it.

- **Client.** `PicoSensorApp/PeripheralManager.swift` is the iOS `PeripheralManager`. It scans for the environmental-sensing service and connects to the first peripheral it sees. It binds and subscribes the temperature, humidity and relay characteristics. From their values it decodes the readings and the relay vector, and it writes relay commands back.
- **Firmware.** `SensorFirmware/main.py` is the MicroPython `BLESensor` on the Pico. Its IRQ handler tracks connections and serves relay writes. It stores each Int16 reading and notifies every connection.

Modules:

- `Gatt` (gatt.dfy) and `Wrappers` (wrappers.dfy): the shared types. These are bytes (`bv8`), a two's-complement `Int16` newtype with its conversions to and from the unsigned 16-bit pattern, GATT UUIDs and `Option`.
- `ClientCodec` (client_codec.dfy): the client's wire codec.
  - `DataToInt16` decodes the little-endian Int16 (dataToInt16).
  - `Pack`/`PackRelays` pack the relay vector as setRelayState's loop does.
  - `UnpackRelays` unpacks it as readRelays does.
- `PeripheralSession` (peripheral_session.dfy): the class `PeripheralManager`. It has the session fields and one method per delegate callback. Scenario methods (`DiscoveryScenario`, `BoundSession`, `StreamingScenario`, `DisconnectScenario`) drive it as a caller would.
- `SensorFirmware` (sensor_firmware.dfy): the class `BLESensor`.
  - The method `Irq` is `_irq`.
  - The method `UpdateI16Value` is `_update_i16_value`.
  - The functions `PackI16LE` and `RelayBits` are the byte-level encoders.
- `WireFormat` (wire_format.dfy): lemmas that join the two ends.

How the radio is modelled:

- **Client inputs.** Whether the central is powered on is a parameter of the events that call `startScan`. The values the radio stack holds for characteristics (`characteristic.value`) are a `map<Characteristic, seq<Byte>>` passed to `DidUpdateValueFor`. A missing entry means the value is nil.
- **Client outputs.** Every request to CoreBluetooth is appended to the ghost `trace`: scan, stopScan, connect, discoverServices, discoverCharacteristics, setNotifyValue, writeValue. `isScanning` stands for the central's scan state.
- **Firmware state.** The GATT attribute store is the field `attributes`. The two relay pins are `relay1` and `relay2`. Notify, indicate and advertise requests are appended to the ghost `log`. `RemoteWrite` stands for the stack storing a central's write before it raises the write IRQ.
- **Events.** Events arrive one at a time.

Temperature and humidity are kept as the raw Int16 in hundredths.

## Where the code and the design description differ

The model follows the code in each case.

- **Relay packing.** The design promises a pack/unpack round trip for vectors of up to 64 relays.
  - The code shifts by `bitIndex`, not `bitIndex % 8` (PeripheralManager.swift:120). Swift's `<<` gives 0 for a shift of 8 or more.
  - So only bits 0–7 survive, and every byte after the first stays 0.
  - The round trip holds only up to 8 relays (`PackThenUnpackAt`, `NinthRelayIsDropped`).
  - `relays` is always empty or `RelayCount` = 2 long, so this is latent in the current build.
- **First responder.** The design says only the first discovery is connected to.
  - The code guards only on `isConnected`, which is set by didConnect.
  - A second discovery before the connection completes connects again and replaces `connectedPeripheral` and `peripheralName` (`DiscoveryScenario`).
- **Disconnect.** The design says the observable state resets on disconnect. The code clears `isConnected` and the four references, and keeps the name, the readings and the relay vector (`DidDisconnectPeripheral`, `DisconnectScenario`).
- **Relay writes.** The design requires a streaming session for relay writes.
  - The code checks only that a relay handle is bound, and that the index is below `relays.count`, not `RelayCount`.
  - `relays` stays `[]` until the first value update, so until then every command is ignored.
  - The write uses `connectedPeripheral?.`, so it is skipped, though `relays` still changes, when no peripheral is recorded.
- **Readings.** The humidity reading does not test `isConnected`; the temperature reading does.

## Model

| member | source | states |
|---|---|---|
| ClientCodec.DataToInt16 | PicoSensorApp/PeripheralManager.swift:127-132 | needs at least 2 bytes; the two's-complement bit pattern of the resulting Int16 is the little-endian number b0 + 256·b1 |
| Gatt.ToSigned | PicoSensorApp/PeripheralManager.swift:129 | reading a 16-bit pattern as an Int16 gives the value whose two's-complement pattern it is; it is negative exactly when the pattern is 0x8000 or more |
| Gatt.SignedUnsignedInverse | PicoSensorApp/PeripheralManager.swift:129 | taking an Int16's two's-complement pattern and reading it back as an Int16 is the identity |
| ClientCodec.DataToInt16IgnoresTrailingBytes | PicoSensorApp/PeripheralManager.swift:127-132 | bytes after the first two do not change the result |
| ClientCodec.DataToInt16Sign | PicoSensorApp/PeripheralManager.swift:127-132 | the result is negative exactly when the top bit of byte 1 is set |
| ClientCodec.DataToInt16Examples | PicoSensorApp/PeripheralManager.swift:127-132 | [0x39, 0x09] decodes to 2361 (23.61 degrees) and [0xFF, 0xFF] to -1 |
| ClientCodec.PackPrefix | PicoSensorApp/PeripheralManager.swift:116-121 | after every pass of the packing loop the buffer still has (n+7)/8 bytes |
| ClientCodec.PackRelays | PicoSensorApp/PeripheralManager.swift:116-121 | the in-place loop over a zero-filled buffer of (n+7)/8 bytes yields exactly Pack(relays) |
| ClientCodec.PackPrefixHighBytes | PicoSensorApp/PeripheralManager.swift:118-120 | every byte after byte 0 stays 0 in every loop pass, because a shift by 8 or more is 0 |
| ClientCodec.PackPrefixLowByte | PicoSensorApp/PeripheralManager.swift:118-120 | after k passes, bit i < 8 of byte 0 is set exactly when i < k and relays[i] |
| ClientCodec.PackLayout | PicoSensorApp/PeripheralManager.swift:116-121 | n relays pack to (n+7)/8 bytes; bit i of byte 0 is relays[i] for i < min(n, 8), the unused high bits and all later bytes are 0 |
| ClientCodec.PackThenUnpackAt | PicoSensorApp/PeripheralManager.swift:118-120 | unpacking a packed vector gives relays[i] for i < 8 and false for every i >= 8 |
| ClientCodec.PackUnpackRoundTrip | PicoSensorApp/PeripheralManager.swift:116-121 | for at most 8 relays, unpacking the packed bytes gives the vector back |
| ClientCodec.NinthRelayIsDropped | PicoSensorApp/PeripheralManager.swift:120 | nine relays with only relay 8 on pack to [0, 0]: the ninth relay is lost |
| ClientCodec.UnpackRelays | PicoSensorApp/PeripheralManager.swift:158-169 | the decoded vector always has exactly `count` entries, whatever the payload |
| ClientCodec.UnpackIgnoresExtraBytes | PicoSensorApp/PeripheralManager.swift:162-168 | bytes beyond ceil(count/8) never affect the decoded vector |
| PeripheralSession.BindWithoutMatch | PicoSensorApp/PeripheralManager.swift:75-93 | with no characteristic of a UUID among those visited, its handle keeps its previous value |
| PeripheralSession.BindLastMatch | PicoSensorApp/PeripheralManager.swift:78-87 | otherwise the handle is the last visited characteristic of that UUID |
| PeripheralSession.BindMatches | PicoSensorApp/PeripheralManager.swift:78-90 | a handle is only ever bound to a visited characteristic carrying the handle's own UUID |
| PeripheralSession.SubscriptionsExact | PicoSensorApp/PeripheralManager.swift:78-90 | setNotifyValue(true) is issued on the peripheral for a characteristic exactly when it was visited and has one of the three required UUIDs, and nothing else is issued |
| PeripheralSession.PeripheralManager.constructor | PicoSensorApp/PeripheralManager.swift:17-40 | starts disconnected, with every optional field nil, no relays, no scan and an empty trace |
| PeripheralSession.PeripheralManager.StartScan | PicoSensorApp/PeripheralManager.swift:42-46 | scans for the sensing service exactly when powered on and not connected; otherwise nothing changes |
| PeripheralSession.PeripheralManager.DidUpdateState | PicoSensorApp/PeripheralManager.swift:48-50 | every radio state change re-runs the scan decision |
| PeripheralSession.PeripheralManager.DidDiscover | PicoSensorApp/PeripheralManager.swift:52-61 | while connected nothing changes; otherwise it connects, stops scanning and records the peripheral and its name |
| PeripheralSession.PeripheralManager.DidConnect | PicoSensorApp/PeripheralManager.swift:63-67 | marks the session connected and asks for the sensing service |
| PeripheralSession.PeripheralManager.DidDiscoverServices | PicoSensorApp/PeripheralManager.swift:69-73 | one characteristic discovery for the three required UUIDs per service found, in order; none for a nil list |
| PeripheralSession.PeripheralManager.DidDiscoverCharacteristicsFor | PicoSensorApp/PeripheralManager.swift:75-93 | over the characteristics of all services, each handle becomes Bind(...) of its UUID, and exactly Subscriptions(...) is issued; other UUIDs are skipped |
| PeripheralSession.PeripheralManager.Visit | PicoSensorApp/PeripheralManager.swift:78-90 | one characteristic: the handle of its UUID (if it is one of the three) becomes it and one setNotifyValue(true) is issued; the other handles stay |
| PeripheralSession.PeripheralManager.ReadTemperature | PicoSensorApp/PeripheralManager.swift:134-144 | a reading exists exactly when connected, the temperature handle is bound and has a value; it is that value's Int16 |
| PeripheralSession.PeripheralManager.ReadHumidity | PicoSensorApp/PeripheralManager.swift:146-154 | a reading exists exactly when the humidity handle is bound and has a value, connected or not |
| PeripheralSession.PeripheralManager.ReadRelays | PicoSensorApp/PeripheralManager.swift:156-174 | [] with no relay handle; otherwise RelayCount entries, entry i being bit i%8 of byte i/8 of the value, false past its end or with no value |
| PeripheralSession.PeripheralManager.DidUpdateValueFor | PicoSensorApp/PeripheralManager.swift:95-99 | whichever characteristic changed, all three readings are re-read; the relay vector stays empty or RelayCount long |
| PeripheralSession.PeripheralManager.DidDisconnectPeripheral | PicoSensorApp/PeripheralManager.swift:101-110 | in one step disconnected with the peripheral and all three handles nil; name, readings and relays unchanged; scanning restarts exactly when powered on |
| PeripheralSession.PeripheralManager.SetRelayState | PicoSensorApp/PeripheralManager.swift:112-125 | no-op without a relay handle or for index >= relays.count; otherwise only relays[index] changes and one write without response of the packed full vector goes to the connected peripheral, and that payload unpacks to the new vector |
| SensorFirmware.PackI16LE | SensorFirmware/main.py:101 | two bytes whose little-endian value (low byte first) is the two's-complement pattern of the Int16 |
| SensorFirmware.RelayBits | SensorFirmware/main.py:88-92 | bits exist exactly when the payload is non-empty, and are byte 0 modulo 4 |
| SensorFirmware.RelayBitsIgnoresTail | SensorFirmware/main.py:91 | bytes after byte 0 of a relay write are ignored |
| SensorFirmware.FanoutOncePerConnection | SensorFirmware/main.py:102-109 | over distinct connections, a notify (an indicate) of a handle is sent exactly once to a connection if notify (indicate) is set, the handle is the updated one and the connection is tracked, and never otherwise |
| SensorFirmware.FanoutTargets | SensorFirmware/main.py:102-109 | every call of the fan-out is a notify or indicate of the updated handle to a tracked connection, and only of a kind that was asked for |
| SensorFirmware.FanoutSilent | SensorFirmware/main.py:102 | with neither flag set nothing is sent |
| SensorFirmware.BLESensor.constructor | SensorFirmware/main.py:54-70 | no connections, name defaults to "Pi Pico Sensor" when empty, advertising started |
| SensorFirmware.BLESensor.RemoteWrite | SensorFirmware/main.py:88 | a central's write is what the store holds when the write IRQ reads it |
| SensorFirmware.BLESensor.Irq | SensorFirmware/main.py:72-96 | connect adds the handle; disconnect (of a tracked handle) removes it and re-advertises; a non-empty relay write sets pin 1 to bit 0 and pin 2 to bit 1 of byte0 & 0x3, stores that one byte and notifies the writer; any other write, an empty one, or another event changes nothing |
| SensorFirmware.BLESensor.Advertise | SensorFirmware/main.py:124-125 | advertises with the 250000 us interval |
| SensorFirmware.BLESensor.UpdateI16Value | SensorFirmware/main.py:99-109 | for a value in the Int16 range, stores exactly PackI16LE(value) and sends Fanout over an enumeration of the connection set |
| PeripheralSession.BindExample | PicoSensorApp/PeripheralManager.swift:76-90 | a service with temperature, humidity, another and relay characteristics binds each handle to its own characteristic |
| PeripheralSession.BoundSession | PicoSensorApp/PeripheralManager.swift:52-90 | scan, connect and one characteristic discovery leave a connected session with all three handles bound |
| PeripheralSession.StreamingScenario | PicoSensorApp/PeripheralManager.swift:95-125 | on a bound session one value update sets every reading, and a relay switch changes that relay while an index past the vector is ignored |
| WireFormat.Int16RoundTrip | SensorFirmware/main.py:101 | the client's dataToInt16 of the firmware's '<h' bytes is the original value |
| WireFormat.Int16BytesRoundTrip | PicoSensorApp/PeripheralManager.swift:127-132 | re-packing a decoded reading gives back its first two bytes |
| WireFormat.RelayWriteEcho | SensorFirmware/main.py:91-96 | the client's packed 2-relay command drives pin 1 from relay 0 and pin 2 from relay 1, and the echoed byte reads back on the client as the same vector |
| WireFormat.SharedIdentifiers | SensorFirmware/main.py:24-39 | both ends use the same service and characteristic UUIDs |

## Left out

- CoreBluetooth itself. This includes `peripheral.delegate = self`, the scan options, and `print` logging. Calls to it are trace entries, and its answers are method parameters.
- The Float scaling. The readings are the raw Int16 hundredths; `Float(r) * 0.01` and the firmware's `int(temp * 100)` are floating point.
- The firmware's hardware and main loop. This covers the DHT22 sensor, `update_measurements`, `_update_temp` and `_update_humi` (float inputs), the LED, `time.sleep_ms` and `advertising_payload`. The `ble_advertising` module is not part of this model.
- `_IRQ_GATTS_INDICATE_DONE` is modelled as an event that changes nothing, as in the code.
- Callback and dispatch-queue concurrency. Events are handled one at a time.
- ContentView.swift and PicoSensorApp.swift. They are SwiftUI presentation only.
- SensorFirmware.BLESensor.UpdateI16Value: states the fan-out over some enumeration of the connection set. Python does not fix the order in which it iterates a set.
- PeripheralSession.PeripheralManager.DidUpdateValueFor: requires each readable temperature or humidity value to be at least 2 bytes long. Swift's `load(as: Int16.self)` on a shorter buffer reads past its end, and that outcome is not modelled.
- ClientCodec.DataToInt16: assumes the little-endian byte order of the iOS hosts that `load(as:)` uses.
- The firmware's initial attribute values and pin levels are left unspecified. The store starts empty, and an unset handle reads as empty. The pins are `None` until the first relay write.
