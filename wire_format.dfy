/**
 * Properties that join the two ends of the link: what the firmware writes into
 * its characteristics is what the client decodes, and a relay command from the
 * client reaches the relay pins and is echoed back unchanged.
 */
module WireFormat {
  import opened Gatt
  import opened Wrappers
  import ClientCodec
  import PeripheralSession
  import SensorFirmware

  /** The client's dataToInt16 recovers every value the firmware packs with '<h'. */
  lemma {:induction false} Int16RoundTrip(v: Int16)
    ensures ClientCodec.DataToInt16(SensorFirmware.PackI16LE(v)) == v
  {
    var r := ClientCodec.DataToInt16(SensorFirmware.PackI16LE(v));
    assert ToUnsigned(r) == ToUnsigned(v);
    SignedUnsignedInverse(r);
    SignedUnsignedInverse(v);
  }

  /** Conversely, re-packing a decoded reading gives back its two payload bytes. */
  lemma {:induction false} Int16BytesRoundTrip(data: seq<Byte>)
    requires |data| >= 2
    ensures SensorFirmware.PackI16LE(ClientCodec.DataToInt16(data)) == data[..2]
  {
    var b := SensorFirmware.PackI16LE(ClientCodec.DataToInt16(data));
    ByteRange(data[0]);
    ByteRange(data[1]);
    ByteRange(b[0]);
    ByteRange(b[1]);
    BaseDigitsUnique(b[0] as int, b[1] as int, data[0] as int, data[1] as int);
    ByteInjective(b[0], data[0]);
    ByteInjective(b[1], data[1]);
  }

  /** A number below 0x10000 has one pair of base-256 digits. */
  lemma BaseDigitsUnique(lo: int, hi: int, lo': int, hi': int)
    requires 0 <= lo < 0x100 && 0 <= hi < 0x100 && 0 <= lo' < 0x100 && 0 <= hi' < 0x100
    requires lo + 0x100 * hi == lo' + 0x100 * hi'
    ensures lo == lo' && hi == hi'
  {
  }

  lemma ByteInjective(x: Byte, y: Byte)
    requires x as int == y as int
    ensures x == y
  {
  }

  /**
   * The relay payload the client writes for a RelayCount-long vector drives relay
   * pin 1 from relay 0 and pin 2 from relay 1, and the byte the firmware echoes
   * back reads on the client as the same vector.
   */
  lemma RelayWriteEcho(v: seq<bool>)
    requires |v| == ClientCodec.RelayCount
    ensures SensorFirmware.RelayBits(ClientCodec.Pack(v)).Some?
    ensures var bits := SensorFirmware.RelayBits(ClientCodec.Pack(v)).value;
      && (bits & 0x1 != 0) == v[0]
      && (bits & 0x2 != 0) == v[1]
      && ClientCodec.UnpackRelays(Some([bits]), ClientCodec.RelayCount) == v
  {
    ClientCodec.PackLayout(v);
    var b := ClientCodec.Pack(v)[0];
    assert ClientCodec.BitSet(b, 0) == v[0] && ClientCodec.BitSet(b, 1) == v[1];
    var bits := b & 0x3;
    assert ClientCodec.BitSet(bits, 0) == v[0] && ClientCodec.BitSet(bits, 1) == v[1];
    ghost var back := ClientCodec.UnpackRelays(Some([bits]), ClientCodec.RelayCount);
    assert back[0] == v[0] && back[1] == v[1];
  }

  /** Both ends use the same service and characteristic identifiers. */
  lemma SharedIdentifiers()
    ensures SensorFirmware.EnvSenseUuid in PeripheralSession.RequiredServices
    ensures PeripheralSession.RequiredCharacteristics
         == [SensorFirmware.TempCharUuid, SensorFirmware.HumidCharUuid, SensorFirmware.RelayCharUuid]
  {
  }
}
