/**
 * The wire codec of the iOS client (PeripheralManager.swift): decoding the
 * little-endian Int16 of a sensor characteristic and packing / unpacking the
 * relay bit vector of the relay characteristic.
 */
module ClientCodec {
  import opened Gatt
  import opened Wrappers

  /** Number of relays on the device; hard-coded because the hardware cannot be queried for it. */
  const RelayCount: nat := 2

  /** Number of bytes needed for `n` packed bits, rounded up. */
  function ByteCount(n: nat): nat {
    (n + 7) / 8
  }

  /** Bit `k` (0 is the least significant) of `b`. */
  predicate BitSet(b: Byte, k: nat)
    requires k < 8
  {
    b & ((1 as Byte) << k) != 0
  }

  /** `x << n` on Swift's UInt8 with an Int shift count: a shift by 8 or more gives 0. */
  function SmartShiftLeft(x: Byte, n: nat): Byte {
    if n >= 8 then 0 else x << n
  }

  // ---------------------------------------------------------------------------
  // Int16 decoding (dataToInt16)
  // ---------------------------------------------------------------------------

  /**
   * Loads an Int16 from the first two bytes of a characteristic value, in the
   * little-endian byte order of the iOS hosts. Fewer than two bytes is a load
   * past the end of the buffer, so the caller must supply at least two; any
   * further bytes are not looked at.
   */
  function DataToInt16(data: seq<Byte>): (r: Int16)
    requires |data| >= 2
    ensures ToUnsigned(r) == LittleEndian16(data[0], data[1])
  {
    ToSigned(LittleEndian16(data[0], data[1]))
  }

  /** Only the first two bytes of the value matter. */
  lemma DataToInt16IgnoresTrailingBytes(data: seq<Byte>, trailing: seq<Byte>)
    requires |data| >= 2
    ensures DataToInt16(data + trailing) == DataToInt16(data[..2])
  {
    assert (data + trailing)[0] == data[..2][0] && (data + trailing)[1] == data[..2][1];
  }

  /** The sign is the top bit of the second byte. */
  lemma DataToInt16Sign(data: seq<Byte>)
    requires |data| >= 2
    ensures DataToInt16(data) < 0 <==> data[1] & 0x80 != 0
  {
    assert data[1] & 0x80 != 0 <==> data[1] as int >= 0x80;
  }

  /** 0x0939 = 2361 hundredths of a degree, and 0xFFFF is -1 in two's complement. */
  lemma DataToInt16Examples()
    ensures DataToInt16([0x39, 0x09]) == 2361
    ensures DataToInt16([0xFF, 0xFF]) == -1
  {
  }

  // ---------------------------------------------------------------------------
  // Relay packing (setRelayState)
  // ---------------------------------------------------------------------------

  /**
   * The packed buffer after the loop of setRelayState has handled bit indices
   * 0 .. k-1: bit `bitIndex` is OR-ed into byte `bitIndex / 8`, shifted left by
   * `bitIndex` itself (not `bitIndex % 8`).
   */
  function PackPrefix(relays: seq<bool>, k: nat): (packed: seq<Byte>)
    requires k <= |relays|
    ensures |packed| == ByteCount(|relays|)
  {
    if k == 0 then
      seq(ByteCount(|relays|), _ => 0)
    else
      var prev := PackPrefix(relays, k - 1);
      var byteIndex := (k - 1) / 8;
      prev[byteIndex := prev[byteIndex] | SmartShiftLeft(if relays[k - 1] then 1 else 0, k - 1)]
  }

  /** The payload that setRelayState writes for the relay vector `relays`. */
  function Pack(relays: seq<bool>): seq<Byte> {
    PackPrefix(relays, |relays|)
  }

  /** The loop of setRelayState that fills `packedBits`. */
  method PackRelays(relays: seq<bool>) returns (packed: seq<Byte>)
    ensures packed == Pack(relays)
    ensures |packed| == ByteCount(|relays|)
  {
    var byteCount := (|relays| + 7) / 8;
    var packedBits := new Byte[byteCount](_ => 0);
    for bitIndex := 0 to |relays|
      invariant packedBits[..] == PackPrefix(relays, bitIndex)
    {
      var byteIndex := bitIndex / 8;
      ghost var prev := packedBits[..];
      packedBits[byteIndex] := packedBits[byteIndex] | SmartShiftLeft(if relays[bitIndex] then 1 else 0, bitIndex);
      assert packedBits[..] == prev[byteIndex := packedBits[byteIndex]];
    }
    packed := packedBits[..];
  }

  /** OR-ing a single bit `j` into a byte sets bit `j` and leaves every other bit alone. */
  lemma OrBit(b: Byte, v: bool, j: nat, i: nat)
    requires j < 8 && i < 8
    ensures BitSet(b | SmartShiftLeft(if v then 1 else 0, j), i) == (BitSet(b, i) || (v && i == j))
  {
  }

  /** Bytes other than byte 0 stay 0 in every loop pass: the bit an index of 8 or more would set is shifted out. */
  lemma {:induction false} PackPrefixHighBytes(relays: seq<bool>, k: nat, b: nat)
    requires k <= |relays| && 1 <= b < ByteCount(|relays|)
    ensures PackPrefix(relays, k)[b] == 0
  {
    if k > 0 {
      PackPrefixHighBytes(relays, k - 1, b);
    }
  }

  /** After the first k loop passes, bit i < 8 of byte 0 holds relays[i] exactly when i < k. */
  lemma {:induction false} PackPrefixLowByte(relays: seq<bool>, k: nat, i: nat)
    requires 0 < |relays| && k <= |relays| && i < 8
    ensures BitSet(PackPrefix(relays, k)[0], i) == (i < k && relays[i])
  {
    if k > 0 {
      PackPrefixLowByte(relays, k - 1, i);
      var prev := PackPrefix(relays, k - 1);
      if k - 1 < 8 {
        assert (k - 1) / 8 == 0;
        OrBit(prev[0], relays[k - 1], k - 1, i);
      } else {
        assert (k - 1) / 8 != 0;
        assert PackPrefix(relays, k)[0] == prev[0];
      }
    }
  }

  /** Encoding n relays gives ceil(n/8) bytes; byte 0 carries relays 0..7, LSB first; the rest are 0. */
  lemma PackLayout(relays: seq<bool>)
    ensures |Pack(relays)| == ByteCount(|relays|)
    ensures forall b :: 1 <= b < |Pack(relays)| ==> Pack(relays)[b] == 0
    ensures forall i :: 0 <= i < |relays| && i < 8 ==> BitSet(Pack(relays)[0], i) == relays[i]
    ensures forall i :: 0 < |relays| <= i < 8 ==> !BitSet(Pack(relays)[0], i)
  {
    forall b | 1 <= b < |Pack(relays)| ensures Pack(relays)[b] == 0 {
      PackPrefixHighBytes(relays, |relays|, b);
    }
    forall i | 0 <= i < 8 && 0 < |relays| ensures BitSet(Pack(relays)[0], i) == (i < |relays| && relays[i]) {
      PackPrefixLowByte(relays, |relays|, i);
    }
  }

  // ---------------------------------------------------------------------------
  // Relay unpacking (readRelays)
  // ---------------------------------------------------------------------------

  /**
   * The relay vector of length `count` read from a relay characteristic value:
   * entry i is bit i % 8 of byte i / 8; a missing value, or a byte beyond the
   * end of the value, reads as false.
   */
  function UnpackRelays(data: Option<seq<Byte>>, count: nat): (bits: seq<bool>)
    ensures |bits| == count
  {
    seq(count, i requires 0 <= i < count =>
      data.Some? && i / 8 < |data.value| && BitSet(data.value[i / 8], i % 8))
  }

  /** Unpacking a packed vector gives back relay i for i < 8 and false from index 8 on. */
  lemma PackThenUnpackAt(relays: seq<bool>, i: nat)
    requires i < |relays|
    ensures UnpackRelays(Some(Pack(relays)), |relays|)[i] == (i < 8 && relays[i])
  {
    if i < 8 {
      PackPrefixLowByte(relays, |relays|, i);
    } else {
      PackPrefixHighBytes(relays, |relays|, i / 8);
    }
  }

  /** Round trip: a vector of at most 8 relays survives packing and unpacking. */
  lemma PackUnpackRoundTrip(relays: seq<bool>)
    requires |relays| <= 8
    ensures UnpackRelays(Some(Pack(relays)), |relays|) == relays
  {
    forall i | 0 <= i < |relays|
      ensures UnpackRelays(Some(Pack(relays)), |relays|)[i] == relays[i]
    {
      PackThenUnpackAt(relays, i);
    }
  }

  /** Relay 8 of a nine-relay vector is lost: the shift by 8 yields 0. */
  lemma NinthRelayIsDropped()
    ensures Pack([false, false, false, false, false, false, false, false, true]) == [0, 0]
  {
    var v := [false, false, false, false, false, false, false, false, true];
    PackLayout(v);
    var p := Pack(v);
    assert p[1] == 0;
    assert forall i :: 0 <= i < 8 ==> !BitSet(p[0], i);
    assert p[0] == 0 by {
      assert !BitSet(p[0], 0) && !BitSet(p[0], 1) && !BitSet(p[0], 2) && !BitSet(p[0], 3);
      assert !BitSet(p[0], 4) && !BitSet(p[0], 5) && !BitSet(p[0], 6) && !BitSet(p[0], 7);
    }
  }

  /** Bytes past the first ceil(count/8) never influence the decoded vector. */
  lemma UnpackIgnoresExtraBytes(data: seq<Byte>, extra: seq<Byte>, count: nat)
    requires ByteCount(count) <= |data|
    ensures UnpackRelays(Some(data + extra), count) == UnpackRelays(Some(data), count)
  {
    forall i | 0 <= i < count
      ensures UnpackRelays(Some(data + extra), count)[i] == UnpackRelays(Some(data), count)[i]
    {
      assert i / 8 < |data|;
      assert (data + extra)[i / 8] == data[i / 8];
    }
  }
}
