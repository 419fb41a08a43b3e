/**
 * Machine integers, byte strings, the little-endian `u32` codec the store uses for its
 * counters, and the shape of the foreign serializers the store calls.
 */
module Encoding {
  import opened Wrappers

  newtype byte = x: int | 0 <= x < 0x100
  newtype u32 = x: int | 0 <= x < 0x1_0000_0000

  type Bytes = seq<byte>

  /** `u32::to_le_bytes`: least significant byte first. */
  function U32ToLe(n: u32): (b: Bytes)
    ensures |b| == 4
  {
    var x := n as int;
    [(x % 0x100) as byte, (x / 0x100 % 0x100) as byte,
     (x / 0x1_0000 % 0x100) as byte, (x / 0x100_0000) as byte]
  }

  /**
   * `u32::from_le_bytes` on the four bytes that `copy_from_slice` accepts. Every four-byte
   * value is the encoding of the number decoded from it.
   */
  function U32FromLe(b: Bytes): (n: u32)
    requires |b| == 4
    ensures U32ToLe(n) == b
  {
    var q1 := b[2] as int + 0x100 * b[3] as int;
    var q0 := b[1] as int + 0x100 * q1;
    var x := b[0] as int + 0x100 * q0;
    assert x % 0x100 == b[0] as int && x / 0x100 == q0;
    assert q0 % 0x100 == b[1] as int && q0 / 0x100 == q1;
    assert q1 % 0x100 == b[2] as int && q1 / 0x100 == b[3] as int;
    assert x / 0x1_0000 == q0 / 0x100;
    assert x / 0x100_0000 == q1 / 0x100;
    x as u32
  }

  /** Decoding what was encoded gives the number back. */
  lemma LeRoundTrip(n: u32)
    ensures U32FromLe(U32ToLe(n)) == n
  {
    var x := n as int;
    var b0, q0 := x % 0x100, x / 0x100;
    var b1, q1 := q0 % 0x100, q0 / 0x100;
    var b2, b3 := q1 % 0x100, q1 / 0x100;
    assert x == b0 + 0x100 * q0;
    assert q0 == b1 + 0x100 * q1;
    assert q1 == b2 + 0x100 * b3;
    assert x / 0x1_0000 == q1;
    assert x / 0x100_0000 == b3;
  }

  /**
   * A serializer paired with its deserializer: `serde_json` for the state document and the
   * contact list, the record types' own `serialize`/`deserialize` for protocol records.
   * Deserializing may fail on malformed bytes.
   */
  datatype Codec<!T> = Codec(encode: T -> Bytes, decode: Bytes -> Option<T>)

  /** What the store relies on: bytes it wrote deserialize to the value it was given. */
  ghost predicate RoundTrips<T(!new)>(c: Codec<T>)
  {
    forall x: T :: c.decode(c.encode(x)) == Some(x)
  }
}
