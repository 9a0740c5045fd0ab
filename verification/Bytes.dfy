/** Fixed-width values and the little-endian words of the wire and of the D area. */
module Bytes {
  type byte = x: int | 0 <= x < 0x100
  type word = x: int | 0 <= x < 0x1_0000
  type bit = x: int | 0 <= x < 2

  datatype Option<+T> = None | Some(value: T)

  // value & 0xFFFF. Euclidean remainder is what Python's mask gives for negative values too.
  function ToU16(value: int): (w: word)
  {
    value % 0x1_0000
  }

  // A byte of a Python bytes object; slices past the end contribute nothing,
  // which a little-endian decoder cannot tell from zero bytes.
  function ByteAt(data: seq<byte>, offset: nat): (b: byte)
  {
    if offset < |data| then data[offset] else 0
  }

  function EncodeU16(value: int): (bytes: seq<byte>)
    ensures |bytes| == 2
    ensures bytes[0] as int + 0x100 * bytes[1] as int == ToU16(value)
  {
    [ToU16(value) % 0x100, ToU16(value) / 0x100]
  }

  function DecodeU16(data: seq<byte>, offset: nat): (w: word)
  {
    ByteAt(data, offset) + 0x100 * ByteAt(data, offset + 1)
  }

  // Concatenated little-endian encodings of a list of words.
  function EncodeWords(values: seq<word>): (bytes: seq<byte>)
    ensures |bytes| == 2 * |values|
  {
    if |values| == 0 then [] else EncodeU16(values[0]) + EncodeWords(values[1..])
  }

  lemma {:induction false} EncodeWordsAt(values: seq<word>, k: nat)
    requires k < |values|
    ensures EncodeWords(values)[2 * k] == values[k] % 0x100
    ensures EncodeWords(values)[2 * k + 1] == values[k] / 0x100
  {
    var head, tail := EncodeU16(values[0]), EncodeWords(values[1..]);
    assert EncodeWords(values) == head + tail;
    if k > 0 {
      EncodeWordsAt(values[1..], k - 1);
      assert (head + tail)[2 * k] == tail[2 * (k - 1)];
      assert (head + tail)[2 * k + 1] == tail[2 * (k - 1) + 1];
    }
  }

  // Signed 32-bit value of two words, low word first.
  function DwordOf(low: word, high: word): (v: int)
  {
    var raw := high * 0x1_0000 + low;
    if raw >= 0x8000_0000 then raw - 0x1_0000_0000 else raw
  }

  function DwordToWords(value: int): (words: seq<word>)
    ensures |words| == 2
  {
    var unsigned := value % 0x1_0000_0000;
    [unsigned % 0x1_0000, unsigned / 0x1_0000]
  }

  // The value a 32-bit register holds after value is stored in it.
  function Wrap32(value: int): (v: int)
  {
    var unsigned := value % 0x1_0000_0000;
    if unsigned >= 0x8000_0000 then unsigned - 0x1_0000_0000 else unsigned
  }

  lemma DwordRoundTrip(value: int)
    ensures DwordOf(DwordToWords(value)[0], DwordToWords(value)[1]) == Wrap32(value)
    ensures -0x8000_0000 <= value < 0x8000_0000 ==> Wrap32(value) == value
    ensures (Wrap32(value) - value) % 0x1_0000_0000 == 0
  {
    if -0x8000_0000 <= value < 0 {
      assert value % 0x1_0000_0000 == value + 0x1_0000_0000;
    }
  }

  function Zeros(n: nat): (z: seq<int>)
    ensures |z| == n
    ensures forall i :: 0 <= i < n ==> z[i] == 0
  {
    seq(n, _ => 0)
  }

  // Everything but the last element of a concatenation.
  lemma FrontOfConcat<T>(a: seq<T>, b: seq<T>)
    requires |b| > 0
    ensures |a + b| > 0 && (a + b)[..|a + b| - 1] == a + b[..|b| - 1] && (a + b)[|a + b| - 1] == b[|b| - 1]
  {
  }
}
