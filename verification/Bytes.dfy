/** Fixed-width big-endian integers, as `to_be_bytes` and `from_be_bytes` lay them out. */
module Bytes {

  type Byte = x: int | 0 <= x < 256

  /** The UTF-8 bytes of a string. */
  type Text = seq<Byte>

  function Pow256(width: nat): (r: nat)
    ensures r > 0
  {
    if width == 0 then 1 else 256 * Pow256(width - 1)
  }

  function ToBigEndian(value: nat, width: nat): (r: seq<Byte>)
    ensures |r| == width
  {
    if width == 0 then [] else ToBigEndian(value / 256, width - 1) + [value % 256]
  }

  function FromBigEndian(bytes: seq<Byte>): nat {
    if bytes == [] then 0
    else FromBigEndian(bytes[..|bytes| - 1]) * 256 + bytes[|bytes| - 1]
  }

  /** Decoding an encoded integer gives it back. */
  lemma {:induction false} BigEndianRoundTrip(value: nat, width: nat)
    requires value < Pow256(width)
    ensures FromBigEndian(ToBigEndian(value, width)) == value
  {
    if width > 0 {
      var r := ToBigEndian(value, width);
      BigEndianRoundTrip(value / 256, width - 1);
      assert r[..|r| - 1] == ToBigEndian(value / 256, width - 1);
    }
  }

  /** Every byte string of a width encodes exactly one integer below the bound. */
  lemma {:induction false} BigEndianIsOnto(bytes: seq<Byte>)
    ensures FromBigEndian(bytes) < Pow256(|bytes|)
    ensures ToBigEndian(FromBigEndian(bytes), |bytes|) == bytes
  {
    if bytes != [] {
      var init, last := bytes[..|bytes| - 1], bytes[|bytes| - 1];
      BigEndianIsOnto(init);
      var high := FromBigEndian(init);
      assert (high * 256 + last) / 256 == high && (high * 256 + last) % 256 == last;
      assert bytes == init + [last];
    }
  }

  /** The first byte is the most significant one. */
  lemma {:induction false} MostSignificantFirst(first: Byte, rest: seq<Byte>)
    ensures FromBigEndian([first] + rest) == first * Pow256(|rest|) + FromBigEndian(rest)
  {
    if rest == [] {
      assert [first] + rest == [first];
      assert [first][..0] == [];
    } else {
      var n := |rest| - 1;
      assert ([first] + rest)[..n + 1] == [first] + rest[..n];
      MostSignificantFirst(first, rest[..n]);
      assert first * Pow256(|rest|) == first * Pow256(n) * 256;
    }
  }
}
