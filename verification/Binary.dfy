/** Big-endian fields of a byte vector: src/common/memory/binary.hpp. */
module Binary {
  import opened Common

  /** 256 to the power of n: how many values n bytes can hold. */
  function Pow256(n: nat): (p: nat)
    ensures p > 0
  {
    if n == 0 then 1 else 256 * Pow256(n - 1)
  }

  lemma Pow256Values()
    ensures Pow256(1) == U8_LIMIT
    ensures Pow256(4) == U32_MAX + 1
    ensures Pow256(8) == U64_LIMIT
  {
    assert Pow256(2) == 0x1_0000;
    assert Pow256(3) == 0x100_0000;
    assert Pow256(5) == 256 * Pow256(4);
    assert Pow256(6) == 256 * Pow256(5);
    assert Pow256(7) == 256 * Pow256(6);
  }

  /** The n-byte big-endian image of v, most significant byte first. */
  function BigEndian(v: nat, n: nat): (bytes: seq<u8>)
    ensures |bytes| == n
  {
    if n == 0 then [] else BigEndian(v / 256, n - 1) + [v % 256]
  }

  function FromBigEndian(bytes: seq<u8>): (v: nat)
    ensures v < Pow256(|bytes|)
  {
    if bytes == [] then 0
    else 256 * FromBigEndian(bytes[..|bytes| - 1]) + bytes[|bytes| - 1]
  }

  lemma {:induction false} DecodesWhatWasEncoded(v: nat, n: nat)
    requires v < Pow256(n)
    ensures FromBigEndian(BigEndian(v, n)) == v
  {
    if n > 0 {
      DecodesWhatWasEncoded(v / 256, n - 1);
      assert BigEndian(v, n)[..n - 1] == BigEndian(v / 256, n - 1);
    }
  }

  lemma {:induction false} EncodesWhatWasDecoded(bytes: seq<u8>)
    ensures BigEndian(FromBigEndian(bytes), |bytes|) == bytes
  {
    if bytes != [] {
      EncodesWhatWasDecoded(bytes[..|bytes| - 1]);
      assert bytes == bytes[..|bytes| - 1] + [bytes[|bytes| - 1]];
    }
  }

  /** A byte counts 256 times as much as the one after it, and the last one counts once. */
  lemma {:induction false} EarlierBytesCountMore(a: seq<u8>, b: seq<u8>)
    ensures FromBigEndian(a + b) == FromBigEndian(a) * Pow256(|b|) + FromBigEndian(b)
    ensures |b| == 1 ==> FromBigEndian(b) == b[0]
    decreases |b|
  {
    if b == [] {
      assert a + b == a;
    } else {
      var init := b[..|b| - 1];
      EarlierBytesCountMore(a, init);
      assert (a + b)[..|a + b| - 1] == a + init;
      OneMorePlace(FromBigEndian(a), Pow256(|init|), FromBigEndian(init), b[|b| - 1]);
      PlaceOfMore(b);
    }
  }

  lemma OneMorePlace(x: nat, p: nat, y: nat, last: nat)
    ensures 256 * (x * p + y) + last == x * (256 * p) + (256 * y + last)
  {
  }

  lemma PlaceOfMore(b: seq<u8>)
    requires b != []
    ensures Pow256(|b|) == 256 * Pow256(|b| - 1)
    ensures FromBigEndian(b) == 256 * FromBigEndian(b[..|b| - 1]) + b[|b| - 1]
  {
  }

  /** The bit pattern of a signed integer, and back. */
  function ToU64(v: i64): u64 {
    if v < 0 then v + U64_LIMIT else v
  }

  function ToI64(v: u64): i64 {
    if v < I64_LIMIT then v else v - U64_LIMIT
  }

  /** The pattern is two's complement: congruent to the number, and the same number again when read. */
  lemma TwosComplement(v: i64)
    ensures (ToU64(v) - v) % U64_LIMIT == 0 && ToI64(ToU64(v)) == v
  {
  }

  datatype ReadError = OutOfBounds

  /** Reads fields from the front of a byte span; every read is bounds checked. */
  class CheckedBinaryReader {
    const data: seq<u8>
    var pos: nat

    ghost predicate Valid()
      reads this
    {
      pos <= |data|
    }

    constructor (data: seq<u8>)
      ensures Valid() && this.data == data && pos == 0
    {
      this.data := data;
      pos := 0;
    }

    function Remaining(): nat
      requires Valid()
      reads this
    {
      |data| - pos
    }

    method ReadRaw(size: nat) returns (r: Result<nat, ReadError>)
      requires Valid()
      modifies this
      ensures Valid()
      ensures r.Success? <==> size <= |data| - old(pos)
      ensures r.Success? ==> pos == old(pos) + size && r.value < Pow256(size)
      ensures r.Success? ==> data[old(pos)..pos] == BigEndian(r.value, size)
      ensures r.Failure? ==> pos == old(pos)
    {
      if Remaining() < size {
        return Failure(OutOfBounds);
      }
      var field := data[pos..pos + size];
      EncodesWhatWasDecoded(field);
      pos := pos + size;
      r := Success(FromBigEndian(field));
    }
  }

  /** `code` with the bytes at pos replaced. */
  function Patch(code: seq<u8>, pos: nat, bytes: seq<u8>): (r: seq<u8>)
    requires pos + |bytes| <= |code|
    ensures |r| == |code|
  {
    code[..pos] + bytes + code[pos + |bytes|..]
  }

  class ByteVector {
    var bytes: seq<u8>

    constructor ()
      ensures bytes == []
    {
      bytes := [];
    }
  }

  /** Appends fields to a vector, and overwrites fields it has already written. */
  class BinaryWriter {
    const out: ByteVector

    constructor (out: ByteVector)
      ensures this.out == out
    {
      this.out := out;
    }

    method EmitRaw(v: nat, size: nat)
      requires v < Pow256(size)
      modifies out
      ensures out.bytes == old(out.bytes) + BigEndian(v, size)
    {
      out.bytes := out.bytes + BigEndian(v, size);
    }

    method OverwriteRaw(pos: nat, v: nat, size: nat)
      requires v < Pow256(size) && pos + size <= |out.bytes|
      modifies out
      ensures out.bytes == Patch(old(out.bytes), pos, BigEndian(v, size))
    {
      out.bytes := Patch(out.bytes, pos, BigEndian(v, size));
    }
  }
}
