/** The sparse-bitset compressor: non-zero bytes behind a recursively compressed bitset of their positions. */
module Compress {
  type Data = seq<bv8>

  datatype Failure = MissingData | UnreferencedData | ExceededTarget | ZeroContent

  datatype Result<T> = Ok(value: T) | Err(failure: Failure)

  // ---- bits ----

  function Mask(k: nat): bv8 {
    if k == 0 then 0x80 else if k == 1 then 0x40 else if k == 2 then 0x20 else if k == 3 then 0x10
    else if k == 4 then 0x08 else if k == 5 then 0x04 else if k == 6 then 0x02 else 0x01
  }

  /** Bit i of a bit vector, the highest bit of each byte first. */
  predicate Bit(bs: Data, i: nat)
    requires i < 8 * |bs|
  {
    bs[i / 8] & Mask(i % 8) != 0
  }

  lemma {:induction false} MaskSet(b: bv8, k: nat, j: nat)
    requires k < 8 && j < 8
    ensures (b | Mask(k)) & Mask(j) != 0 <==> j == k || b & Mask(j) != 0
  {
  }

  lemma {:induction false} ByteBits(a: bv8, b: bv8)
    requires forall k: nat | k < 8 :: (a & Mask(k) != 0) == (b & Mask(k) != 0)
    ensures a == b
  {
    assert (a & Mask(0) != 0) == (b & Mask(0) != 0) && (a & Mask(1) != 0) == (b & Mask(1) != 0);
    assert (a & Mask(2) != 0) == (b & Mask(2) != 0) && (a & Mask(3) != 0) == (b & Mask(3) != 0);
    assert (a & Mask(4) != 0) == (b & Mask(4) != 0) && (a & Mask(5) != 0) == (b & Mask(5) != 0);
    assert (a & Mask(6) != 0) == (b & Mask(6) != 0) && (a & Mask(7) != 0) == (b & Mask(7) != 0);
    assert a == b;
  }

  lemma {:induction false} BitsDetermine(x: Data, y: Data)
    requires |x| == |y| && forall i: nat | i < 8 * |x| :: Bit(x, i) == Bit(y, i)
    ensures x == y
  {
    forall j | 0 <= j < |x| ensures x[j] == y[j] {
      forall k: nat | k < 8 ensures (x[j] & Mask(k) != 0) == (y[j] & Mask(k) != 0) {
        assert Bit(x, 8 * j + k) == Bit(y, 8 * j + k);
      }
      ByteBits(x[j], y[j]);
    }
  }

  /** bs marks the positions of the non-zero bytes of data, and nothing else. */
  ghost predicate Marks(bs: Data, data: Data) {
    |bs| == (|data| + 7) / 8 && forall i: nat | i < 8 * |bs| :: Bit(bs, i) <==> i < |data| && data[i] != 0
  }

  lemma {:induction false} MaskShift(b: bv8, k: nat)
    requires k < 8
    ensures b & Mask(k) != 0 <==> (b >> (7 - k)) % 2 == 1
  {
  }

  /** Byte i is marked by the bit of place 7 - i % 8 in byte i / 8, places counted from the lowest bit; the bits beyond
      the data are clear. */
  lemma {:induction false} MarksAt(bs: Data, data: Data, i: nat)
    requires Marks(bs, data) && i < 8 * |bs|
    ensures (bs[i / 8] >> (7 - i % 8)) % 2 == 1 <==> i < |data| && data[i] != 0
  {
    hide Mask;
    MaskShift(bs[i / 8], i % 8);
    assert Bit(bs, i) <==> i < |data| && data[i] != 0;
  }

  function NonZero(data: Data): Data {
    if data == [] then [] else NonZero(data[..|data| - 1]) + if data[|data| - 1] != 0 then [data[|data| - 1]] else []
  }

  function Zeros(n: nat): Data {
    seq(n, _ => 0)
  }

  lemma {:induction false} NonZeroTake(data: Data, i: nat)
    requires i < |data|
    ensures NonZero(data[..i + 1]) == NonZero(data[..i]) + if data[i] != 0 then [data[i]] else []
  {
    assert data[..i + 1][..i] == data[..i];
  }

  lemma {:induction false} NonZeroPrefix(data: Data, i: nat)
    requires i <= |data|
    ensures NonZero(data[..i]) <= NonZero(data)
    decreases |data| - i
  {
    if i == |data| {
      assert data[..i] == data;
    } else {
      NonZeroTake(data, i);
      NonZeroPrefix(data, i + 1);
    }
  }

  lemma {:induction false} NonZeroEmpty(data: Data)
    ensures NonZero(data) == [] <==> data == Zeros(|data|)
    ensures |NonZero(data)| <= |data|
  {
    if data != [] {
      NonZeroEmpty(data[..|data| - 1]);
      if data == Zeros(|data|) {
        assert data[..|data| - 1] == Zeros(|data| - 1);
      }
      if NonZero(data) == [] {
        assert data[..|data| - 1] == Zeros(|data| - 1);
      }
    }
  }

  // ---- encoding ----

  /** The bitset after the first i bytes. */
  function Bitset(data: Data, i: nat): (bs: Data)
    requires i <= |data|
    ensures |bs| == (|data| + 7) / 8
  {
    if i == 0 then Zeros((|data| + 7) / 8)
    else
      var bs := Bitset(data, i - 1);
      if data[i - 1] != 0 then bs[(i - 1) / 8 := bs[(i - 1) / 8] | Mask((i - 1) % 8)] else bs
  }

  lemma {:induction false} SetBit(bs: Data, i: nat, j: nat)
    requires i < 8 * |bs| && j < 8 * |bs|
    ensures Bit(bs[i / 8 := bs[i / 8] | Mask(i % 8)], j) <==> j == i || Bit(bs, j)
  {
    hide Mask;
    assert i == 8 * (i / 8) + i % 8 && j == 8 * (j / 8) + j % 8;
    if i / 8 == j / 8 {
      MaskSet(bs[i / 8], i % 8, j % 8);
    }
  }

  lemma {:induction false} BitsetBits(data: Data, i: nat, j: nat)
    requires i <= |data| && j < 8 * ((|data| + 7) / 8)
    ensures Bit(Bitset(data, i), j) <==> j < i && data[j] != 0
  {
    if i > 0 {
      BitsetBits(data, i - 1, j);
      SetBit(Bitset(data, i - 1), i - 1, j);
    }
  }

  lemma {:induction false} BitsetMarks(data: Data)
    ensures Marks(Bitset(data, |data|), data)
  {
    forall j: nat | j < 8 * ((|data| + 7) / 8) ensures Bit(Bitset(data, |data|), j) <==> j < |data| && data[j] != 0 {
      BitsetBits(data, |data|, j);
    }
  }

  lemma {:induction false} MarksUnique(x: Data, y: Data, data: Data)
    requires Marks(x, data) && Marks(y, data)
    ensures x == y
  {
    BitsDetermine(x, y);
  }

  function Encode(data: Data): Data
    decreases |data|
  {
    if |data| == 0 then []
    else if |data| == 1 then if data[0] == 0 then [] else data
    else if NonZero(data) == [] then []
    else Encode(Bitset(data, |data|)) + NonZero(data)
  }

  method ComputeEncode(data: Data) returns (out: Data)
    ensures out == Encode(data)
    decreases |data|
  {
    hide Mask;
    if |data| == 0 {
      return [];
    }
    if |data| == 1 {
      return if data[0] == 0 then [] else data;
    }
    var bitset := new bv8[(|data| + 7) / 8](_ => 0);
    var bytes := [];
    var i := 0;
    assert bitset[..] == Zeros(bitset.Length);
    while i < |data|
      invariant 0 <= i <= |data| && bitset[..] == Bitset(data, i) && bytes == NonZero(data[..i])
    {
      NonZeroTake(data, i);
      if data[i] != 0 {
        bytes := bytes + [data[i]];
        bitset[i / 8] := bitset[i / 8] | Mask(i % 8);
      }
      i := i + 1;
    }
    assert data[..i] == data;
    if |bytes| == 0 {
      return [];
    }
    var head := ComputeEncode(bitset[..]);
    out := head + bytes;
  }

  // ---- decoding ----

  /** Put the bytes of data from ptr on at the positions marked from bit i on. */
  function Distribute(bs: Data, i: nat, out: Data, data: Data, ptr: nat): Result<(Data, nat)>
    requires i <= 8 * |bs|
    decreases 8 * |bs| - i
  {
    if i == 8 * |bs| then Ok((out, ptr))
    else if !Bit(bs, i) then Distribute(bs, i + 1, out, data, ptr)
    else if ptr >= |data| then Err(MissingData)
    else if i >= |out| then Err(ExceededTarget)
    else if data[ptr] == 0 then Err(ZeroContent)
    else Distribute(bs, i + 1, out[i := data[ptr]], data, ptr + 1)
  }

  function DecodePartial(data: Data, target: nat): Result<(Data, nat)>
    decreases target
  {
    if target == 0 then Ok(([], 0))
    else if |data| == 0 then Ok((Zeros(target), 0))
    else if target == 1 then Ok(([data[0]], if data[0] != 0 then 1 else 0))
    else
      match DecodePartial(data, (target + 7) / 8)
      case Err(e) => Err(e)
      case Ok((bs, ptr)) => Distribute(bs, 0, Zeros(target), data, ptr)
  }

  function Decode(data: Data, target: nat): Result<Data> {
    match DecodePartial(data, target)
    case Err(e) => Err(e)
    case Ok((out, size)) => if size != |data| then Err(UnreferencedData) else Ok(out)
  }

  method ComputeDecodePartial(data: Data, target: nat) returns (r: Result<(Data, nat)>)
    ensures r == DecodePartial(data, target)
    decreases target
  {
    if target == 0 {
      return Ok(([], 0));
    }
    var decomp := new bv8[target](_ => 0);
    assert decomp[..] == Zeros(target);
    if |data| == 0 {
      return Ok((decomp[..], 0));
    }
    if target == 1 {
      decomp[0] := data[0];
      assert decomp[..] == [data[0]];
      return Ok((decomp[..], if data[0] != 0 then 1 else 0));
    }
    var inner := ComputeDecodePartial(data, (target + 7) / 8);
    if inner.Err? {
      return inner;
    }
    var (bs, ptr) := inner.value;
    var i := 0;
    while i < 8 * |bs|
      invariant 0 <= i <= 8 * |bs|
      invariant Distribute(bs, i, decomp[..], data, ptr) == DecodePartial(data, target)
    {
      if Bit(bs, i) {
        if ptr >= |data| {
          return Err(MissingData);
        }
        if i >= decomp.Length {
          return Err(ExceededTarget);
        }
        if data[ptr] == 0 {
          return Err(ZeroContent);
        }
        ghost var was := decomp[..];
        decomp[i] := data[ptr];
        assert decomp[..] == was[i := data[ptr]];
        ptr := ptr + 1;
      }
      i := i + 1;
    }
    r := Ok((decomp[..], ptr));
  }

  // ---- decoding inverts encoding ----

  /** out holds data up to position i and zeros from there on. */
  ghost predicate Upto(out: Data, y: Data, i: nat) {
    |out| == |y| && forall j :: 0 <= j < |y| ==> out[j] == if j < i then y[j] else 0
  }

  lemma {:induction false} DistributeAll(bs: Data, i: nat, out: Data, data: Data, ptr: nat, y: Data, start: nat)
    requires Marks(bs, y) && i <= 8 * |bs| && Upto(out, y, i)
    requires start <= ptr <= |data| && NonZero(y) <= data[start..]
    requires data[start..ptr] == NonZero(y[..if i < |y| then i else |y|])
    ensures Distribute(bs, i, out, data, ptr) == Ok((y, start + |NonZero(y)|))
    decreases 8 * |bs| - i
  {
    hide Bit;
    if i == 8 * |bs| {
      assert out == y && y[..|y|] == y;
    } else if Bit(bs, i) {
      NonZeroTake(y, i);
      NonZeroPrefix(y, i + 1);
      assert data[ptr] == data[start..][ptr - start] == NonZero(y[..i + 1])[ptr - start] == y[i];
      assert data[start..ptr + 1] == data[start..ptr] + [data[ptr]];
      DistributeAll(bs, i + 1, out[i := y[i]], data, ptr + 1, y, start);
    } else {
      if i < |y| {
        NonZeroTake(y, i);
      }
      DistributeAll(bs, i + 1, out, data, ptr, y, start);
    }
  }

  lemma {:induction false} MarksNonZero(bs: Data, y: Data)
    requires Marks(bs, y)
    ensures NonZero(bs) == [] <==> NonZero(y) == []
  {
    NonZeroEmpty(bs);
    NonZeroEmpty(y);
    if y == Zeros(|y|) {
      forall i: nat | i < 8 * |bs| ensures Bit(bs, i) == Bit(Zeros(|bs|), i) {
      }
      BitsDetermine(bs, Zeros(|bs|));
    }
    if bs == Zeros(|bs|) {
      forall i | 0 <= i < |y| ensures y[i] == 0 {
        assert !Bit(bs, i);
      }
      assert y == Zeros(|y|);
    }
  }

  /** What is encoded decodes to itself, whatever follows, unless it is all zeros. */
  lemma {:induction false} DecodeEncodePartial(y: Data, rest: Data)
    requires NonZero(y) != []
    ensures Encode(y) != [] && DecodePartial(Encode(y) + rest, |y|) == Ok((y, |Encode(y)|))
    decreases |y|
  {
    hide Mask, Bit, Bitset;
    if |y| > 1 {
      var bs := Bitset(y, |y|);
      BitsetMarks(y);
      MarksNonZero(bs, y);
      var head, nz := Encode(bs), NonZero(y);
      DecodeEncodePartial(bs, nz + rest);
      var data := Encode(y) + rest;
      assert data == head + (nz + rest);
      assert data[|head|..] == nz + rest && data[|head|..|head|] == [] && y[..0] == [];
      DistributeAll(bs, 0, Zeros(|y|), data, |head|, y, |head|);
    } else {
      assert y[..0] == [] && y == [y[0]];
    }
  }

  lemma {:induction false} DecodeEncode(y: Data)
    ensures Decode(Encode(y), |y|) == Ok(y)
  {
    NonZeroEmpty(y);
    if NonZero(y) == [] {
      assert Encode(y) == [];
    } else {
      DecodeEncodePartial(y, []);
      assert Encode(y) + [] == Encode(y);
    }
  }

  // ---- only what was encoded decodes ----

  function Least(i: nat, n: nat): nat {
    if i < n then i else n
  }

  /** out holds non-zero bytes at the marked positions below i, and zeros elsewhere. */
  ghost predicate Placed(bs: Data, out: Data, i: nat)
    requires i <= 8 * |bs|
  {
    && |bs| == (|out| + 7) / 8
    && (forall j: nat :: j < i && Bit(bs, j) ==> j < |out|)
    && (forall j: nat :: j < |out| ==> (out[j] != 0 <==> j < i && Bit(bs, j)))
  }

  lemma {:induction false} PlacedSet(bs: Data, out: Data, i: nat, b: bv8)
    requires i < 8 * |bs| && Placed(bs, out, i) && Bit(bs, i) && i < |out| && b != 0
    ensures Placed(bs, out[i := b], i + 1)
  {
    hide Bit;
  }

  lemma {:induction false} PlacedSkip(bs: Data, out: Data, i: nat)
    requires i < 8 * |bs| && Placed(bs, out, i) && !Bit(bs, i)
    ensures Placed(bs, out, i + 1) && (i < |out| ==> out[i] == 0)
  {
    hide Bit;
  }

  lemma {:induction false} PlacedAll(bs: Data, out: Data)
    requires Placed(bs, out, 8 * |bs|)
    ensures Marks(bs, out) && Least(8 * |bs|, |out|) == |out|
  {
    hide Bit;
  }

  lemma {:induction false} DistributeSound(bs: Data, i: nat, out: Data, data: Data, ptr: nat, start: nat)
    requires i <= 8 * |bs| && Placed(bs, out, i) && start <= ptr <= |data|
    requires data[start..ptr] == NonZero(out[..Least(i, |out|)]) && Distribute(bs, i, out, data, ptr).Ok?
    ensures var (y, k) := Distribute(bs, i, out, data, ptr).value;
            |y| == |out| && Marks(bs, y) && start <= k <= |data| && data[start..k] == NonZero(y)
    decreases 8 * |bs| - i
  {
    hide Bit, Placed, Marks;
    if i == 8 * |bs| {
      PlacedAll(bs, out);
      assert out[..|out|] == out;
    } else if Bit(bs, i) {
      var out' := out[i := data[ptr]];
      PlacedSet(bs, out, i, data[ptr]);
      assert out'[..i] == out[..i];
      NonZeroTake(out', i);
      assert data[start..ptr + 1] == data[start..ptr] + [data[ptr]];
      DistributeSound(bs, i + 1, out', data, ptr + 1, start);
    } else {
      PlacedSkip(bs, out, i);
      if i < |out| {
        NonZeroTake(out, i);
      }
      DistributeSound(bs, i + 1, out, data, ptr, start);
    }
  }

  lemma {:induction false} PlacedNone(bs: Data, n: nat)
    requires |bs| == (n + 7) / 8
    ensures Placed(bs, Zeros(n), 0)
  {
  }

  /** Each decoded value has one encoding: what was consumed is what encoding gives. */
  lemma {:induction false} EncodeDecodePartial(data: Data, target: nat)
    requires DecodePartial(data, target).Ok?
    ensures var (y, k) := DecodePartial(data, target).value; |y| == target && k <= |data| && data[..k] == Encode(y)
    decreases target
  {
    hide Mask, Bit, Placed;
    if target == 0 {
    } else if |data| == 0 {
      NonZeroEmpty(Zeros(target));
    } else if target == 1 {
      assert data[..1] == [data[0]];
    } else {
      EncodeDecodePartial(data, (target + 7) / 8);
      var (bs, ptr) := DecodePartial(data, (target + 7) / 8).value;
      PlacedNone(bs, target);
      assert data[ptr..ptr] == [] && Zeros(target)[..0] == [];
      DistributeSound(bs, 0, Zeros(target), data, ptr, ptr);
      var (y, k) := DecodePartial(data, target).value;
      BitsetMarks(y);
      MarksUnique(bs, Bitset(y, |y|), y);
      MarksNonZero(bs, y);
      NonZeroEmpty(bs);
      assert data[..k] == data[..ptr] + data[ptr..k];
    }
  }

  /** Decoding accepts exactly what encoding produces. */
  lemma {:induction false} DecodeExactly(x: Data, n: nat, y: Data)
    ensures Decode(x, n) == Ok(y) <==> |y| == n && x == Encode(y)
  {
    if Decode(x, n) == Ok(y) {
      EncodeDecodePartial(x, n);
      assert x[..|x|] == x;
    }
    if |y| == n && x == Encode(y) {
      DecodeEncode(y);
    }
  }

  // ---- with the fallback to plain data ----

  function CompressBytes(data: Data): Data {
    if |Encode(data)| < |data| then Encode(data) else data
  }

  function DecompressBytes(data: Data, target: nat): Result<Data> {
    if |data| > target then Err(ExceededTarget)
    else if |data| == target then Ok(data)
    else Decode(data, target)
  }

  /** Compression never lengthens and is undone by decompression. */
  lemma {:induction false} RoundTrip(data: Data)
    ensures |CompressBytes(data)| <= |data|
    ensures DecompressBytes(CompressBytes(data), |data|) == Ok(data)
  {
    DecodeEncode(data);
  }

  /** Decompression accepts plain data of the target size, and shorter encodings. */
  lemma {:induction false} DecompressExactly(x: Data, n: nat, y: Data)
    ensures DecompressBytes(x, n) == Ok(y) <==> |y| == n && (x == y || (x == Encode(y) && |x| < n))
  {
    DecodeExactly(x, n, y);
  }
}
