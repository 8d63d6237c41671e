/** The encrypted transport: frames under a key stream and a running MAC that both ends keep in step. */
module Transport {
  import opened Options
  import opened HexKeys

  const MAX_UINT24: nat := 0xff_ffff

  // ---- bytes ----

  /** Exclusive or of the n lowest bits. */
  function XorBits(a: nat, b: nat, n: nat): nat {
    if n == 0 then 0 else 2 * XorBits(a / 2, b / 2, n - 1) + if a % 2 != b % 2 then 1 else 0
  }

  function Pow2(n: nat): nat {
    if n == 0 then 1 else 2 * Pow2(n - 1)
  }

  lemma {:induction false} XorBitsBound(a: nat, b: nat, n: nat)
    ensures XorBits(a, b, n) < Pow2(n)
  {
    if n > 0 {
      XorBitsBound(a / 2, b / 2, n - 1);
    }
  }

  lemma {:induction false} XorBitsTwice(a: nat, b: nat, n: nat)
    requires a < Pow2(n)
    ensures XorBits(XorBits(a, b, n), b, n) == a
  {
    if n > 0 {
      XorBitsTwice(a / 2, b / 2, n - 1);
    }
  }

  /** The binary digit of a at place i. */
  function Bit(a: nat, i: nat): nat {
    if i == 0 then a % 2 else Bit(a / 2, i - 1)
  }

  /** Each bit tells whether the bits at its place differ. */
  lemma {:induction false} XorBitsAt(a: nat, b: nat, n: nat, i: nat)
    requires i < n
    ensures Bit(XorBits(a, b, n), i) == if Bit(a, i) == Bit(b, i) then 0 else 1
  {
    var low := if a % 2 != b % 2 then 1 else 0;
    if i > 0 {
      XorBitsAt(a / 2, b / 2, n - 1, i - 1);
      assert XorBits(a, b, n) / 2 == XorBits(a / 2, b / 2, n - 1);
    } else {
      assert XorBits(a, b, n) % 2 == low;
    }
  }

  function Xor(a: Byte, b: Byte): Byte {
    XorBitsBound(a, b, 8);
    assert Pow2(8) == 256;
    XorBits(a, b, 8)
  }

  lemma {:induction false} XorTwice(a: Byte, b: Byte)
    ensures Xor(Xor(a, b), b) == a
  {
    assert Pow2(8) == 256;
    XorBitsTwice(a, b, 8);
  }

  /** The n lowest bytes of u, the highest first. */
  function BigEndian(u: nat, n: nat): (r: Bytes)
    ensures |r| == n
  {
    if n == 0 then [] else BigEndian(u / 256, n - 1) + [u % 256]
  }

  function FromBigEndian(b: Bytes): nat {
    if b == [] then 0 else 256 * FromBigEndian(b[..|b| - 1]) + b[|b| - 1]
  }

  function Pow256(n: nat): nat {
    if n == 0 then 1 else 256 * Pow256(n - 1)
  }

  lemma {:induction false} BigEndianInverse(u: nat, n: nat)
    requires u < Pow256(n)
    ensures FromBigEndian(BigEndian(u, n)) == u
  {
    if n > 0 {
      BigEndianInverse(u / 256, n - 1);
      var b := BigEndian(u, n);
      assert b[..|b| - 1] == BigEndian(u / 256, n - 1);
    }
  }

  // ---- message codes ----

  type Uint64 = n: nat | n < 0x1_0000_0000_0000_0000

  /** MessagePack: the shortest unsigned form. */
  function AppendUint64(u: Uint64): Bytes {
    if u < 0x80 then [u]
    else if u < 0x100 then [0xcc] + BigEndian(u, 1)
    else if u < 0x1_0000 then [0xcd] + BigEndian(u, 2)
    else if u < 0x1_0000_0000 then [0xce] + BigEndian(u, 4)
    else [0xcf] + BigEndian(u, 8)
  }

  datatype Result<T> = Ok(value: T) | Err(failure: Failure)

  datatype Failure = TooLarge | ShortRead | BadHeaderMac | BadFrameMac | BadCode | BadCompression

  function CodeWidth(lead: Byte): nat {
    if lead < 0x80 then 0 else if lead == 0xcc then 1 else if lead == 0xcd then 2 else if lead == 0xce then 4
    else if lead == 0xcf then 8 else 9
  }

  function ReadUint64(b: Bytes): Result<(nat, Bytes)> {
    if b == [] then Err(BadCode)
    else if b[0] < 0x80 then Ok((b[0], b[1..]))
    else if CodeWidth(b[0]) > 8 || |b| < 1 + CodeWidth(b[0]) then Err(BadCode)
    else Ok((FromBigEndian(b[1..1 + CodeWidth(b[0])]), b[1 + CodeWidth(b[0])..]))
  }

  /** The form of a code: itself below 128, else the marker of the shortest of four widths and the bytes, highest first. */
  lemma {:induction false} CodeForm(u: Uint64)
    ensures var b := AppendUint64(u);
            if u < 0x80 then b == [u]
            else && (b[0] == if u < 0x100 then 0xcc else if u < 0x1_0000 then 0xcd else if u < 0x1_0000_0000 then 0xce else 0xcf)
                 && |b| == 1 + (if u < 0x100 then 1 else if u < 0x1_0000 then 2 else if u < 0x1_0000_0000 then 4 else 8)
                 && FromBigEndian(b[1..]) == u
  {
    var b := AppendUint64(u);
    if u >= 0x80 {
      var n := |b| - 1;
      assert b[1..] == BigEndian(u, n);
      assert Pow256(1) == 0x100 && Pow256(2) == 0x1_0000 && Pow256(4) == 0x1_0000_0000;
      assert Pow256(8) == 0x1_0000_0000_0000_0000 by { assert Pow256(6) == 0x1_0000_0000_0000; }
      BigEndianInverse(u, n);
    }
  }

  lemma {:induction false} ReadAppended(u: Uint64, rest: Bytes)
    ensures ReadUint64(AppendUint64(u) + rest) == Ok((u, rest))
    ensures 1 <= |AppendUint64(u)| <= 9
  {
    var b := AppendUint64(u) + rest;
    if u < 0x80 {
      assert b[1..] == rest;
    } else {
      var n := CodeWidth(b[0]);
      assert Pow256(1) == 0x100 && Pow256(2) == 0x1_0000 && Pow256(4) == 0x1_0000_0000;
      assert Pow256(8) == 0x1_0000_0000_0000_0000 by { assert Pow256(6) == 0x1_0000_0000_0000; }
      BigEndianInverse(u, n);
      assert b[1..1 + n] == BigEndian(u, n) && b[1 + n..] == rest;
    }
  }

  // ---- the cryptographic parts ----

  /** Key stream, hash sum, block cipher, and the compression of payloads. */
  datatype Crypto = Crypto(
    stream: nat -> Byte,
    sum: Bytes -> Bytes,
    block: Bytes -> Bytes,
    pack: Bytes -> Bytes,
    unpack: Bytes -> Option<Bytes>
  )

  ghost predicate Sound(k: Crypto) {
    && (forall b: Bytes :: |k.sum(b)| == 32)
    && (forall b: Bytes :: |k.block(b)| == 16)
    && (forall b: Bytes :: k.unpack(k.pack(b)) == Some(b))
  }

  function Zeros(n: nat): Bytes {
    seq(n, _ => 0)
  }

  function XorAll(a: Bytes, b: Bytes): (r: Bytes)
    requires |a| <= |b|
    ensures |r| == |a|
  {
    seq(|a|, i requires 0 <= i < |a| => Xor(a[i], b[i]))
  }

  /** data under the key stream from position pos on. */
  function Stream(k: Crypto, pos: nat, data: Bytes): (r: Bytes)
    ensures |r| == |data|
  {
    seq(|data|, i requires 0 <= i < |data| => Xor(data[i], k.stream(pos + i)))
  }

  lemma {:induction false} StreamTwice(k: Crypto, pos: nat, data: Bytes)
    ensures Stream(k, pos, Stream(k, pos, data)) == data
  {
    hide Xor;
    forall i | 0 <= i < |data| ensures Stream(k, pos, Stream(k, pos, data))[i] == data[i] {
      XorTwice(data[i], k.stream(pos + i));
    }
  }

  lemma {:induction false} StreamConcat(k: Crypto, pos: nat, a: Bytes, b: Bytes)
    ensures Stream(k, pos, a + b) == Stream(k, pos, a) + Stream(k, pos + |a|, b)
  {
  }

  /** Three pieces encrypted one after the other are their concatenation encrypted. */
  lemma {:induction false} TeeAll(k: Crypto, pos: nat, m: Bytes, x: Bytes, y: Bytes, z: Bytes)
    ensures var a, b, c := Stream(k, pos, x), Stream(k, pos + |x|, y), Stream(k, pos + |x| + |y|, z);
            a + b + c == Stream(k, pos, x + y + z) && m + a + b + c == m + Stream(k, pos, x + y + z)
  {
    hide Stream;
    StreamConcat(k, pos, x, y);
    StreamConcat(k, pos, x + y, z);
    var a, b, c := Stream(k, pos, x), Stream(k, pos + |x|, y), Stream(k, pos + |x| + |y|, z);
    assert m + a + b + c == m + (a + b + c);
  }

  /** Reseed the running MAC; the tag is the first half of its sum. */
  function Reseed(k: Crypto, mac: Bytes, seed: Bytes): (r: (Bytes, Bytes))
    requires Sound(k) && |seed| >= 16
    ensures |r.1| == 16
  {
    var mac' := mac + XorAll(k.block(k.sum(mac)), seed[..16]);
    (mac', k.sum(mac')[..16])
  }

  // ---- frames ----

  /** One direction of a connection: position in the key stream, and what the MAC has taken in. */
  datatype Half = Half(pos: nat, mac: Bytes)

  function Pad(n: nat): nat {
    if n % 16 > 0 then 16 - n % 16 else 0
  }

  function Header(fsize: nat): (r: Bytes)
    ensures |r| == 16
  {
    BigEndian(fsize, 3) + [0xc2, 0x80, 0x80] + Zeros(10)
  }

  function WriteFrame(k: Crypto, h: Half, body: Bytes): (Bytes, Half)
    requires Sound(k)
  {
    var head := Stream(k, h.pos, Header(|body|));
    var (m1, t1) := Reseed(k, h.mac, head);
    var frame := Stream(k, h.pos + 16, body + Zeros(Pad(|body|)));
    var m2 := m1 + frame;
    var (m3, t3) := Reseed(k, m2, k.sum(m2));
    (head + t1 + frame + t3, Half(h.pos + 16 + |frame|, m3))
  }

  /** A frame that was read: its body and what follows it, or why not; and where the reader stands after it. */
  datatype Read = Read(got: Result<(Bytes, Bytes)>, half: Half)

  function ReadFrame(k: Crypto, h: Half, wire: Bytes): Read
    requires Sound(k)
  {
    if |wire| < 32 then Read(Err(ShortRead), h)
    else
      var (m1, t1) := Reseed(k, h.mac, wire[..16]);
      if t1 != wire[16..32] then Read(Err(BadHeaderMac), Half(h.pos, m1))
      else
        var fsize := FromBigEndian(Stream(k, h.pos, wire[..16])[..3]);
        var rsize := fsize + Pad(fsize);
        if |wire| < 32 + rsize then Read(Err(ShortRead), Half(h.pos + 16, m1))
        else
          var frame := wire[32..32 + rsize];
          var m2 := m1 + frame;
          if |wire| < 32 + rsize + 16 then Read(Err(ShortRead), Half(h.pos + 16, m2))
          else
            var (m3, t3) := Reseed(k, m2, k.sum(m2));
            if t3 != wire[32 + rsize..32 + rsize + 16] then Read(Err(BadFrameMac), Half(h.pos + 16, m3))
            else Read(Ok((Stream(k, h.pos + 16, frame)[..fsize], wire[32 + rsize + 16..])), Half(h.pos + 16 + rsize, m3))
  }

  /** The running MAC takes in the encryption of its own sum under the seed; the tag is the first half of what it sums
      up to then. */
  ghost predicate Tagged(k: Crypto, mac: Bytes, seed: Bytes, mac': Bytes, tag: Bytes)
    requires Sound(k)
  {
    && |seed| >= 16 && |mac'| == |mac| + 16 && mac <= mac' && tag == k.sum(mac')[..16]
    && (forall i :: 0 <= i < 16 ==> mac'[|mac| + i] == Xor(k.block(k.sum(mac))[i], seed[i]))
  }

  lemma {:induction false} ReseedTags(k: Crypto, mac: Bytes, seed: Bytes, mac': Bytes, tag: Bytes)
    requires Sound(k) && |seed| >= 16
    ensures Tagged(k, mac, seed, mac', tag) <==> (mac', tag) == Reseed(k, mac, seed)
  {
    hide Xor;
    var next := Reseed(k, mac, seed).0;
    if Tagged(k, mac, seed, mac', tag) {
      assert mac' == next by {
        forall i | 0 <= i < |mac'| ensures mac'[i] == next[i] {
          if i >= |mac| {
            assert mac'[|mac| + (i - |mac|)] == Xor(k.block(k.sum(mac))[i - |mac|], seed[i - |mac|]);
          }
        }
      }
    }
  }

  /** Byte i of the wire, decrypted. */
  function Plain(k: Crypto, pos: nat, wire: Bytes, i: nat): Byte
    requires i < |wire|
  {
    Xor(wire[i], k.stream(pos + i))
  }

  /** A frame on the wire, with r bytes of content for the body: the header gives the size of the body, both tags are
      right, and the content decrypts to the body. */
  ghost predicate Framed(k: Crypto, h: Half, wire: Bytes, body: Bytes, rest: Bytes, h': Half, m1: Bytes, r: nat)
    requires Sound(k)
  {
    && r % 16 == 0 && |body| <= r < |body| + 16 && |wire| == 48 + r + |rest| && rest == wire[48 + r..]
    && Tagged(k, h.mac, wire[..16], m1, wire[16..32])
    && 65536 * Plain(k, h.pos, wire, 0) as int + 256 * Plain(k, h.pos, wire, 1) as int + Plain(k, h.pos, wire, 2) as int == |body|
    && Tagged(k, m1 + wire[32..32 + r], k.sum(m1 + wire[32..32 + r]), h'.mac, wire[32 + r..48 + r])
    && (forall i :: 0 <= i < |body| ==> body[i] == Xor(wire[32 + i], k.stream(h.pos + 16 + i)))
    && h'.pos == h.pos + 16 + r
  }

  lemma {:induction false} PadRounds(n: nat, r: nat)
    ensures r == n + Pad(n) <==> r % 16 == 0 && n <= r < n + 16
  {
  }

  lemma {:induction false} SizeRead(k: Crypto, h: Half, wire: Bytes)
    requires |wire| >= 16
    ensures FromBigEndian(Stream(k, h.pos, wire[..16])[..3]) ==
            65536 * Plain(k, h.pos, wire, 0) as int + 256 * Plain(k, h.pos, wire, 1) as int + Plain(k, h.pos, wire, 2) as int
  {
    hide Xor;
    var b := Stream(k, h.pos, wire[..16])[..3];
    assert b == [Plain(k, h.pos, wire, 0), Plain(k, h.pos, wire, 1), Plain(k, h.pos, wire, 2)];
    assert b[..2] == [b[0], b[1]] && b[..2][..1] == [b[0]] && b[..2][..1][..0] == [];
    assert FromBigEndian(b[..2][..1]) == b[0];
    assert FromBigEndian(b[..2]) == 256 * b[0] as int + b[1] as int;
  }

  /** What is read is exactly what stands there as a frame. */
  lemma {:induction false} ReadsFramed(k: Crypto, h: Half, wire: Bytes, body: Bytes, rest: Bytes, h': Half)
    requires Sound(k)
    ensures ReadFrame(k, h, wire) == Read(Ok((body, rest)), h') <==> exists m1, r :: Framed(k, h, wire, body, rest, h', m1, r)
  {
    hide Xor, Reseed, FromBigEndian, Tagged, Sound, Stream;
    if ReadFrame(k, h, wire) == Read(Ok((body, rest)), h') {
      ReadFramed(k, h, wire, body, rest, h');
    }
    if m1, r :| Framed(k, h, wire, body, rest, h', m1, r) {
      FramedRead(k, h, wire, body, rest, h', m1, r);
    }
  }

  lemma {:induction false} ReadFramed(k: Crypto, h: Half, wire: Bytes, body: Bytes, rest: Bytes, h': Half)
    requires Sound(k) && ReadFrame(k, h, wire) == Read(Ok((body, rest)), h')
    ensures |wire| >= 48 && Framed(k, h, wire, body, rest, h', Reseed(k, h.mac, wire[..16]).0, |body| + Pad(|body|))
  {
    hide Xor, Reseed, FromBigEndian, Tagged;
    var (m1, t1) := Reseed(k, h.mac, wire[..16]);
    ReseedTags(k, h.mac, wire[..16], m1, t1);
    SizeRead(k, h, wire);
    var r := |body| + Pad(|body|);
    PadRounds(|body|, r);
    var m2 := m1 + wire[32..32 + r];
    var (m3, t3) := Reseed(k, m2, k.sum(m2));
    ReseedTags(k, m2, k.sum(m2), m3, t3);
  }

  lemma {:induction false} FramedRead(k: Crypto, h: Half, wire: Bytes, body: Bytes, rest: Bytes, h': Half, m1: Bytes, r: nat)
    requires Sound(k) && Framed(k, h, wire, body, rest, h', m1, r)
    ensures ReadFrame(k, h, wire) == Read(Ok((body, rest)), h')
  {
    hide Xor, Reseed, FromBigEndian, Tagged;
    ReseedTags(k, h.mac, wire[..16], m1, wire[16..32]);
    SizeRead(k, h, wire);
    PadRounds(|body|, r);
    var frame := wire[32..32 + r];
    var m2 := m1 + frame;
    ReseedTags(k, m2, k.sum(m2), h'.mac, wire[32 + r..48 + r]);
    assert Stream(k, h.pos + 16, frame)[..|body|] == body;
  }

  lemma {:induction false} HeaderSize(fsize: nat)
    requires fsize <= MAX_UINT24
    ensures FromBigEndian(Header(fsize)[..3]) == fsize
  {
    assert Header(fsize)[..3] == BigEndian(fsize, 3);
    assert Pow256(3) == 0x100_0000;
    BigEndianInverse(fsize, 3);
  }

  lemma {:induction false} Split4(a: Bytes, b: Bytes, c: Bytes, d: Bytes, rest: Bytes)
    ensures var w := a + b + c + d + rest;
            && w[..|a|] == a && w[|a|..|a| + |b|] == b && w[|a| + |b|..|a| + |b| + |c|] == c
            && w[|a| + |b| + |c|..|a| + |b| + |c| + |d|] == d && w[|a| + |b| + |c| + |d|..] == rest
  {
  }

  /** A frame is read back as it was written, and both ends are in step again. */
  lemma {:induction false} FrameLockstep(k: Crypto, h: Half, body: Bytes, rest: Bytes)
    requires Sound(k) && |body| <= MAX_UINT24
    ensures var (wire, h') := WriteFrame(k, h, body); ReadFrame(k, h, wire + rest) == Read(Ok((body, rest)), h')
  {
    hide Stream, Reseed, Header, BigEndian, FromBigEndian;
    var head := Stream(k, h.pos, Header(|body|));
    var (m1, t1) := Reseed(k, h.mac, head);
    var padded := body + Zeros(Pad(|body|));
    var frame := Stream(k, h.pos + 16, padded);
    var m2 := m1 + frame;
    var (m3, t3) := Reseed(k, m2, k.sum(m2));
    Split4(head, t1, frame, t3, rest);
    StreamTwice(k, h.pos, Header(|body|));
    StreamTwice(k, h.pos + 16, padded);
    HeaderSize(|body|);
    assert padded[..|body|] == body;
  }

  /** What stands on the wire around a body that is written: the fixed part of the header, and zeros up to the next
      multiple of 16. */
  lemma {:induction false} FrameFill(k: Crypto, h: Half, body: Bytes)
    requires Sound(k) && |body| <= MAX_UINT24
    ensures var (wire, h') := WriteFrame(k, h, body);
            && |wire| == 48 + |body| + Pad(|body|) && Framed(k, h, wire, body, [], h', Reseed(k, h.mac, wire[..16]).0, |body| + Pad(|body|))
            && (forall i :: 3 <= i < 16 ==> Plain(k, h.pos, wire, i) == if i == 3 then 0xc2 else if i <= 5 then 0x80 else 0)
            && (forall i :: 32 + |body| <= i < 32 + |body| + Pad(|body|) ==> Xor(wire[i], k.stream(h.pos - 16 + i)) == 0)
  {
    hide Xor, Reseed, BigEndian;
    var (wire, h') := WriteFrame(k, h, body);
    assert wire + [] == wire;
    FrameLockstep(k, h, body, []);
    ReadFramed(k, h, wire, body, [], h');
    FillRead(k, h, body);
  }

  lemma {:induction false} FillRead(k: Crypto, h: Half, body: Bytes)
    requires Sound(k)
    ensures var wire := WriteFrame(k, h, body).0;
            && |wire| == 48 + |body| + Pad(|body|)
            && (forall i :: 3 <= i < 16 ==> Plain(k, h.pos, wire, i) == if i == 3 then 0xc2 else if i <= 5 then 0x80 else 0)
            && (forall i :: 32 + |body| <= i < 32 + |body| + Pad(|body|) ==> Xor(wire[i], k.stream(h.pos - 16 + i)) == 0)
  {
    hide Xor, Reseed, BigEndian;
    var wire := WriteFrame(k, h, body).0;
    forall i | 3 <= i < 16 ensures Plain(k, h.pos, wire, i) == Header(|body|)[i] {
      XorTwice(Header(|body|)[i], k.stream(h.pos + i));
    }
    var padded := body + Zeros(Pad(|body|));
    forall i | 32 + |body| <= i < 32 + |body| + Pad(|body|) ensures Xor(wire[i], k.stream(h.pos - 16 + i)) == 0 {
      assert wire[i] == Stream(k, h.pos + 16, padded)[i - 32];
      XorTwice(padded[i - 32], k.stream(h.pos - 16 + i));
    }
  }

  /** The first n bytes of the wire carry two tags: one over the header, one over the content behind it. */
  ghost predicate Authentic(k: Crypto, mac: Bytes, wire: Bytes, n: int)
    requires Sound(k)
  {
    48 <= n <= |wire| && exists m1 ::
      Tagged(k, mac, wire[..16], m1, wire[16..32]) && SelfTagged(k, m1 + wire[32..n - 16], wire[n - 16..n])
  }

  /** A tag with the sum itself as the seed. */
  ghost predicate SelfTagged(k: Crypto, mac: Bytes, tag: Bytes)
    requires Sound(k)
  {
    exists mac' :: Tagged(k, mac, k.sum(mac), mac', tag)
  }

  lemma {:induction false} ReadAuthentic(k: Crypto, h: Half, wire: Bytes)
    requires Sound(k)
    ensures var got := ReadFrame(k, h, wire).got;
            && (got.Ok? ==> Authentic(k, h.mac, wire, |wire| - |got.value.1|))
            && (|wire| >= 32 && (forall m1 :: !Tagged(k, h.mac, wire[..16], m1, wire[16..32])) ==> got == Err(BadHeaderMac))
  {
    hide Reseed, Tagged, Stream, FromBigEndian, ReadFrame;
    var f := ReadFrame(k, h, wire);
    if f.got.Ok? {
      ReadFramed(k, h, wire, f.got.value.0, f.got.value.1, f.half);
    }
    if |wire| >= 32 {
      HeaderRefused(k, h, wire);
    }
  }

  /** The header is refused exactly if its tag is not the one that the MAC gives. */
  lemma {:induction false} HeaderRefused(k: Crypto, h: Half, wire: Bytes)
    requires Sound(k) && |wire| >= 32
    ensures ReadFrame(k, h, wire).got == Err(BadHeaderMac) <==> forall m1 :: !Tagged(k, h.mac, wire[..16], m1, wire[16..32])
  {
    hide Reseed, Tagged, Stream;
    var (m1, t1) := Reseed(k, h.mac, wire[..16]);
    ReseedTags(k, h.mac, wire[..16], m1, wire[16..32]);
    forall m ensures Tagged(k, h.mac, wire[..16], m, wire[16..32]) ==> m == m1 {
      ReseedTags(k, h.mac, wire[..16], m, wire[16..32]);
    }
  }

  /** A written frame with other bytes for its tags: the first wrong tag is found, whichever bytes of it are wrong. */
  lemma {:induction false} TagRefused(k: Crypto, h: Half, body: Bytes, rest: Bytes, t: Bytes, u: Bytes)
    requires Sound(k) && |body| <= MAX_UINT24 && |t| == 16 && |u| == 16
    ensures var w := WriteFrame(k, h, body).0;
            var n := |w| - 16;
            && n >= 32 && ReadFrame(k, h, w[..16] + t + w[32..n] + u + rest).got ==
                 if t != w[16..32] then Err(BadHeaderMac) else if u != w[n..] then Err(BadFrameMac) else Ok((body, rest))
  {
    hide Stream, Reseed, Header, BigEndian, FromBigEndian;
    var head := Stream(k, h.pos, Header(|body|));
    var (m1, t1) := Reseed(k, h.mac, head);
    var padded := body + Zeros(Pad(|body|));
    var frame := Stream(k, h.pos + 16, padded);
    var m2 := m1 + frame;
    var (m3, t3) := Reseed(k, m2, k.sum(m2));
    Split4(head, t1, frame, t3, []);
    assert head + t1 + frame + t3 + [] == head + t1 + frame + t3;
    Split4(head, t, frame, u, rest);
    StreamTwice(k, h.pos, Header(|body|));
    StreamTwice(k, h.pos + 16, padded);
    HeaderSize(|body|);
    assert padded[..|body|] == body;
  }

  // ---- messages ----

  datatype Msg = Msg(code: Uint64, payload: Bytes)

  function Body(k: Crypto, snappy: bool, msg: Msg): Bytes {
    AppendUint64(msg.code) + if snappy then k.pack(msg.payload) else msg.payload
  }

  /** A message that fits: its frame, and its plain payload if it is compressed. */
  predicate Fits(k: Crypto, snappy: bool, msg: Msg) {
    (snappy ==> |msg.payload| <= 0xff_ffff) && |Body(k, snappy, msg)| <= 0xff_ffff
  }

  function Parse(k: Crypto, snappy: bool, body: Bytes): Result<Msg> {
    match ReadUint64(body)
    case Err(e) => Err(e)
    case Ok((code, out)) =>
      if code >= 0x1_0000_0000_0000_0000 then Err(BadCode)
      else if !snappy then Ok(Msg(code, out))
      else match k.unpack(out)
        case None => Err(BadCompression)
        case Some(payload) => if |payload| > MAX_UINT24 then Err(TooLarge) else Ok(Msg(code, payload))
  }

  /** What a frame delivers: its message and what follows the frame. */
  function Delivered(k: Crypto, snappy: bool, got: Result<(Bytes, Bytes)>): Result<(Msg, Bytes)> {
    match got
    case Err(e) => Err(e)
    case Ok((body, rest)) =>
      match Parse(k, snappy, body)
      case Err(e) => Err(e)
      case Ok(msg) => Ok((msg, rest))
  }

  lemma {:induction false} ParseBody(k: Crypto, snappy: bool, msg: Msg)
    requires Sound(k) && Fits(k, snappy, msg)
    ensures Parse(k, snappy, Body(k, snappy, msg)) == Ok(msg)
  {
    ReadAppended(msg.code, if snappy then k.pack(msg.payload) else msg.payload);
  }

  class FrameRW {
    const k: Crypto
    const snappy: bool
    var enc: nat
    var egress: Bytes
    var dec: nat
    var ingress: Bytes

    constructor (k: Crypto, snappy: bool, egress: Bytes, ingress: Bytes)
      ensures this.k == k && this.snappy == snappy && enc == 0 && dec == 0
      ensures this.egress == egress && this.ingress == ingress
    {
      this.k, this.snappy, enc, dec, this.egress, this.ingress := k, snappy, 0, 0, egress, ingress;
    }

    /** Encrypt data, and let the MAC take in what goes out. */
    method Tee(data: Bytes) returns (out: Bytes)
      modifies this`enc, this`egress
      ensures out == Stream(k, old(enc), data) && enc == old(enc) + |data| && egress == old(egress) + out
    {
      out := Stream(k, enc, data);
      enc := enc + |data|;
      egress := egress + out;
    }

    method WriteMsg(msg: Msg) returns (r: Result<Bytes>)
      requires Sound(k) && |Body(k, snappy, msg)| < 0x1_0000_0000
      modifies this`enc, this`egress
      ensures r.Ok? <==> Fits(k, snappy, msg)
      ensures r.Err? ==> r == Err(TooLarge) && unchanged(this)
      ensures r.Ok? ==> (r.value, Half(enc, egress)) == WriteFrame(k, old(Half(enc, egress)), Body(k, snappy, msg))
    {
      hide Stream, Reseed, Header, AppendUint64, Zeros, Pad;
      var ptype := AppendUint64(msg.code);
      var payload := msg.payload;
      if snappy {
        if |payload| > MAX_UINT24 {
          return Err(TooLarge);
        }
        payload := k.pack(payload);
      }
      var fsize := |ptype| + |payload|;
      if fsize > MAX_UINT24 {
        return Err(TooLarge);
      }
      var head := Stream(k, enc, Header(fsize));
      enc := enc + 16;
      var (m1, t1) := Reseed(k, egress, head);
      egress := m1;
      var a := Tee(ptype);
      var b := Tee(payload);
      var c := Tee(Zeros(Pad(fsize)));
      TeeAll(k, old(enc) + 16, m1, ptype, payload, Zeros(Pad(fsize)));
      var (m3, t3) := Reseed(k, egress, k.sum(egress));
      egress := m3;
      r := Ok(head + t1 + (a + b + c) + t3);
    }

    method ReadMsg(wire: Bytes) returns (r: Result<(Msg, Bytes)>)
      requires Sound(k)
      modifies this`dec, this`ingress
      ensures var f := ReadFrame(k, old(Half(dec, ingress)), wire);
              Half(dec, ingress) == f.half && r == Delivered(k, snappy, f.got)
      ensures r.Ok? ==> Authentic(k, old(ingress), wire, |wire| - |r.value.1|)
      ensures |wire| >= 32 && (forall m1 :: !Tagged(k, old(ingress), wire[..16], m1, wire[16..32])) ==> r == Err(BadHeaderMac)
    {
      hide Stream, Reseed, Parse, FromBigEndian, Tagged, Authentic;
      ReadAuthentic(k, Half(dec, ingress), wire);
      if |wire| < 32 {
        return Err(ShortRead);
      }
      var (m1, t1) := Reseed(k, ingress, wire[..16]);
      ingress := m1;
      if t1 != wire[16..32] {
        return Err(BadHeaderMac);
      }
      var fsize := FromBigEndian(Stream(k, dec, wire[..16])[..3]);
      dec := dec + 16;
      var rsize := fsize + Pad(fsize);
      if |wire| < 32 + rsize {
        return Err(ShortRead);
      }
      var frame := wire[32..32 + rsize];
      ingress := ingress + frame;
      if |wire| < 32 + rsize + 16 {
        return Err(ShortRead);
      }
      var (m3, t3) := Reseed(k, ingress, k.sum(ingress));
      ingress := m3;
      if t3 != wire[32 + rsize..32 + rsize + 16] {
        return Err(BadFrameMac);
      }
      var body := Stream(k, dec, frame)[..fsize];
      dec := dec + rsize;
      match Parse(k, snappy, body)
      case Err(e) => r := Err(e);
      case Ok(msg) => r := Ok((msg, wire[32 + rsize + 16..]));
    }
  }

  // ---- runs ----

  /** The wire holds exactly the frames of msgs, which lead from the reader's state h to the writer's state last. */
  ghost predicate Backlog(k: Crypto, snappy: bool, h: Half, msgs: seq<Msg>, wire: Bytes, last: Half)
    requires Sound(k)
    decreases |msgs|
  {
    if msgs == [] then wire == [] && h == last
    else
      var (w, h') := WriteFrame(k, h, Body(k, snappy, msgs[0]));
      |w| <= |wire| && wire[..|w|] == w && Backlog(k, snappy, h', msgs[1..], wire[|w|..], last)
  }

  lemma {:induction false} BacklogWrite(k: Crypto, snappy: bool, h: Half, msgs: seq<Msg>, wire: Bytes, last: Half, msg: Msg)
    requires Sound(k) && Backlog(k, snappy, h, msgs, wire, last)
    ensures var (w, last') := WriteFrame(k, last, Body(k, snappy, msg));
            Backlog(k, snappy, h, msgs + [msg], wire + w, last')
    decreases |msgs|
  {
    hide WriteFrame, Body;
    var (w, last') := WriteFrame(k, last, Body(k, snappy, msg));
    if msgs == [] {
      assert [msg][1..] == [] && wire + w == w && w[|w|..] == [];
    } else {
      var (w0, h') := WriteFrame(k, h, Body(k, snappy, msgs[0]));
      BacklogWrite(k, snappy, h', msgs[1..], wire[|w0|..], last, msg);
      assert (msgs + [msg])[1..] == msgs[1..] + [msg];
      assert (wire + w)[..|w0|] == w0 && (wire + w)[|w0|..] == wire[|w0|..] + w;
    }
  }

  lemma {:induction false} BacklogRead(k: Crypto, snappy: bool, h: Half, msgs: seq<Msg>, wire: Bytes, last: Half)
    requires Sound(k) && Backlog(k, snappy, h, msgs, wire, last) && msgs != [] && Fits(k, snappy, msgs[0])
    ensures var (w, h') := WriteFrame(k, h, Body(k, snappy, msgs[0]));
            && |w| <= |wire| && ReadFrame(k, h, wire) == Read(Ok((Body(k, snappy, msgs[0]), wire[|w|..])), h')
            && Backlog(k, snappy, h', msgs[1..], wire[|w|..], last)
            && Parse(k, snappy, Body(k, snappy, msgs[0])) == Ok(msgs[0])
  {
    hide WriteFrame, ReadFrame, Parse;
    var (w, h') := WriteFrame(k, h, Body(k, snappy, msgs[0]));
    FrameLockstep(k, h, Body(k, snappy, msgs[0]), wire[|w|..]);
    assert w + wire[|w|..] == wire;
    ParseBody(k, snappy, msgs[0]);
  }

  /** What a writes, b can read. */
  ghost predicate InStep(a: FrameRW, b: FrameRW)
    reads a, b
  {
    a.k == b.k && a.snappy == b.snappy && a.enc == b.dec && a.egress == b.ingress
  }

  /** All of the messages are written before the first is read; they arrive as they were sent. */
  method Converse(a: FrameRW, b: FrameRW, msgs: seq<Msg>) returns (got: seq<Msg>)
    requires a != b && Sound(a.k) && InStep(a, b) && forall i :: 0 <= i < |msgs| ==> Fits(a.k, a.snappy, msgs[i])
    modifies a`enc, a`egress, b`dec, b`ingress
    ensures got == msgs && InStep(a, b)
  {
    hide WriteFrame, ReadFrame, Parse, Sound, Authentic, Tagged;
    ghost var h := Half(b.dec, b.ingress);
    var wire: Bytes := [];
    var i := 0;
    while i < |msgs|
      invariant 0 <= i <= |msgs| && h == Half(b.dec, b.ingress)
      invariant Backlog(a.k, a.snappy, h, msgs[..i], wire, Half(a.enc, a.egress))
    {
      assert Fits(a.k, a.snappy, msgs[i]);
      BacklogWrite(a.k, a.snappy, h, msgs[..i], wire, Half(a.enc, a.egress), msgs[i]);
      assert msgs[..i + 1] == msgs[..i] + [msgs[i]];
      var r := a.WriteMsg(msgs[i]);
      wire := wire + r.value;
      i := i + 1;
    }
    assert msgs[..i] == msgs == msgs[0..];
    i := 0;
    got := [];
    while i < |msgs|
      invariant 0 <= i <= |msgs| && got == msgs[..i]
      invariant Backlog(a.k, a.snappy, Half(b.dec, b.ingress), msgs[i..], wire, Half(a.enc, a.egress))
      modifies b`dec, b`ingress
    {
      assert msgs[i..][0] == msgs[i] && msgs[i..][1..] == msgs[i + 1..];
      BacklogRead(a.k, a.snappy, Half(b.dec, b.ingress), msgs[i..], wire, Half(a.enc, a.egress));
      var r := b.ReadMsg(wire);
      got, wire := got + [r.value.0], r.value.1;
      i := i + 1;
    }
  }

  // ---- secrets ----

  /** The primitives a handshake is made with: key agreement, key stream and block cipher under a key, hash sum, and
      the compression of payloads. */
  datatype Primitives = Primitives(
    public: Bytes -> Bytes,
    agree: (Bytes, Bytes) -> Bytes,
    ctr: (Bytes, nat) -> Byte,
    cipher: (Bytes, Bytes) -> Bytes,
    sum: Bytes -> Bytes,
    pack: Bytes -> Bytes,
    unpack: Bytes -> Option<Bytes>
  )

  /** Two ends agree on a secret from their own private key and the public key of the other. */
  ghost predicate Agreeing(p: Primitives) {
    && (forall a: Bytes, b: Bytes :: p.agree(a, p.public(b)) == p.agree(b, p.public(a)))
    && (forall b: Bytes :: |p.sum(b)| == 32)
    && (forall key: Bytes, b: Bytes :: |p.cipher(key, b)| == 16)
    && (forall b: Bytes :: p.unpack(p.pack(b)) == Some(b))
  }

  function Keyed(p: Primitives, aes: Bytes, mac: Bytes): Crypto {
    Crypto(n => p.ctr(aes, n), p.sum, b => p.cipher(mac, b), p.pack, p.unpack)
  }

  /** What one end knows after the handshake: its ephemeral private key, the other's public one, and both nonces. */
  datatype Handshake = Handshake(initiator: bool, priv: Bytes, remotePub: Bytes, initNonce: Bytes, respNonce: Bytes)

  /** The views that the two ends have of one handshake. */
  ghost predicate Mirrored(p: Primitives, h: Handshake, g: Handshake) {
    && h.initiator && !g.initiator && h.initNonce == g.initNonce && h.respNonce == g.respNonce
    && h.remotePub == p.public(g.priv) && g.remotePub == p.public(h.priv)
    && |h.initNonce| == 32 && |h.respNonce| == 32
  }

  datatype Secrets = Secrets(aes: Bytes, mac: Bytes, egress: Bytes, ingress: Bytes)

  function SecretsOf(p: Primitives, h: Handshake, auth: Bytes, authResp: Bytes): Secrets
    requires Agreeing(p) && |h.initNonce| == 32 && |h.respNonce| == 32
  {
    var ecdhe := p.agree(h.priv, h.remotePub);
    var shared := p.sum(ecdhe + p.sum(h.respNonce + h.initNonce));
    var aes := p.sum(ecdhe + shared);
    var mac := p.sum(ecdhe + aes);
    var mac1, mac2 := XorAll(mac, h.respNonce) + auth, XorAll(mac, h.initNonce) + authResp;
    if h.initiator then Secrets(aes, mac, mac1, mac2) else Secrets(aes, mac, mac2, mac1)
  }

  /** The ends derive the same keys, and each takes in what the other gives out. */
  lemma {:induction false} SecretsAgree(p: Primitives, h: Handshake, g: Handshake, auth: Bytes, authResp: Bytes)
    requires Agreeing(p) && Mirrored(p, h, g)
    ensures var s, t := SecretsOf(p, h, auth, authResp), SecretsOf(p, g, auth, authResp);
            s.aes == t.aes && s.mac == t.mac && s.egress == t.ingress && s.ingress == t.egress
  {
    assert p.agree(h.priv, h.remotePub) == p.agree(g.priv, g.remotePub);
  }

  /** bytes are the key under the nonce, and then the packet. */
  ghost predicate Seeded(bytes: Bytes, key: Bytes, nonce: Bytes, packet: Bytes) {
    && |key| == 32 && |nonce| == 32 && |bytes| == 32 + |packet| && bytes[32..] == packet
    && (forall i :: 0 <= i < 32 ==> Xor(bytes[i], nonce[i]) == key[i])
  }

  /** Either MAC starts with the nonce of the end that reads it and the packet of the end that writes it. */
  lemma {:induction false} SecretsSeeded(p: Primitives, h: Handshake, auth: Bytes, authResp: Bytes)
    requires Agreeing(p) && |h.initNonce| == 32 && |h.respNonce| == 32
    ensures var s := SecretsOf(p, h, auth, authResp);
            && Seeded(if h.initiator then s.egress else s.ingress, s.mac, h.respNonce, auth)
            && Seeded(if h.initiator then s.ingress else s.egress, s.mac, h.initNonce, authResp)
  {
    var mac := SecretsOf(p, h, auth, authResp).mac;
    XorSeeded(mac, h.respNonce, auth);
    XorSeeded(mac, h.initNonce, authResp);
  }

  lemma {:induction false} XorSeeded(key: Bytes, nonce: Bytes, packet: Bytes)
    requires |key| == 32 && |nonce| == 32
    ensures Seeded(XorAll(key, nonce) + packet, key, nonce, packet)
  {
    hide Xor;
    var bytes := XorAll(key, nonce) + packet;
    forall i | 0 <= i < 32 ensures Xor(bytes[i], nonce[i]) == key[i] {
      XorTwice(key[i], nonce[i]);
    }
  }

  lemma {:induction false} KeyedSound(p: Primitives, aes: Bytes, mac: Bytes)
    requires Agreeing(p)
    ensures Sound(Keyed(p, aes, mac))
  {
  }

  /** The two ends of one handshake start in step, in both directions. */
  method Connect(p: Primitives, h: Handshake, g: Handshake, snappy: bool, auth: Bytes, authResp: Bytes) returns (a: FrameRW, b: FrameRW)
    requires Agreeing(p) && Mirrored(p, h, g)
    ensures fresh(a) && fresh(b) && a != b && Sound(a.k) && InStep(a, b) && InStep(b, a)
  {
    hide SecretsOf, Keyed, Sound;
    var s, t := SecretsOf(p, h, auth, authResp), SecretsOf(p, g, auth, authResp);
    SecretsAgree(p, h, g, auth, authResp);
    KeyedSound(p, s.aes, s.mac);
    a := new FrameRW(Keyed(p, s.aes, s.mac), snappy, s.egress, s.ingress);
    b := new FrameRW(Keyed(p, t.aes, t.mac), snappy, t.egress, t.ingress);
  }
}
