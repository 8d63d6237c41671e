/** Key encodings of the trie: KEYBYTES, HEX (one nibble per element, optionally closed by
    the terminator 16) and COMPACT (hex-prefix form used on disk). */
module HexKeys {

  type Byte = x: int | 0 <= x < 256

  type Bytes = seq<Byte>

  const TERM: Byte := 16

  /** The value part of a key in HEX form: nibbles only. */
  ghost predicate Nibbles(s: Bytes) {
    forall i :: 0 <= i < |s| ==> s[i] < 16
  }

  predicate HasTerm(s: Bytes) {
    |s| > 0 && s[|s| - 1] == TERM
  }

  function StripTerm(s: Bytes): (r: Bytes)
    ensures r <= s
  {
    if HasTerm(s) then s[..|s| - 1] else s
  }

  /** HEX strings: nibbles with at most one terminator, at the end. */
  ghost predicate IsHex(s: Bytes) {
    Nibbles(StripTerm(s))
  }

  /** A full lookup path: nibbles closed by the terminator. */
  ghost predicate IsPath(s: Bytes) {
    HasTerm(s) && Nibbles(StripTerm(s))
  }

  // ---- KEYBYTES <-> HEX ----

  function HexAt(k: Bytes, i: nat): Byte
    requires i <= 2 * |k|
  {
    if i == 2 * |k| then TERM else if i % 2 == 0 then k[i / 2] / 16 else k[i / 2] % 16
  }

  function KeyToHex(k: Bytes): (h: Bytes)
    ensures |h| == 2 * |k| + 1
    ensures IsPath(h)
  {
    seq(2 * |k| + 1, i requires 0 <= i <= 2 * |k| => HexAt(k, i))
  }

  /** Two nibbles per byte, high nibble first. */
  function Pack(s: Bytes): (r: Bytes)
    requires Nibbles(s) && |s| % 2 == 0
    ensures |r| == |s| / 2
  {
    seq(|s| / 2, i requires 0 <= i < |s| / 2 => s[2 * i] * 16 + s[2 * i + 1])
  }

  function HexToKey(h: Bytes): Bytes
    requires IsHex(h) && |StripTerm(h)| % 2 == 0
  {
    Pack(StripTerm(h))
  }

  /** The layout of the hex form: two nibbles for each byte, the high one first, and 16 at the end. */
  ghost predicate HexLayout(k: Bytes, h: Bytes) {
    && |h| == 2 * |k| + 1 && h[2 * |k|] == 16
    && (forall i :: 0 <= i < |k| ==> h[2 * i] < 16 && h[2 * i + 1] < 16 && k[i] as int == 16 * (h[2 * i] as int) + h[2 * i + 1] as int)
  }

  lemma {:induction false} HexLaidOut(k: Bytes)
    ensures HexLayout(k, KeyToHex(k))
  {
    forall i | 0 <= i < |k| ensures KeyToHex(k)[2 * i] == k[i] / 16 && KeyToHex(k)[2 * i + 1] == k[i] % 16 {
      assert KeyToHex(k)[2 * i] == HexAt(k, 2 * i) && KeyToHex(k)[2 * i + 1] == HexAt(k, 2 * i + 1);
    }
  }

  lemma {:induction false} HexToKeyInverse(k: Bytes)
    ensures HexToKey(KeyToHex(k)) == k
  {
    var h := KeyToHex(k);
    var s := StripTerm(h);
    assert |s| == 2 * |k|;
    forall i | 0 <= i < |k| ensures Pack(s)[i] == k[i] {
      assert s[2 * i] == h[2 * i] == k[i] / 16;
      assert s[2 * i + 1] == h[2 * i + 1] == k[i] % 16;
    }
  }

  /** Distinct keys have distinct paths, and no path is a proper prefix of another. */
  lemma {:induction false} PathsPrefixFree(a: Bytes, b: Bytes)
    requires IsPath(a) && IsPath(b) && a <= b
    ensures a == b
  {
    assert forall i :: 0 <= i < |b| - 1 ==> b[i] == StripTerm(b)[i];
    assert b[|a| - 1] == TERM;
  }

  lemma {:induction false} KeyToHexInjective(a: Bytes, b: Bytes)
    requires KeyToHex(a) == KeyToHex(b)
    ensures a == b
  {
    HexToKeyInverse(a);
    HexToKeyInverse(b);
  }

  // ---- HEX <-> COMPACT ----

  /** 32 for a terminator, 16 plus the first nibble for an odd length. */
  function Flag(h: Bytes): (f: Byte)
    requires IsHex(h)
    ensures f < 64
  {
    var body := StripTerm(h);
    (if HasTerm(h) then 32 else 0) + (if |body| % 2 == 1 then 16 + body[0] else 0)
  }

  function HexToCompact(h: Bytes): (c: Bytes)
    requires IsHex(h)
    ensures |c| > 0
  {
    var body := StripTerm(h);
    [Flag(h)] + Pack(body[|body| % 2..])
  }

  /** Applies the terminator and oddness flags found in the first nibble. */
  function Unmark(base: Bytes): Bytes
    requires |base| >= 2
  {
    var marked := if base[0] >= 2 then base + [TERM] else base;
    marked[2 - base[0] % 2..]
  }

  /** Every byte string of length at least one is accepted, canonical or not. */
  function CompactToHex(c: Bytes): Bytes
    requires |c| > 0
  {
    Unmark(Unpack(c))
  }

  /** The nibbles of a byte string, without terminator. */
  function Unpack(k: Bytes): (s: Bytes)
    ensures |s| == 2 * |k| && Nibbles(s)
  {
    StripTerm(KeyToHex(k))
  }

  lemma {:induction false} KeyNibbles(k: Bytes)
    ensures KeyToHex(k)[..2 * |k|] == Unpack(k)
  {
  }

  lemma {:induction false} UnpackPack(s: Bytes)
    requires Nibbles(s) && |s| % 2 == 0
    ensures Unpack(Pack(s)) == s
  {
    var p := Pack(s);
    forall i | 0 <= i < |s| ensures Unpack(p)[i] == s[i] {
      assert Unpack(p)[i] == HexAt(p, i);
      assert p[i / 2] == s[2 * (i / 2)] * 16 + s[2 * (i / 2) + 1];
    }
  }

  lemma {:induction false} UnpackCons(f: Byte, p: Bytes)
    ensures Unpack([f] + p) == [f / 16, f % 16] + Unpack(p)
  {
    var c := [f] + p;
    forall i | 2 <= i < 2 * |c| ensures Unpack(c)[i] == Unpack(p)[i - 2] {
      assert Unpack(c)[i] == HexAt(c, i);
      assert Unpack(p)[i - 2] == HexAt(p, i - 2);
      assert c[i / 2] == p[(i - 2) / 2];
    }
    assert Unpack(c)[0] == HexAt(c, 0) && Unpack(c)[1] == HexAt(c, 1);
  }

  /** What the flag byte f says about the nibbles behind it. */
  lemma {:induction false} UnmarkFlag(f: Byte, rest: Bytes)
    ensures Unmark([f / 16, f % 16] + rest) ==
            (if f / 16 % 2 == 1 then [f % 16] else []) + rest + (if f >= 32 then [TERM] else [])
  {
    var tail := if f >= 32 then [TERM] else [];
    var marked := [f / 16, f % 16] + rest + tail;
    assert marked[1..] == [f % 16] + rest + tail;
    assert marked[2..] == rest + tail;
    assert [f / 16, f % 16] + rest + [] == [f / 16, f % 16] + rest;
  }

  lemma {:induction false} UnpackFlag(f: Byte, rest: Bytes)
    requires Nibbles(rest) && |rest| % 2 == 0
    ensures Unpack([f] + Pack(rest)) == [f / 16, f % 16] + rest
  {
    UnpackPack(rest);
    UnpackCons(f, Pack(rest));
  }

  lemma {:induction false} ReadFlag(f: Byte, rest: Bytes)
    requires Nibbles(rest) && |rest| % 2 == 0
    ensures CompactToHex([f] + Pack(rest)) ==
            (if f / 16 % 2 == 1 then [f % 16] else []) + rest + (if f >= 32 then [TERM] else [])
  {
    UnpackFlag(f, rest);
    UnmarkFlag(f, rest);
  }

  lemma {:induction false} CompactToHexInverse(h: Bytes)
    requires IsHex(h)
    ensures CompactToHex(HexToCompact(h)) == h
  {
    var body := StripTerm(h);
    var rest := body[|body| % 2..];
    FlagParts(h);
    ReadFlag(Flag(h), rest);
    hide CompactToHex, Pack, Flag;
    assert (if |body| % 2 == 1 then [Flag(h) % 16] else []) + rest == body;
    assert body + (if HasTerm(h) then [TERM] else []) == h;
  }

  lemma {:induction false} FlagParts(h: Bytes)
    requires IsHex(h)
    ensures var body := StripTerm(h);
            && (Flag(h) >= 32 <==> HasTerm(h)) && Flag(h) / 16 % 2 == |body| % 2
            && (|body| % 2 == 1 ==> Flag(h) % 16 == body[0])
  {
  }

  lemma {:induction false} HexToCompactInjective(a: Bytes, b: Bytes)
    requires IsHex(a) && IsHex(b) && HexToCompact(a) == HexToCompact(b)
    ensures a == b
  {
    CompactToHexInverse(a);
    CompactToHexInverse(b);
  }

  /** The layout of the compact form: the first nibble is twice the terminator flag plus the oddness flag, the second
      is the odd nibble or 0, and the other nibbles follow in pairs. */
  ghost predicate CompactLayout(h: Bytes, c: Bytes) {
    var t := if |h| > 0 && h[|h| - 1] == 16 then 1 else 0;
    var o := (|h| - t) % 2;
    && |c| == (|h| - t) / 2 + 1 && c[0] == 16 * (2 * t + o) + (if o == 1 then h[0] else 0)
    && (forall i :: 0 <= i < |c| - 1 ==> c[i + 1] as int == 16 * (h[o + 2 * i] as int) + h[o + 2 * i + 1] as int)
  }

  lemma {:induction false} CompactLaidOut(h: Bytes)
    requires IsHex(h)
    ensures CompactLayout(h, HexToCompact(h))
  {
    var body, c := StripTerm(h), HexToCompact(h);
    var t, o := |h| - |body|, |body| % 2;
    assert t == (if |h| > 0 && h[|h| - 1] == 16 then 1 else 0) && c[0] == Flag(h) && Flag(h) == 16 * (2 * t + o) + (if o == 1 then h[0] else 0);
    hide Flag;
    forall i | 0 <= i < |c| - 1 ensures c[i + 1] as int == 16 * (h[o + 2 * i] as int) + h[o + 2 * i + 1] as int {
      PackAt(body[o..], i);
      assert c[i + 1] == Pack(body[o..])[i] && body[o..][2 * i] == h[o + 2 * i] && body[o..][2 * i + 1] == h[o + 2 * i + 1];
    }
  }

  lemma {:induction false} PackAt(s: Bytes, i: nat)
    requires Nibbles(s) && |s| % 2 == 0 && i < |s| / 2
    ensures Pack(s)[i] as int == 16 * (s[2 * i] as int) + s[2 * i + 1] as int
  {
  }

  /** The first byte as encoding writes it: the flags below 4, and no nibble beside a clear oddness flag. */
  function CanonicalFlag(f: Byte): Byte {
    (if f >= 32 then 32 else 0) + (if f / 16 % 2 == 1 then 16 + f % 16 else 0)
  }

  /** Encoding what was decoded gives back the bytes with a canonical flag, so exactly the canonical ones. */
  lemma {:induction false} HexToCompactInverse(c: Bytes)
    requires |c| > 0
    ensures IsHex(CompactToHex(c)) && HexToCompact(CompactToHex(c)) == c[0 := CanonicalFlag(c[0])]
    ensures HexToCompact(CompactToHex(c)) == c <==> c[0] < 64 && (c[0] / 16 % 2 == 0 ==> c[0] % 16 == 0)
  {
    hide CompactToHex, HexToCompact, Pack, Unpack, IsHex, CanonicalFlag;
    var f, rest := c[0], Unpack(c[1..]);
    UnpackNibbles(c[1..]);
    assert c == [f] + Pack(rest);
    ReadFlag(f, rest);
    Reencoded(f, rest);
    CanonicalWhen(f);
    assert [CanonicalFlag(f)] + Pack(rest) == c[0 := CanonicalFlag(f)];
    assert c[0 := CanonicalFlag(f)] == c <==> CanonicalFlag(f) == f;
  }

  lemma {:induction false} UnpackNibbles(k: Bytes)
    ensures Nibbles(Unpack(k)) && |Unpack(k)| % 2 == 0 && Pack(Unpack(k)) == k
  {
    HexToKeyInverse(k);
  }

  lemma {:induction false} CanonicalWhen(f: Byte)
    ensures CanonicalFlag(f) == f <==> f < 64 && (f / 16 % 2 == 0 ==> f % 16 == 0)
  {
  }

  lemma {:induction false} Reencoded(f: Byte, rest: Bytes)
    requires Nibbles(rest) && |rest| % 2 == 0
    ensures var h := (if f / 16 % 2 == 1 then [f % 16] else []) + rest + (if f >= 32 then [TERM] else []);
            IsHex(h) && HexToCompact(h) == [CanonicalFlag(f)] + Pack(rest)
  {
    var body := (if f / 16 % 2 == 1 then [f % 16] else []) + rest;
    var h := body + if f >= 32 then [TERM] else [];
    assert StripTerm(h) == body && (HasTerm(h) <==> f >= 32);
    assert body[|body| % 2..] == rest;
  }

  // ---- the loops of encoding.go ----

  method ComputeKeyToHex(str: Bytes) returns (r: Bytes)
    ensures r == KeyToHex(str)
    ensures HexLayout(str, r)
  {
    var l := |str| * 2 + 1;
    var nibbles := new Byte[l](_ => 0);
    for i := 0 to |str|
      invariant forall j :: 0 <= j < 2 * i ==> nibbles[j] == HexAt(str, j)
    {
      nibbles[i * 2] := str[i] / 16;
      nibbles[i * 2 + 1] := str[i] % 16;
    }
    nibbles[l - 1] := TERM;
    r := nibbles[..];
    HexLaidOut(str);
  }

  /** Writes the packed nibbles into buf from index start on; the rest of buf is untouched. */
  method DecodeNibbles(nibbles: Bytes, buf: array<Byte>, start: nat)
    requires Nibbles(nibbles) && |nibbles| % 2 == 0
    requires start + |nibbles| / 2 == buf.Length
    modifies buf
    ensures buf[..] == old(buf[..start]) + Pack(nibbles)
  {
    var bi, ni := 0, 0;
    while ni < |nibbles|
      invariant ni == 2 * bi <= |nibbles|
      invariant buf[..start] == old(buf[..start])
      invariant forall j :: 0 <= j < bi ==> buf[start + j] == Pack(nibbles)[j]
    {
      buf[start + bi] := nibbles[ni] * 16 + nibbles[ni + 1];
      bi, ni := bi + 1, ni + 2;
    }
  }

  method ComputeHexToCompact(h: Bytes) returns (r: Bytes)
    requires IsHex(h)
    ensures r == HexToCompact(h) && CompactLayout(h, r)
  {
    hide CompactLayout;
    var terminator, hex := 0, h;
    if HasTerm(hex) {
      terminator := 1;
      hex := hex[..|hex| - 1];
    }
    var buf := new Byte[|hex| / 2 + 1](_ => 0);
    buf[0] := terminator * 32;
    if |hex| % 2 == 1 {
      buf[0] := buf[0] + 16 + hex[0];
      hex := hex[1..];
    }
    CompactLaidOut(h);
    DecodeNibbles(hex, buf, 1);
    r := buf[..];
  }

  method ComputeHexToKey(h: Bytes) returns (r: Bytes)
    requires IsHex(h) && |StripTerm(h)| % 2 == 0
    ensures r == HexToKey(h) && |r| == |h| / 2
    ensures forall i :: 0 <= i < |r| ==> r[i] == 16 * h[2 * i] + h[2 * i + 1]
  {
    var hex := h;
    if HasTerm(hex) {
      hex := hex[..|hex| - 1];
    }
    var key := new Byte[(|hex| + 1) / 2](_ => 0);
    DecodeNibbles(hex, key, 0);
    r := key[..];
  }

  // ---- common prefixes ----

  function PrefixLen(a: Bytes, b: Bytes): (n: nat)
    ensures n <= |a| && n <= |b|
    ensures a[..n] == b[..n]
    ensures n < |a| && n < |b| ==> a[n] != b[n]
  {
    if a == [] || b == [] || a[0] != b[0] then 0
    else
      assert forall n: nat :: n <= |a[1..]| ==> a[..n + 1] == [a[0]] + a[1..][..n];
      assert forall n: nat :: n <= |b[1..]| ==> b[..n + 1] == [b[0]] + b[1..][..n];
      1 + PrefixLen(a[1..], b[1..])
  }

  /** The longest common prefix, found by scanning to the first difference. */
  method ComputePrefixLen(a: Bytes, b: Bytes) returns (i: nat)
    ensures i == PrefixLen(a, b)
  {
    i := 0;
    var length := if |b| < |a| then |b| else |a|;
    while i < length && a[i] == b[i]
      invariant i <= length
      invariant a[..i] == b[..i]
    {
      i := i + 1;
    }
    PrefixLenUnique(a, b, i);
  }

  lemma {:induction false} PrefixLenUnique(a: Bytes, b: Bytes, n: nat)
    requires n <= |a| && n <= |b| && a[..n] == b[..n]
    requires n < |a| && n < |b| ==> a[n] != b[n]
    ensures PrefixLen(a, b) == n
  {
    var m := PrefixLen(a, b);
    assert forall i :: 0 <= i < n ==> a[i] == a[..n][i] == b[i];
    assert forall i :: 0 <= i < m ==> a[i] == a[..m][i] == b[i];
  }
}
