/** The packet codec on top of the keystream: version byte games, padding, and recovery of the length. */
module Codec {
  import opened Bytes
  import opened Keystream

  const OBFUSCATION_VERSION: nat := 1
  const MAX_DUMMY_LENGTH_TOTAL: nat := 1024
  const MAX_DUMMY_LENGTH_HANDSHAKE: nat := 512

  const WG_TYPE_HANDSHAKE: nat := 1
  const WG_TYPE_HANDSHAKE_RESP: nat := 2
  const WG_TYPE_COOKIE: nat := 3
  const WG_TYPE_DATA: nat := 4

  /** The first four bytes as a little-endian 32-bit word. */
  function WgType(p: seq<byte>): nat
    requires |p| >= 4
  {
    p[0] as nat + 0x100 * p[1] as nat + 0x1_0000 * p[2] as nat + 0x100_0000 * p[3] as nat
  }

  predicate IsObfuscated(p: seq<byte>)
    requires |p| >= 4
  {
    !(1 <= WgType(p) <= 4)
  }

  /** What a WireGuard peer sends, and what the relay takes for it. */
  ghost predicate WgPacket(p: seq<byte>) {
    |p| >= 4 && !IsObfuscated(p)
  }

  function Min(a: int, b: int): int { if a < b then a else b }

  // ----- what is sent

  /** The padding of a packet of type `kind`, where `r` is the next value of `rand()`. */
  function DummyLength(kind: nat, length: nat, maxData: nat, r: nat): (d: nat)
    requires length < MAX_DUMMY_LENGTH_TOTAL
    ensures length + d < MAX_DUMMY_LENGTH_TOTAL
  {
    var room := MAX_DUMMY_LENGTH_TOTAL - length;
    if kind == WG_TYPE_HANDSHAKE || kind == WG_TYPE_HANDSHAKE_RESP then
      r % Min(room, MAX_DUMMY_LENGTH_HANDSHAKE)
    else if (kind == WG_TYPE_COOKIE || kind == WG_TYPE_DATA) && maxData != 0 then
      r % Min(room, maxData)
    else
      0
  }

  function RandomByte(r: nat): byte { 1 + r % 255 }

  /** The random choices of one call of `encode`. */
  datatype Dice = Dice(first: nat, second: nat)

  /** How much padding a packet gets, and what its third and fourth bytes become. */
  function PadLength(p: seq<byte>, maxData: nat, dice: Dice): (d: nat)
    requires |p| >= 4
  {
    if |p| < MAX_DUMMY_LENGTH_TOTAL then DummyLength(WgType(p), |p|, maxData, dice.second) else 0
  }

  function PadField(p: seq<byte>, maxData: nat, dice: Dice): (byte, byte)
    requires |p| >= 4
  {
    if |p| < MAX_DUMMY_LENGTH_TOTAL then
      var d := PadLength(p, maxData, dice);
      (Lo(d), Hi(d))
    else
      (p[2], p[3])
  }

  /** The packet before the keystream is applied. */
  function Dress(p: seq<byte>, version: nat, maxData: nat, dice: Dice): (x: seq<byte>)
    requires |p| >= 4
    ensures |x| >= |p|
  {
    if version == 0 then p
    else
      var rnd := RandomByte(dice.first);
      var field := PadField(p, maxData, dice);
      [Xor(p[0], rnd), rnd, field.0, field.1] + p[4..] + seq(PadLength(p, maxData, dice), _ => 0xFF)
  }

  function Encode(key: seq<byte>, p: seq<byte>, version: nat, maxData: nat, dice: Dice): (w: seq<byte>)
    requires ValidKey(key) && |p| >= 4
    ensures |w| >= |p|
  {
    XorStream(key, Dress(p, version, maxData, dice))
  }

  // ----- what is received

  /** `bytes` is the whole window; the packet is its first `length` bytes, if that makes sense. */
  datatype Decoded = Decoded(bytes: seq<byte>, length: int, version: nat) {
    /** The test the callers apply to the result. */
    predicate Usable() { 4 <= length <= |bytes| }
  }

  /** The part of `decode` after the keystream is removed; `version` is what the caller's variable held. */
  function Undress(x: seq<byte>, version: nat): Decoded
    requires |x| >= 4
  {
    if !IsObfuscated(x) then
      Decoded(x, |x|, 0)
    else
      Decoded([Xor(x[0], x[1]), 0, 0, 0] + x[4..], |x| - U16(x[3], x[2]), version)
  }

  function Decode(key: seq<byte>, w: seq<byte>, version: nat): Decoded
    requires ValidKey(key) && |w| >= 4
  {
    Undress(XorStream(key, w), version)
  }

  // ----- the round trip

  lemma U16Inverse(n: nat)
    requires n < 0x1_0000
    ensures U16(Hi(n), Lo(n)) == n
  {
  }

  lemma PadFieldSaysLength(p: seq<byte>, maxData: nat, dice: Dice)
    requires WgPacket(p)
    ensures var f := PadField(p, maxData, dice); U16(f.1, f.0) == PadLength(p, maxData, dice)
  {
    if |p| < MAX_DUMMY_LENGTH_TOTAL {
      U16Inverse(PadLength(p, maxData, dice));
    }
  }

  lemma PlainShape(p: seq<byte>)
    requires |p| >= 4
    ensures WgPacket(p) <==> 1 <= p[0] <= 4 && p[1] == p[2] == p[3] == 0
  {
  }

  lemma DressShape(p: seq<byte>, maxData: nat, dice: Dice)
    requires |p| >= 4
    ensures var x := Dress(p, 1, maxData, dice);
      && |x| == |p| + PadLength(p, maxData, dice)
      && x[0] == Xor(p[0], RandomByte(dice.first)) && x[1] == RandomByte(dice.first)
      && (x[2], x[3]) == PadField(p, maxData, dice)
      && x[4..|p|] == p[4..]
  {
    hide Xor, DummyLength;
  }

  lemma UndressByShape(x: seq<byte>, p: seq<byte>, v0: nat)
    requires WgPacket(p) && |p| <= |x| && x[1] != 0
    requires Xor(x[0], x[1]) == p[0] && U16(x[3], x[2]) == |x| - |p| && x[4..|p|] == p[4..]
    ensures var d := Undress(x, v0);
      d.length == |p| <= |d.bytes| && d.bytes[..|p|] == p && d.version == v0
  {
    hide Xor;
    PlainShape(p);
    PlainShape(x);
    assert Undress(x, v0).bytes[..|p|] == [p[0], 0, 0, 0] + x[4..|p|] == p;
  }

  lemma DressInverse(p: seq<byte>, version: nat, maxData: nat, dice: Dice, v0: nat)
    requires WgPacket(p)
    ensures var d := Undress(Dress(p, version, maxData, dice), v0);
      && d.length == |p| <= |d.bytes|
      && d.bytes[..|p|] == p
      && d.version == if version == 0 then 0 else v0
  {
    if version != 0 {
      hide Xor, Undress;
      var x := Dress(p, 1, maxData, dice);
      DressShape(p, maxData, dice);
      XorCancel(p[0], RandomByte(dice.first));
      PadFieldSaysLength(p, maxData, dice);
      UndressByShape(x, p, v0);
      assert Dress(p, version, maxData, dice) == x;
    }
  }

  /**
   * Whatever the random choices, either version, and whatever either side has cached: decoding gives the same bytes
   * and length back. It sets the caller's version to 0 if version 0 was used, and leaves it as it was otherwise.
   */
  lemma RoundTrip(key: seq<byte>, p: seq<byte>, version: nat, maxData: nat, dice: Dice, v0: nat)
    requires ValidKey(key) && WgPacket(p)
    ensures var d := Decode(key, Encode(key, p, version, maxData, dice), v0);
      && d.Usable()
      && d.length == |p|
      && d.bytes[..|p|] == p
      && d.version == if version == 0 then 0 else v0
  {
    XorStreamInverse(key, Dress(p, version, maxData, dice));
    DressInverse(p, version, maxData, dice, v0);
  }

  /** Version 0 keeps the length; version 1 pads only packets that stay below 1024 bytes. */
  lemma EncodedLength(key: seq<byte>, p: seq<byte>, version: nat, maxData: nat, dice: Dice)
    requires ValidKey(key) && |p| >= 4
    ensures var w := Encode(key, p, version, maxData, dice);
      && (version == 0 || |p| >= MAX_DUMMY_LENGTH_TOTAL ==> |w| == |p|)
      && (|w| > |p| ==> |w| < MAX_DUMMY_LENGTH_TOTAL)
      && (maxData <= 1 && WgType(p) in {WG_TYPE_COOKIE, WG_TYPE_DATA} ==> |w| == |p|)
      && (maxData > 1 && WgType(p) in {WG_TYPE_COOKIE, WG_TYPE_DATA} ==> |w| < |p| + maxData)
      && (WgType(p) in {WG_TYPE_HANDSHAKE, WG_TYPE_HANDSHAKE_RESP} ==> |w| < |p| + MAX_DUMMY_LENGTH_HANDSHAKE)
      && (WgType(p) !in {WG_TYPE_HANDSHAKE, WG_TYPE_HANDSHAKE_RESP, WG_TYPE_COOKIE, WG_TYPE_DATA} ==> |w| == |p|)
  {
  }

  // ----- every disguise that is allowed can come up, and no other

  /** Padding is shorter than this; it depends on the type, the length and, for cookies and data, on `max-dummy`. */
  ghost function PadLimit(p: seq<byte>, maxData: nat): (n: nat)
    requires WgPacket(p)
  {
    if |p| >= 1024 then 1
    else if p[0] <= 2 then Min(1024 - |p|, 512)
    else if maxData == 0 then 1
    else Min(1024 - |p|, maxData)
  }

  /** The packet `p` with the random byte `b` and `d` bytes of padding. */
  ghost function Disguise(p: seq<byte>, b: byte, d: nat): seq<byte>
    requires |p| >= 4 && d < 0x1_0000
  {
    [Xor(p[0], b), b] + (if |p| < 1024 then [d % 256, d / 256] else p[2..4]) + p[4..] + seq(d, _ => 0xFF)
  }

  ghost predicate MayBecome(key: seq<byte>, p: seq<byte>, maxData: nat, b: byte, d: nat, w: seq<byte>)
    requires ValidKey(key) && WgPacket(p)
  {
    b != 0 && d < 0x1_0000 && d < PadLimit(p, maxData) && w == XorStream(key, Disguise(p, b, d))
  }

  /** What `encode` makes of a packet: any random byte but 0, any padding below the limit, and nothing else. */
  lemma EncodingsExactly(key: seq<byte>, p: seq<byte>, maxData: nat, w: seq<byte>)
    requires ValidKey(key) && WgPacket(p)
    ensures (exists dice: Dice :: w == Encode(key, p, 1, maxData, dice)) <==> (exists b: byte, d: nat :: MayBecome(key, p, maxData, b, d, w))
  {
    if dice: Dice :| w == Encode(key, p, 1, maxData, dice) {
      PadRange(p, maxData, dice);
      DressIsDisguise(p, maxData, dice);
      assert MayBecome(key, p, maxData, RandomByte(dice.first), PadLength(p, maxData, dice), w);
    }
    if b: byte, d: nat :| MayBecome(key, p, maxData, b, d, w) {
      var dice := Dice(b - 1, d);
      PadRange(p, maxData, dice);
      DressIsDisguise(p, maxData, dice);
      assert w == Encode(key, p, 1, maxData, dice);
    }
  }

  lemma PadRange(p: seq<byte>, maxData: nat, dice: Dice)
    requires WgPacket(p)
    ensures RandomByte(dice.first) != 0 && PadLength(p, maxData, dice) < PadLimit(p, maxData) <= 1024
    ensures dice.first < 255 ==> RandomByte(dice.first) == dice.first + 1
    ensures dice.second < PadLimit(p, maxData) ==> PadLength(p, maxData, dice) == dice.second
  {
    PadIsRemainder(p, maxData, dice);
    hide PadLength, PadLimit, WgPacket;
    var limit := PadLimit(p, maxData);
    if dice.second < limit { assert dice.second % limit == dice.second; }
  }

  lemma PadIsRemainder(p: seq<byte>, maxData: nat, dice: Dice)
    requires WgPacket(p)
    ensures 0 < PadLimit(p, maxData) <= 1024 && PadLength(p, maxData, dice) == dice.second % PadLimit(p, maxData)
  {
    PlainShape(p);
    hide IsObfuscated;
    assert WgType(p) == p[0];
    hide WgType;
  }

  lemma DressIsDisguise(p: seq<byte>, maxData: nat, dice: Dice)
    requires WgPacket(p) && PadLength(p, maxData, dice) < 0x1_0000
    ensures Dress(p, 1, maxData, dice) == Disguise(p, RandomByte(dice.first), PadLength(p, maxData, dice))
  {
    hide Xor, IsObfuscated, RandomByte, PadLength;
    var d, b := PadLength(p, maxData, dice), RandomByte(dice.first);
    assert PadField(p, maxData, dice) == if |p| < 1024 then (Lo(d), Hi(d)) else (p[2], p[3]);
    assert p[2..4] == [p[2], p[3]];
    assert d % 256 == Lo(d) && d / 256 == Hi(d);
  }

  // ----- when an encoded packet passes for a plain one

  lemma {:induction false} MisreadExactly(key: seq<byte>, p: seq<byte>, maxData: nat, dice: Dice)
    requires ValidKey(key) && WgPacket(p)
    ensures var w := Encode(key, p, 1, maxData, dice);
      !IsObfuscated(w) <==>
        && RandomByte(dice.first) == Ks(key, |w|, 1)
        && PadField(p, maxData, dice) == (Ks(key, |w|, 2), Ks(key, |w|, 3))
        && 1 <= Xor(Xor(p[0], Ks(key, |w|, 1)), Ks(key, |w|, 0)) <= 4
  {
    var x, w := Dress(p, 1, maxData, dice), Encode(key, p, 1, maxData, dice);
    assert x[2] == PadField(p, maxData, dice).0 && x[3] == PadField(p, maxData, dice).1;
    forall i | 0 <= i < 4 ensures w[i] == Xor(x[i], Ks(key, |w|, i)) && (w[i] == 0 <==> x[i] == Ks(key, |w|, i)) {
      XorSolve(x[i], Ks(key, |w|, i), 0);
      XorZero(x[i]);
    }
  }

  /** So for one packet and one padding at most one of the 255 random bytes is bad. */
  lemma AtMostOneBadByte(key: seq<byte>, p: seq<byte>, maxData: nat, dice: Dice, other: Dice)
    requires ValidKey(key) && WgPacket(p)
    requires dice.second == other.second
    requires !IsObfuscated(Encode(key, p, 1, maxData, dice)) && !IsObfuscated(Encode(key, p, 1, maxData, other))
    ensures RandomByte(dice.first) == RandomByte(other.first)
  {
    hide Xor, Ks;
    MisreadExactly(key, p, maxData, dice);
    MisreadExactly(key, p, maxData, other);
  }

  // One such packet: with this key the keystream of 32 bytes starts with 247, 247, 0, 0.

  const MISREAD_KEY: seq<byte> := [0xD5, 0xDE]

  lemma XorHigh(h: nat)
    requires h < 8
    ensures XorNat(h, 8) == 8 + h
  {
    hide XorNat;
    XorNatZero(1);
    XorNatComm(0, 1);
    XorNatUnfold(h / 4, 2, h / 4, XorNat(0, 1));
    XorNatUnfold(h / 2, 4, h / 2 % 2, XorNat(h / 4, 2));
    XorNatUnfold(h, 8, h % 2, XorNat(h / 2, 4));
  }

  /** The bits of the polynomial, one after the other. */
  lemma XorPolynomial(c: byte)
    requires c < 128
    ensures Xor(c, 0x8C) == 128 + 16 * (c / 16) + 4 * (3 - c / 4 % 4) + c % 4
  {
    hide XorNat;
    XorHigh(c / 16);
    XorNatUnfold(c / 8, 17, 1 - c / 8 % 2, XorNat(c / 16, 8));
    XorNatUnfold(c / 4, 35, 1 - c / 4 % 2, XorNat(c / 8, 17));
    XorNatUnfold(c / 2, 70, c / 2 % 2, XorNat(c / 4, 35));
    XorNatUnfold(c, 0x8C, c % 2, XorNat(c / 2, 70));
  }

  lemma RoundsTo247()
    ensures CrcBit(0, 247) == 140 && CrcBit(140, 123) == 202 && CrcBit(202, 61) == 233 && CrcBit(233, 30) == 248
    ensures CrcBit(248, 15) == 240 && CrcBit(240, 7) == 244 && CrcBit(244, 3) == 246 && CrcBit(246, 1) == 247
  {
    hide Xor;
    XorPolynomial(0);
    XorPolynomial(70);
    XorPolynomial(101);
    XorPolynomial(116);
    XorPolynomial(124);
    XorPolynomial(120);
    XorPolynomial(122);
    XorPolynomial(123);
  }

  lemma StepTo247()
    ensures CrcStep(0, 247) == 247
  {
    hide CrcBit;
    RoundsTo247();
    assert CrcRounds(240, 7, 3) == CrcRounds(244, 3, 2) == CrcRounds(246, 1, 1) == 247;
    assert CrcRounds(202, 61, 6) == CrcRounds(233, 30, 5) == CrcRounds(248, 15, 4) == 247;
    assert CrcRounds(140, 123, 7) == 247;
  }

  lemma StepsFrom247()
    ensures CrcStep(247, 0) == 247 && CrcStep(247, 247) == 0 && CrcStep(0, 0) == 0
  {
    hide CrcBit, Xor;
    RoundsTo247();
    StepTo247();
    RoundsAtRest();
    assert CrcRounds(247, 0, 4) == 247 && CrcRounds(0, 0, 4) == 0;
    CrcStepSplits(247, 247);
    XorCancel(0, 247);
    XorZero(247);
  }

  lemma RoundsAtRest()
    ensures CrcBit(247, 0) == 247 && CrcBit(0, 0) == 0
  {
    hide Xor;
    XorPolynomial(123);
    XorZero(0);
  }

  lemma MisreadKeystream()
    ensures ValidKey(MISREAD_KEY)
    ensures Ks(MISREAD_KEY, 32, 0) == Ks(MISREAD_KEY, 32, 1) == 247 && Ks(MISREAD_KEY, 32, 2) == Ks(MISREAD_KEY, 32, 3) == 0
  {
    hide CrcStep;
    StepTo247();
    StepsFrom247();
    var k := MISREAD_KEY;
    assert InByte(k, 32, 0) == InByte(k, 32, 2) == 247 && InByte(k, 32, 1) == InByte(k, 32, 3) == 0;
    assert KsCrc(k, 32, 1) == 247;
    assert KsCrc(k, 32, 2) == 247;
    assert KsCrc(k, 32, 3) == 0;
    assert KsCrc(k, 32, 4) == 0;
  }

  lemma MisreadUnpadded(p: seq<byte>)
    requires WgPacket(p) && |p| == 32 && p[0] == 4
    ensures |Encode(MISREAD_KEY, p, 1, 4, Dice(246, 0))| == 32
    ensures RandomByte(246) == 247 && PadField(p, 4, Dice(246, 0)) == (0, 0)
  {
    hide Xor, Ks;
    PlainShape(p);
    assert PadLength(p, 4, Dice(246, 0)) == 0;
  }

  /** A packet that is misread, so that the two lemmas above are about something. */
  lemma MisreadHappens(p: seq<byte>)
    requires WgPacket(p) && |p| == 32 && p[0] == 4
    ensures ValidKey(MISREAD_KEY) && !IsObfuscated(Encode(MISREAD_KEY, p, 1, 4, Dice(246, 0)))
  {
    hide Ks, Xor;
    MisreadKeystream();
    XorCancel(p[0], 247);
    MisreadUnpadded(p);
    MisreadExactly(MISREAD_KEY, p, 4, Dice(246, 0));
  }

  // ----- the shipped form, in the packet buffer

  method EncodeInPlace(cache: Cache, buf: array<byte>, off: nat, length0: nat, version: nat, maxData: nat, dice: Dice, allocOk: bool)
    returns (length: nat)
    requires cache.Valid() && buf !in cache.Repr
    requires length0 >= 4 && off + length0 <= buf.Length && off + MAX_DUMMY_LENGTH_TOTAL <= buf.Length
    modifies cache.Repr, buf
    ensures cache.Valid() && fresh(cache.Repr - old(cache.Repr))
    ensures var w := Encode(cache.key, old(buf[off..off + length0]), version, maxData, dice);
      length == |w| && off + length <= buf.Length && buf[..] == Splice(old(buf[..]), off, w)
  {
    hide Dress, XorStream, Splice, DummyLength, Cache.Valid;
    length := length0;
    ghost var was, p := buf[..], buf[off..off + length0];
    ghost var x := Dress(p, version, maxData, dice);
    if version >= 1 {
      length := DressInPlace(buf, off, length0, maxData, dice);
      LaterVersions(p, version, maxData, dice);
    } else {
      VersionZero(was, off, p, maxData, dice);
    }
    assert buf[off..off + length] == buf[..][off..off + length];
    cache.XorData(buf, off, length, allocOk);
    SpliceTwice(was, off, x, XorStream(cache.key, x));
  }

  lemma LaterVersions(p: seq<byte>, version: nat, maxData: nat, dice: Dice)
    requires |p| >= 4 && version >= 1
    ensures Dress(p, version, maxData, dice) == Dress(p, 1, maxData, dice)
  {
    hide Xor, PadLength, PadField;
  }

  lemma VersionZero(was: seq<byte>, off: nat, p: seq<byte>, maxData: nat, dice: Dice)
    requires 4 <= |p| && off + |p| <= |was| && p == was[off..off + |p|]
    ensures Dress(p, 0, maxData, dice) == p && was == Splice(was, off, p)
  {
  }

  method DressInPlace(buf: array<byte>, off: nat, length0: nat, maxData: nat, dice: Dice) returns (length: nat)
    requires length0 >= 4 && off + length0 <= buf.Length && off + MAX_DUMMY_LENGTH_TOTAL <= buf.Length
    modifies buf
    ensures var x := Dress(old(buf[off..off + length0]), 1, maxData, dice);
      length == |x| && off + length <= buf.Length && buf[..] == Splice(old(buf[..]), off, x)
  {
    hide Xor;
    length := length0;
    ghost var was, p := buf[..], buf[off..off + length0];
    var kind := WgType(buf[off..off + length0]);
    var rnd := RandomByte(dice.first);
    buf[off] := Xor(buf[off], rnd);
    buf[off + 1] := rnd;
    if length < MAX_DUMMY_LENGTH_TOTAL {
      var d := DummyLength(kind, length, maxData, dice.second);
      buf[off + 2] := Lo(d);
      buf[off + 3] := Hi(d);
      if d > 0 {
        var i := length;
        length := length + d;
        Fill(buf, off + i, off + length);
      }
    }
    SpliceAt(was, off, Dress(p, 1, maxData, dice), buf[..]);
  }

  method Fill(buf: array<byte>, from: nat, to: nat)
    requires from <= to <= buf.Length
    modifies buf
    ensures forall j :: 0 <= j < buf.Length ==> buf[j] == if from <= j < to then 0xFF else old(buf[j])
  {
    for i := from to to
      invariant forall j :: 0 <= j < buf.Length ==> buf[j] == if from <= j < i then 0xFF else old(buf[j])
    {
      buf[i] := 0xFF;
    }
  }

  method DecodeInPlace(cache: Cache, buf: array<byte>, off: nat, length0: nat, version0: nat, allocOk: bool)
    returns (length: int, version: nat)
    requires cache.Valid() && buf !in cache.Repr
    requires length0 >= 4 && off + length0 <= buf.Length
    modifies cache.Repr, buf
    ensures cache.Valid() && fresh(cache.Repr - old(cache.Repr))
    ensures var d := Decode(cache.key, old(buf[off..off + length0]), version0);
      |d.bytes| == length0 && length == d.length && version == d.version && buf[..] == Splice(old(buf[..]), off, d.bytes)
  {
    ghost var was := buf[..];
    length, version := length0, version0;
    cache.XorData(buf, off, length0, allocOk);
    ghost var x := XorStream(cache.key, was[off..off + length0]);
    assert was[off..off + length0] == old(buf[off..off + length0]);
    assert buf[off..off + length0] == buf[..][off..off + length0] == x;
    if !IsObfuscated(buf[off..off + length0]) {
      return length, 0;
    }
    length := UndressInPlace(buf, off, length);
    assert buf[..] == Splice(was, off, Undress(x, version0).bytes);
  }

  method UndressInPlace(buf: array<byte>, off: nat, length0: nat) returns (length: int)
    requires length0 >= 4 && off + length0 <= buf.Length
    requires IsObfuscated(buf[off..off + length0])
    modifies buf
    ensures var d := Undress(old(buf[off..off + length0]), 0);
      |d.bytes| == length0 && length == d.length && buf[..] == Splice(old(buf[..]), off, d.bytes)
  {
    hide Xor, U16, WgType;
    ghost var was, x := buf[..], buf[off..off + length0];
    buf[off] := Xor(buf[off], buf[off + 1]);
    length := length0 - U16(buf[off + 3], buf[off + 2]);
    buf[off + 1], buf[off + 2], buf[off + 3] := 0, 0, 0;
    ghost var t := Undress(x, 0).bytes;
    assert forall j :: 4 <= j < length0 ==> t[j] == x[4..][j - 4] == was[off + j];
    forall j | 0 <= j < |was| ensures buf[..][j] == if off <= j < off + |t| then t[j - off] else was[j] {
      assert j - off >= 4 ==> was[off + (j - off)] == was[j];
    }
    SpliceAt(was, off, t, buf[..]);
  }
}
