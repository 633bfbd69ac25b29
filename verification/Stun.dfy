/** Disguising packets as STUN Data Indications, and answering STUN Binding Requests. */
module Stun {
  import opened Bytes
  import opened Net

  const COOKIE_BE: seq<byte> := [0x21, 0x12, 0xA4, 0x42]
  const STUN_TYPE_DATA_IND: nat := 0x0115
  const STUN_BINDING_REQ: nat := 0x0001
  const STUN_BINDING_RESP: nat := 0x0101
  const STUN_ATTR_XORMAPPED: nat := 0x0020
  const STUN_ATTR_FINGERPR: nat := 0x8028
  const STUN_ATTR_DATA: nat := 0x0013
  const STUN_HEADER: nat := 20
  const STUN_WRAP_OVERHEAD: nat := 24
  const BINDING_RESPONSE_SIZE: nat := 40

  type Txid = t: seq<byte> | |t| == 12 witness [0, 0, 0, 0, 0, 0, 0, 0, 0, 0, 0, 0]

  // ----- messages

  function Header(kind: nat, mlen: nat, txid: Txid): (h: seq<byte>)
    ensures |h| == STUN_HEADER
  {
    [Hi(kind), Lo(kind), Hi(mlen), Lo(mlen)] + COOKIE_BE + txid
  }

  /** The Length field of the header stays 0. */
  function Wrap(p: seq<byte>, txid: Txid): (w: seq<byte>)
    requires |p| <= 0xFFFF
    ensures |w| == STUN_WRAP_OVERHEAD + |p|
  {
    Header(STUN_TYPE_DATA_IND, 0, txid)
    + [Hi(STUN_ATTR_DATA), Lo(STUN_ATTR_DATA), Hi(|p|), Lo(|p|)]
    + p
  }

  function Crc32Bit(crc: nat): nat
  {
    XorNat(crc / 2, if crc % 2 == 1 then 0xEDB88320 else 0)
  }

  function Crc32Bits(crc: nat, n: nat): nat
    decreases n, crc
  {
    if n == 0 then crc else Crc32Bits(Crc32Bit(crc), n - 1)
  }

  function Crc32Run(crc: nat, p: seq<byte>): nat
    decreases |p|, crc
  {
    if p == [] then crc else Crc32Run(Crc32Bits(XorNat(crc, p[0]), 8), p[1..])
  }

  function Crc32(p: seq<byte>): nat
  {
    XorNat(Crc32Run(0xFFFFFFFF, p), 0xFFFFFFFF)
  }

  function BigEndian32(n: nat): (s: seq<byte>)
    ensures |s| == 4
  {
    [n / 0x1000000 % 256, n / 0x10000 % 256, n / 0x100 % 256, n % 256]
  }

  function Fingerprint(pkt: seq<byte>): (s: seq<byte>)
    ensures |s| == 8
  {
    [Hi(STUN_ATTR_FINGERPR), Lo(STUN_ATTR_FINGERPR), 0, 4] + BigEndian32(XorNat(Crc32(pkt), 0x5354554e))
  }

  function XorMapped(src: Addr): (s: seq<byte>)
    ensures |s| == 12
  {
    [Hi(STUN_ATTR_XORMAPPED), Lo(STUN_ATTR_XORMAPPED), 0, 8, 0, 1]
    + [Xor(src.port.0, 0x21), Xor(src.port.1, 0x12)]
    + [Xor(src.ip.a, 0x21), Xor(src.ip.b, 0x12), Xor(src.ip.c, 0xA4), Xor(src.ip.d, 0x42)]
  }

  /** A binding message; the fingerprint is taken while the Length field is still 0. */
  function Binding(kind: nat, attrs: seq<byte>, txid: Txid): (m: seq<byte>)
    ensures |m| == STUN_HEADER + |attrs| + 8
  {
    Header(kind, |attrs| + 8, txid) + attrs + Fingerprint(Header(kind, 0, txid) + attrs)
  }

  function BindingRequest(txid: Txid): seq<byte> { Binding(STUN_BINDING_REQ, [], txid) }

  function BindingSuccess(txid: Txid, src: Addr): (m: seq<byte>)
    ensures |m| == BINDING_RESPONSE_SIZE
  {
    Binding(STUN_BINDING_RESP, XorMapped(src), txid)
  }

  // ----- reading

  predicate CheckMagic(p: seq<byte>) { |p| >= 8 && p[4..8] == COOKIE_BE }

  function PeekType(p: seq<byte>): nat
    requires |p| >= 2
  {
    U16(p[0], p[1])
  }

  function Unwrap(p: seq<byte>): Option<seq<byte>>
  {
    if |p| < STUN_HEADER + 4 then None
    else if PeekType(p) != STUN_TYPE_DATA_IND then None
    else if U16(p[2], p[3]) + 20 > |p| then None
    else if U16(p[20], p[21]) != STUN_ATTR_DATA then None
    else
      var n := U16(p[22], p[23]);
      if n + 24 > |p| then None else Some(p[24..24 + n])
  }

  /** What an unmasking handler makes of a packet: a negative result, nothing left to do, or a payload. */
  datatype Verdict = Rejected | Consumed(replies: seq<seq<byte>>) | Payload(bytes: seq<byte>)

  /**
   * `view` is the buffer from the packet on, of which `len` bytes were received: the transaction id of a short
   * Binding Request is read from the bytes that follow it.
   */
  function OnDataUnwrap(view: seq<byte>, len: nat, src: Addr): Verdict
    requires len <= |view| && BINDING_RESPONSE_SIZE <= |view|
  {
    var p := view[..len];
    if !CheckMagic(p) then Rejected
    else
      var kind := PeekType(p);
      if kind == STUN_BINDING_REQ then Consumed([BindingSuccess(view[8..20], src)])
      else if kind == STUN_BINDING_RESP then Consumed([])
      else if kind == STUN_TYPE_DATA_IND then
        match Unwrap(p)
        case None => Rejected
        case Some(bytes) => Payload(bytes)
      else Consumed([])
  }

  // ----- properties

  lemma WrapFields(p: seq<byte>, txid: Txid)
    requires |p| <= 0xFFFF
    ensures var w := Wrap(p, txid);
      && w[0] == 0x01 && w[1] == 0x15 && w[2] == 0 && w[3] == 0
      && w[4..8] == COOKIE_BE
      && w[20] == 0x00 && w[21] == 0x13 && U16(w[22], w[23]) == |p|
      && w[24..] == p
  {
    var w := Wrap(p, txid);
    assert w[..8] == [0x01, 0x15, 0, 0] + COOKIE_BE;
    assert w[4..8] == w[..8][4..];
    assert w[20..24] == [0x00, 0x13, Hi(|p|), Lo(|p|)];
    assert w[20] == w[20..24][0] && w[21] == w[20..24][1] && w[22] == w[20..24][2] && w[23] == w[20..24][3];
  }

  lemma UnwrapByFields(w: seq<byte>, n: nat, view: seq<byte>, src: Addr)
    requires |w| == 24 + n && w <= view && BINDING_RESPONSE_SIZE <= |view|
    requires w[0] == 0x01 && w[1] == 0x15 && w[2] == 0 && w[3] == 0 && w[4..8] == COOKIE_BE
    requires w[20] == 0x00 && w[21] == 0x13 && U16(w[22], w[23]) == n
    ensures OnDataUnwrap(view, |w|, src) == Payload(w[24..])
  {
    assert view[..|w|] == w;
    assert w[24..24 + n] == w[24..];
  }

  /** Unwrapping what was wrapped gives the same bytes, whatever the buffer holds behind them. */
  lemma UnwrapWrap(p: seq<byte>, txid: Txid, view: seq<byte>, src: Addr)
    requires |p| <= 0xFFFF
    requires Wrap(p, txid) <= view && BINDING_RESPONSE_SIZE <= |view|
    ensures OnDataUnwrap(view, |Wrap(p, txid)|, src) == Payload(p)
  {
    WrapFields(p, txid);
    UnwrapByFields(Wrap(p, txid), |p|, view, src);
  }

  lemma BindingFields(kind: nat, attrs: seq<byte>, txid: Txid)
    requires kind < 0x1_0000
    ensures var m := Binding(kind, attrs, txid);
      m[0] == Hi(kind) && m[1] == Lo(kind) && U16(m[0], m[1]) == kind && m[4..8] == COOKIE_BE
  {
    hide Fingerprint, XorNat, Crc32;
    var m := Binding(kind, attrs, txid);
    assert m[..8] == [Hi(kind), Lo(kind), Hi(|attrs| + 8), Lo(|attrs| + 8)] + COOKIE_BE;
    assert m[4..8] == m[..8][4..];
  }

  /** A control message built by this handler. */
  ghost predicate Control(m: seq<byte>) {
    (exists txid: Txid :: m == BindingRequest(txid)) || (exists txid: Txid, src: Addr :: m == BindingSuccess(txid, src))
  }

  lemma BindingConsumed(m: seq<byte>, kind: nat, view: seq<byte>, src: Addr)
    requires kind in {STUN_BINDING_REQ, STUN_BINDING_RESP}
    requires 8 <= |m| && m <= view && BINDING_RESPONSE_SIZE <= |view|
    requires U16(m[0], m[1]) == kind && m[4..8] == COOKIE_BE
    ensures var v := OnDataUnwrap(view, |m|, src);
      v.Consumed? && forall r :: r in v.replies ==> Control(r)
  {
    assert view[..|m|] == m;
    var id: Txid := view[8..20];
    assert Control(BindingSuccess(id, src));
  }

  /** Control messages are answered or ignored, and leave no payload behind. */
  lemma ControlConsumed(m: seq<byte>, view: seq<byte>, src: Addr)
    requires Control(m) && m <= view && BINDING_RESPONSE_SIZE <= |view|
    ensures |m| >= 8 && U16(m[0], m[1]) in {STUN_BINDING_REQ, STUN_BINDING_RESP}
    ensures var v := OnDataUnwrap(view, |m|, src);
      v.Consumed? && forall r :: r in v.replies ==> Control(r)
  {
    if txid: Txid :| m == BindingRequest(txid) {
      BindingFields(STUN_BINDING_REQ, [], txid);
      BindingConsumed(m, STUN_BINDING_REQ, view, src);
    } else {
      var txid: Txid, to: Addr :| m == BindingSuccess(txid, to);
      BindingFields(STUN_BINDING_RESP, XorMapped(to), txid);
      BindingConsumed(m, STUN_BINDING_RESP, view, src);
    }
  }

  // ----- the CRC-32 of the fingerprint, at a message that brings out its polynomial

  lemma EvenBit(y: nat)
    ensures Crc32Bit(2 * y) == y
  {
    XorNatZero(y);
  }

  lemma Doubled(x: nat, n: nat)
    ensures x * Pow2(n + 1) == 2 * (x * Pow2(n))
  {
  }

  lemma {:induction false} ShiftedOut(x: nat, n: nat, m: nat)
    ensures Crc32Bits(x * Pow2(n), n + m) == Crc32Bits(x, m)
    decreases n
  {
    hide XorNat, Crc32Bit, Pow2;
    if n == 0 {
      assert Pow2(0) == 1 by { OneIsPow2(); }
    } else {
      Doubled(x, n - 1);
      EvenBit(x * Pow2(n - 1));
      ShiftedOut(x, n - 1, m);
    }
  }

  lemma OneIsPow2()
    ensures Pow2(0) == 1
  {
  }

  lemma OnesCancel(x: nat)
    ensures Crc32Bits(XorNat(255 + 256 * x, 255), 8) == x
  {
    XorLowByte(255, x, 255, 0);
    XorNatSelf(255);
    XorNatZero(x);
    Pow2Of8();
    ShiftedOut(x, 8, 0);
  }

  lemma {:induction false} Complement(a: nat, n: nat)
    requires a < Pow2(n)
    ensures XorNat(a, Pow2(n) - 1) == Pow2(n) - 1 - a
    decreases n
  {
    if n > 0 {
      Complement(a / 2, n - 1);
      assert (Pow2(n) - 1) / 2 == Pow2(n - 1) - 1 && (Pow2(n) - 1) % 2 == 1;
    }
  }

  lemma TopBit()
    ensures Crc32Bits(XorNat(0, 0x80), 8) == 0xEDB88320
  {
    hide XorNat, Crc32Bits;
    XorNatZero(0x80);
    XorNatComm(0, 0x80);
    assert Pow2(7) == 0x80 by { assert Pow2(4) == 16; }
    ShiftedOut(1, 7, 1);
    LastBit();
  }

  lemma LastBit()
    ensures Crc32Bits(1, 1) == 0xEDB88320
  {
    hide XorNat;
    XorNatZero(0xEDB88320);
    XorNatComm(0, 0xEDB88320);
    assert Crc32Bits(Crc32Bit(1), 0) == 0xEDB88320;
  }

  lemma Crc32Check()
    ensures Crc32([0xFF, 0xFF, 0xFF, 0xFF, 0x80]) == 0x12477CDF
  {
    hide XorNat, Crc32Bits;
    var p: seq<byte> := [0xFF, 0xFF, 0xFF, 0xFF, 0x80];
    OnesCancel(0xFFFFFF);
    OnesCancel(0xFFFF);
    OnesCancel(0xFF);
    OnesCancel(0);
    TopBit();
    assert p[1..] == [0xFF, 0xFF, 0xFF, 0x80] && p[1..][1..] == [0xFF, 0xFF, 0x80];
    assert Crc32Run(0xEDB88320, []) == 0xEDB88320;
    assert Crc32Run(0, [0x80]) == 0xEDB88320;
    assert Crc32Run(0xFF, [0xFF, 0x80]) == 0xEDB88320;
    assert Crc32Run(0xFFFF, [0xFF, 0xFF, 0x80]) == 0xEDB88320;
    assert Pow2(8) == 256 && Pow2(16) == 0x1_0000 && Pow2(32) == 0x1_0000_0000 by { Pow2Of32(); }
    Complement(0xEDB88320, 32);
  }

  lemma Pow2Of32()
    ensures Pow2(8) == 256 && Pow2(16) == 0x1_0000 && Pow2(32) == 0x1_0000_0000
  {
    Pow2Of8();
    assert Pow2(12) == 0x1000 && Pow2(16) == 0x1_0000;
    assert Pow2(20) == 0x10_0000 && Pow2(24) == 0x100_0000;
    assert Pow2(28) == 0x1000_0000;
  }

  // ----- what is answered, on the bytes

  /** Some bytes at `i` of a message. */
  ghost predicate FieldAt(m: seq<byte>, i: nat, field: seq<byte>) {
    i + |field| <= |m| && m[i..i + |field|] == field
  }

  lemma FieldsJoin(a: seq<byte>, b: seq<byte>, c: seq<byte>)
    ensures FieldAt(a + b + c, |a|, b) && FieldAt(a + b + c, 0, a) && FieldAt(a + b + c, |a| + |b|, c)
  {
    var m := a + b + c;
    assert m[|a|..|a| + |b|] == b && m[0..|a|] == a && m[|a| + |b|..|a| + |b| + |c|] == c;
  }

  lemma FieldWithin(m: seq<byte>, i: nat, field: seq<byte>, j: nat, part: seq<byte>)
    requires FieldAt(m, i, field) && FieldAt(field, j, part)
    ensures FieldAt(m, i + j, part)
  {
    forall k | 0 <= k < |part| ensures m[i + j + k] == part[k] {
      assert m[i..i + |field|][j + k] == field[j + k] && field[j..j + |part|][k] == part[k];
    }
  }

  /** Where everything is in a Binding message. */
  lemma BindingShape(kind: nat, attrs: seq<byte>, txid: Txid)
    ensures var m, n := Binding(kind, attrs, txid), |attrs|;
      && |m| == 28 + n && FieldAt(m, 0, [Hi(kind), Lo(kind)]) && FieldAt(m, 2, [Hi(n + 8), Lo(n + 8)])
      && FieldAt(m, 4, [0x21, 0x12, 0xA4, 0x42]) && FieldAt(m, 8, txid) && FieldAt(m, 20, attrs)
      && FieldAt(m, 20 + n, [0x80, 0x28, 0, 4])
      && FieldAt(m, 24 + n, BigEndian32(XorNat(Crc32(m[..2] + [0, 0] + m[4..20 + n]), 0x5354554e)))
  {
    hide FieldAt, Header, Fingerprint, Crc32, XorNat;
    var m, n, start := Binding(kind, attrs, txid), |attrs|, Header(kind, 0, txid) + attrs;
    var head, tail := Header(kind, n + 8, txid), Fingerprint(start);
    FieldsJoin(head, attrs, tail);
    HeaderShape(kind, n + 8, txid);
    FieldWithin(m, 0, head, 0, [Hi(kind), Lo(kind)]);
    FieldWithin(m, 0, head, 2, [Hi(n + 8), Lo(n + 8)]);
    FieldWithin(m, 0, head, 4, COOKIE_BE);
    FieldWithin(m, 0, head, 8, txid);
    FingerprintShape(start);
    FieldWithin(m, 20 + n, tail, 0, [0x80, 0x28, 0, 4]);
    FieldWithin(m, 20 + n, tail, 4, BigEndian32(XorNat(Crc32(start), 0x5354554e)));
    UnderFingerprint(kind, attrs, txid);
  }

  lemma FingerprintShape(start: seq<byte>)
    ensures var f := Fingerprint(start);
      FieldAt(f, 0, [0x80, 0x28, 0, 4]) && FieldAt(f, 4, BigEndian32(XorNat(Crc32(start), 0x5354554e)))
  {
    hide XorNat, Crc32, BigEndian32;
    FieldsJoin([], [0x80, 0x28, 0, 4], BigEndian32(XorNat(Crc32(start), 0x5354554e)));
  }

  /** The fingerprint covers the message before it, with a Length of 0. */
  lemma UnderFingerprint(kind: nat, attrs: seq<byte>, txid: Txid)
    ensures var m := Binding(kind, attrs, txid); m[..2] + [0, 0] + m[4..20 + |attrs|] == Header(kind, 0, txid) + attrs
  {
    hide Fingerprint;
    var m, n := Binding(kind, attrs, txid), |attrs|;
    assert m[..2] == [Hi(kind), Lo(kind)] && m[4..20 + n] == COOKIE_BE + txid + attrs;
  }

  lemma HeaderShape(kind: nat, mlen: nat, txid: Txid)
    ensures var h := Header(kind, mlen, txid);
      FieldAt(h, 0, [Hi(kind), Lo(kind)]) && FieldAt(h, 2, [Hi(mlen), Lo(mlen)]) && FieldAt(h, 4, COOKIE_BE) && FieldAt(h, 8, txid)
  {
    var h := Header(kind, mlen, txid);
    assert h[0..2] == [Hi(kind), Lo(kind)] && h[2..4] == [Hi(mlen), Lo(mlen)] && h[4..8] == COOKIE_BE && h[8..20] == txid;
  }

  /** A Binding Success of 40 bytes: the transaction id it answers, and the address it was sent to under the cookie. */
  ghost predicate IsAnswer(m: seq<byte>, txid: seq<byte>, to: Addr) {
    && |m| == 40 && FieldAt(m, 0, [0x01, 0x01, 0, 20, 0x21, 0x12, 0xA4, 0x42]) && FieldAt(m, 8, txid)
    && FieldAt(m, 20, [0x00, 0x20, 0, 8, 0, 1])
    && (Xor(m[26], 0x21), Xor(m[27], 0x12)) == to.port
    && Ip(Xor(m[28], 0x21), Xor(m[29], 0x12), Xor(m[30], 0xA4), Xor(m[31], 0x42)) == to.ip
    && FieldAt(m, 32, [0x80, 0x28, 0, 4])
  }

  lemma AnswerShape(txid: Txid, src: Addr)
    ensures IsAnswer(BindingSuccess(txid, src), txid, src)
  {
    hide XorNat, Crc32, BigEndian32, Xor, Binding;
    var m, a := BindingSuccess(txid, src), XorMapped(src);
    BindingShape(STUN_BINDING_RESP, a, txid);
    XorMappedInverse(src);
    assert m[20..32] == a;
    assert forall i :: 0 <= i < 12 ==> m[20 + i] == m[20..32][i];
    assert m[20..26] == a[..6];
    assert m[0..8] == m[0..2] + m[2..4] + m[4..8];
  }

  /** The cookie of RFC 5389, section 6, after a message type. */
  ghost predicate Typed(view: seq<byte>, len: nat, hi: byte, lo: byte) {
    8 <= len <= |view| && view[0] == hi && view[1] == lo && view[4..8] == [0x21, 0x12, 0xA4, 0x42]
  }

  /**
   * Exactly a Binding Request is answered, exactly once, to its sender and under its transaction id. A Binding Success
   * and messages of unknown type rest; only Data Indications and what has no cookie go further.
   */
  lemma AnswersExactly(view: seq<byte>, len: nat, src: Addr)
    requires len <= |view| && BINDING_RESPONSE_SIZE <= |view|
    ensures var v := OnDataUnwrap(view, len, src);
      && (Typed(view, len, 0x00, 0x01) ==> v.Consumed? && |v.replies| == 1 && IsAnswer(v.replies[0], view[8..20], src))
      && (v.Consumed? && v.replies != [] ==> Typed(view, len, 0x00, 0x01))
      && (v.Consumed? <==> exists hi, lo :: Typed(view, len, hi, lo) && (hi, lo) != (0x01, 0x15))
  {
    hide BindingSuccess;
    var p := view[..len];
    if len >= 8 {
      assert p[4..8] == view[4..8];
      assert CheckMagic(p) <==> Typed(view, len, view[0], view[1]);
      AnswerShape(view[8..20], src);
    }
  }

  /** A Data Indication as it can be told from its bytes; what follows the payload is ignored. */
  ghost predicate Carrying(p: seq<byte>, b: seq<byte>) {
    && 24 + |b| <= |p| && |b| < 0x1_0000
    && p[0] == 0x01 && p[1] == 0x15 && p[4..8] == [0x21, 0x12, 0xA4, 0x42] && 0x100 * p[2] as int + p[3] as int + 20 <= |p|
    && p[20] == 0x00 && p[21] == 0x13 && 0x100 * p[22] as int + p[23] as int == |b| && FieldAt(p, 24, b)
  }

  lemma PayloadExactly(view: seq<byte>, len: nat, src: Addr, b: seq<byte>)
    requires len <= |view| && BINDING_RESPONSE_SIZE <= |view|
    ensures OnDataUnwrap(view, len, src) == Payload(b) <==> Carrying(view[..len], b)
  {
    var p := view[..len];
    if Carrying(p, b) {
      assert p[24..24 + |b|] == b;
    }
  }

  lemma BindingVerdicts(view: seq<byte>, len: nat, src: Addr)
    requires len <= |view| && BINDING_RESPONSE_SIZE <= |view|
    ensures Typed(view, len, 0x00, 0x01) ==> OnDataUnwrap(view, len, src) == Consumed([BindingSuccess(view[8..20], src)])
    ensures Typed(view, len, 0x01, 0x01) ==> OnDataUnwrap(view, len, src) == Consumed([])
  {
    hide BindingSuccess;
    assert len >= 8 ==> view[..len][4..8] == view[4..8];
  }

  /** So a request between two relays is answered once, and its answer rests, whoever gets it. */
  lemma AnswerRests(id: Txid, view: seq<byte>, src: Addr, view': seq<byte>, src': Addr)
    requires BindingRequest(id) <= view && BINDING_RESPONSE_SIZE <= |view| && BINDING_RESPONSE_SIZE <= |view'|
    ensures var m := BindingSuccess(id, src);
      && OnDataUnwrap(view, |BindingRequest(id)|, src) == Consumed([m])
      && (m <= view' ==> OnDataUnwrap(view', |m|, src') == Consumed([]))
  {
    hide BindingSuccess, Binding, OnDataUnwrap, Crc32, XorNat, BigEndian32;
    var q, m := BindingRequest(id), BindingSuccess(id, src);
    BindingShape(STUN_BINDING_REQ, [], id);
    TypedField(q, 0x00, 0x01, view);
    assert view[8..20] == q[8..20];
    BindingVerdicts(view, |q|, src);
    AnswerShape(id, src);
    if m <= view' {
      assert m[0..2] == m[0..8][0..2] && m[4..8] == m[0..8][4..8];
      TypedField(m, 0x01, 0x01, view');
      BindingVerdicts(view', |m|, src');
    }
  }

  lemma TypedField(m: seq<byte>, hi: byte, lo: byte, view: seq<byte>)
    requires m <= view && FieldAt(m, 0, [hi, lo]) && FieldAt(m, 4, [0x21, 0x12, 0xA4, 0x42])
    ensures Typed(view, |m|, hi, lo)
  {
    assert view[4..8] == m[4..8] && m[0] == m[0..2][0] && m[1] == m[0..2][1];
  }

  /** XOR-MAPPED-ADDRESS is undone by the cookie, as section 15.2 of RFC 5389 has it for IPv4. */
  lemma XorMappedInverse(src: Addr)
    ensures var a := XorMapped(src);
      && (Xor(a[6], COOKIE_BE[0]), Xor(a[7], COOKIE_BE[1])) == src.port
      && Ip(Xor(a[8], COOKIE_BE[0]), Xor(a[9], COOKIE_BE[1]), Xor(a[10], COOKIE_BE[2]), Xor(a[11], COOKIE_BE[3])) == src.ip
  {
    XorCancel(src.port.0, 0x21);
    XorCancel(src.port.1, 0x12);
    XorCancel(src.ip.a, 0x21);
    XorCancel(src.ip.b, 0x12);
    XorCancel(src.ip.c, 0xA4);
    XorCancel(src.ip.d, 0x42);
  }

  // ----- the shipped form, in the packet buffer

  method Crc32InPlace(buf: array<byte>, off: nat, n: nat) returns (r: nat)
    requires off + n <= buf.Length
    ensures r == Crc32(buf[off..off + n])
  {
    var crc: nat := 0xFFFFFFFF;
    var i := 0;
    ghost var p := buf[off..off + n];
    while i < n
      invariant 0 <= i <= n
      invariant Crc32Run(crc, p[i..]) == Crc32Run(0xFFFFFFFF, p)
    {
      ghost var whole := XorNat(crc, p[i]);
      crc := XorNat(crc, buf[off + i]);
      var k := 0;
      while k < 8
        invariant 0 <= k <= 8
        invariant Crc32Bits(crc, 8 - k) == Crc32Bits(whole, 8)
      {
        crc := XorNat(crc / 2, if crc % 2 == 1 then 0xEDB88320 else 0);
        k := k + 1;
      }
      assert p[i..][1..] == p[i + 1..];
      i := i + 1;
    }
    r := XorNat(crc, 0xFFFFFFFF);
  }

  method WriteHeader(buf: array<byte>, off: nat, kind: nat, mlen: nat, txid: Txid) returns (n: nat)
    requires off + STUN_HEADER <= buf.Length
    modifies buf
    ensures n == STUN_HEADER && buf[..] == Splice(old(buf[..]), off, Header(kind, mlen, txid))
  {
    Put(buf, off, Header(kind, mlen, txid));
    n := STUN_HEADER;
  }

  /** Builds a binding message at `off`: header, attributes, fingerprint, and only then the length. */
  method BuildBinding(buf: array<byte>, off: nat, kind: nat, attrs: seq<byte>, txid: Txid) returns (n: nat)
    requires off + STUN_HEADER + |attrs| + 8 <= buf.Length
    modifies buf
    ensures n == STUN_HEADER + |attrs| + 8
    ensures buf[..] == Splice(old(buf[..]), off, Binding(kind, attrs, txid))
  {
    ghost var was := buf[..];
    n := WriteHeader(buf, off, kind, 0, txid);
    Put(buf, off + n, attrs);
    ghost var start := Header(kind, 0, txid) + attrs;
    SpliceAppend(was, off, Header(kind, 0, txid), attrs);
    n := n + |attrs|;
    assert buf[off..off + n] == buf[..][off..off + n] == start;
    var fp := Crc32InPlace(buf, off, n);
    Put(buf, off + n, [Hi(STUN_ATTR_FINGERPR), Lo(STUN_ATTR_FINGERPR), 0, 4] + BigEndian32(XorNat(fp, 0x5354554e)));
    SpliceAppend(was, off, start, Fingerprint(start));
    n := n + 8;
    ghost var whole, field := start + Fingerprint(start), |attrs| + 8;
    buf[off + 2] := Hi(n - STUN_HEADER);
    buf[off + 3] := Lo(n - STUN_HEADER);
    assert buf[..] == Splice(was, off, whole)[off + 2 := Hi(field)][off + 3 := Lo(field)];
    SpliceUpdate(was, off, whole, 2, Hi(field));
    SpliceUpdate(was, off, whole[2 := Hi(field)], 3, Lo(field));
    LengthFilledIn(kind, attrs, txid);
  }

  lemma LengthFilledIn(kind: nat, attrs: seq<byte>, txid: Txid)
    ensures var start, field := Header(kind, 0, txid) + attrs, |attrs| + 8;
      (start + Fingerprint(start))[2 := Hi(field)][3 := Lo(field)] == Binding(kind, attrs, txid)
  {
    var field := |attrs| + 8;
    assert Header(kind, 0, txid)[2 := Hi(field)][3 := Lo(field)] == Header(kind, field, txid);
  }

  method WrapInPlace(buf: array<byte>, off0: nat, length: nat, txid: Txid) returns (r: int, off: nat)
    requires STUN_WRAP_OVERHEAD <= off0 && off0 + length <= buf.Length
    modifies buf
    ensures length > BUFFER_SIZE ==> r < 0 && off == off0 && buf[..] == old(buf[..])
    ensures length <= BUFFER_SIZE ==>
      var w := Wrap(old(buf[off0..off0 + length]), txid);
      off + STUN_WRAP_OVERHEAD == off0 && r == |w| && buf[..] == Splice(old(buf[..]), off, w)
  {
    off := off0;
    if length > BUFFER_SIZE { return -12, off; }
    ghost var was, p := buf[..], buf[off0..off0 + length];
    off := off - STUN_WRAP_OVERHEAD;
    var mlen := WriteHeader(buf, off, STUN_TYPE_DATA_IND, 0, txid);
    var attr := [Hi(STUN_ATTR_DATA), Lo(STUN_ATTR_DATA), Hi(length), Lo(length)];
    Put(buf, off + mlen, attr);
    SpliceAppend(was, off, Header(STUN_TYPE_DATA_IND, 0, txid), attr);
    SpliceAt(was, off, Wrap(p, txid), buf[..]);
    r := STUN_WRAP_OVERHEAD + length;
  }

  method UnwrapInPlace(buf: array<byte>, off0: nat, length: nat) returns (r: int, off: nat)
    requires off0 + length <= buf.Length
    ensures match Unwrap(buf[off0..off0 + length])
      case None => r < 0 && off == off0
      case Some(bytes) => off == off0 + STUN_WRAP_OVERHEAD && r == |bytes| && off + r <= off0 + length && buf[off..off + r] == bytes
  {
    off := off0;
    if length < STUN_HEADER + 4 { return -1, off; }
    if U16(buf[off], buf[off + 1]) != STUN_TYPE_DATA_IND { return -1, off; }
    if U16(buf[off + 2], buf[off + 3]) + 20 > length { return -1, off; }
    if U16(buf[off + 20], buf[off + 21]) != STUN_ATTR_DATA { return -1, off; }
    var n := U16(buf[off + 22], buf[off + 23]);
    if n + 24 > length { return -1, off; }
    off := off + STUN_WRAP_OVERHEAD;
    r := n;
  }

  /** Turns the Binding Request at `off` into its answer, which is sent back from where it stands. */
  method AnswerBinding(buf: array<byte>, off: nat, src: Addr) returns (reply: seq<byte>)
    requires off + BINDING_RESPONSE_SIZE <= buf.Length
    modifies buf
    ensures reply == BindingSuccess(old(buf[off..])[8..20], src)
    ensures buf[..] == Splice(old(buf[..]), off, reply)
  {
    ghost var view := buf[off..];
    var txid: Txid := buf[off + 8..off + 20];
    assert txid == view[8..20];
    var n := BuildBinding(buf, off, STUN_BINDING_RESP, XorMapped(src), txid);
    reply := buf[off..off + n];
    assert reply == buf[..][off..off + n];
  }

  /** `replies` lists what was sent back. */
  method OnDataUnwrapInPlace(buf: array<byte>, off0: nat, length: nat, src: Addr)
    returns (r: int, off: nat, replies: seq<seq<byte>>)
    requires off0 + length <= buf.Length && off0 + BINDING_RESPONSE_SIZE <= buf.Length
    modifies buf
    ensures match OnDataUnwrap(old(buf[off0..]), length, src)
      case Rejected => r < 0 && off == off0 && replies == [] && buf[..] == old(buf[..])
      case Consumed(sent) => r == 0 && off == off0 && replies == sent
      case Payload(bytes) =>
        && off == off0 + STUN_WRAP_OVERHEAD && r == |bytes| && off + r <= off0 + length
        && replies == [] && buf[..] == old(buf[..]) && buf[off..off + r] == bytes
  {
    off, replies := off0, [];
    ghost var view := buf[off0..];
    ghost var p := view[..length];
    assert p == buf[off0..off0 + length];
    if length >= 8 { SliceOfSlice(buf[..], off, off + length, 4, 8); }
    assert length >= 8 ==> p[4..8] == buf[..][off + 4..off + 8] == buf[off + 4..off + 8];
    if length < 8 || buf[off + 4..off + 8] != COOKIE_BE {
      return -22, off, [];
    }
    var kind := U16(buf[off], buf[off + 1]);
    if kind == STUN_BINDING_REQ {
      var reply := AnswerBinding(buf, off, src);
      return 0, off, [reply];
    } else if kind == STUN_BINDING_RESP {
      return 0, off, [];
    } else if kind == STUN_TYPE_DATA_IND {
      r, off := UnwrapInPlace(buf, off, length);
    } else {
      return 0, off, [];
    }
  }
}
