/** Bytes, bitwise exclusive or on unsigned words, and 16-bit fields built from two bytes. */
module Bytes {

  type byte = x: int | 0 <= x < 256

  function Pow2(n: nat): (r: nat)
    ensures r > 0
  {
    if n == 0 then 1 else 2 * Pow2(n - 1)
  }

  lemma Pow2Of8()
    ensures Pow2(8) == 256
  {
    assert Pow2(4) == 16;
    assert Pow2(6) == 64;
  }

  /** C's `a ^ b` on unsigned words, bit by bit from the lowest. */
  function XorNat(a: nat, b: nat): nat
    decreases a + b
  {
    if a == 0 && b == 0 then 0
    else (if a % 2 != b % 2 then 1 else 0) + 2 * XorNat(a / 2, b / 2)
  }

  function Xor(a: byte, b: byte): byte
  {
    XorByteBound(a, b);
    XorNat(a, b)
  }

  lemma {:induction false} XorBound(a: nat, b: nat, n: nat)
    requires a < Pow2(n) && b < Pow2(n)
    ensures XorNat(a, b) < Pow2(n)
    decreases n
  {
    if n > 0 { XorBound(a / 2, b / 2, n - 1); }
  }

  lemma XorByteBound(a: byte, b: byte)
    ensures XorNat(a, b) < 256
  {
    Pow2Of8();
    XorBound(a, b, 8);
  }

  // ----- the group laws of exclusive or

  lemma XorNatStep(a: nat, b: nat)
    ensures XorNat(a, b) % 2 == (if a % 2 != b % 2 then 1 else 0)
    ensures XorNat(a, b) / 2 == XorNat(a / 2, b / 2)
  {
    var low, rest := if a % 2 != b % 2 then 1 else 0, XorNat(a / 2, b / 2);
    XorNatUnfold(a, b, low, rest);
    LowBit(XorNat(a, b), low, rest);
  }

  lemma LowBit(w: nat, low: nat, rest: nat)
    requires w == low + 2 * rest && low < 2
    ensures w % 2 == low && w / 2 == rest
  {
  }

  lemma XorNatUnfold(a: nat, b: nat, low: nat, rest: nat)
    requires low == (if a % 2 != b % 2 then 1 else 0) && rest == XorNat(a / 2, b / 2)
    ensures XorNat(a, b) == low + 2 * rest
  {
  }

  lemma {:induction false} XorNatComm(a: nat, b: nat)
    ensures XorNat(a, b) == XorNat(b, a)
    decreases a + b
  {
    if a != 0 || b != 0 { XorNatComm(a / 2, b / 2); }
  }

  lemma {:induction false} XorNatAssoc(a: nat, b: nat, c: nat)
    ensures XorNat(XorNat(a, b), c) == XorNat(a, XorNat(b, c))
    decreases a + b + c
  {
    if a != 0 || b != 0 || c != 0 {
      var l, r := XorNat(a, b), XorNat(b, c);
      XorNatStep(a, b);
      XorNatStep(b, c);
      XorNatStep(l, c);
      XorNatStep(a, r);
      XorNatAssoc(a / 2, b / 2, c / 2);
    }
  }

  lemma {:induction false} XorNatSelf(a: nat)
    ensures XorNat(a, a) == 0
  {
    if a != 0 { XorNatSelf(a / 2); }
  }

  lemma {:induction false} XorNatZero(a: nat)
    ensures XorNat(a, 0) == a
  {
    if a != 0 { XorNatZero(a / 2); }
  }

  lemma XorComm(a: byte, b: byte)
    ensures Xor(a, b) == Xor(b, a)
  {
    XorNatComm(a, b);
  }

  lemma XorAssoc(a: byte, b: byte, c: byte)
    ensures Xor(Xor(a, b), c) == Xor(a, Xor(b, c))
  {
    XorNatAssoc(a, b, c);
  }

  lemma XorZero(a: byte)
    ensures Xor(a, 0) == a && Xor(0, a) == a
  {
    XorNatZero(a);
    XorComm(a, 0);
  }

  /** Exclusive or with the same byte twice gives the byte back. */
  lemma XorCancel(a: byte, b: byte)
    ensures Xor(Xor(a, b), b) == a
  {
    XorAssoc(a, b, b);
    XorNatSelf(b);
    XorZero(a);
  }

  /** So `a ^ b == c` has exactly one solution in `b`. */
  lemma XorSolve(a: byte, b: byte, c: byte)
    ensures Xor(a, b) == c <==> b == Xor(a, c)
  {
    XorComm(a, b);
    XorCancel(b, a);
    XorComm(a, c);
    XorCancel(c, a);
    XorComm(c, a);
  }

  lemma XorInterchange(a: byte, b: byte, c: byte, d: byte)
    ensures Xor(Xor(a, b), Xor(c, d)) == Xor(Xor(a, c), Xor(b, d))
  {
    XorAssoc(a, b, Xor(c, d));
    XorAssoc(b, c, d);
    XorComm(b, c);
    XorAssoc(c, b, d);
    XorAssoc(a, c, Xor(b, d));
  }

  // ----- machine words as little-endian byte strings

  /** The word whose low `k` bits are those of `a` and whose higher bits are `x`. */
  function Join(a: nat, k: nat, x: nat): nat
    decreases k
  {
    if k == 0 then x else a % 2 + 2 * Join(a / 2, k - 1, x)
  }

  lemma {:induction false} XorJoin(a: nat, x: nat, b: nat, y: nat, k: nat)
    ensures XorNat(Join(a, k, x), Join(b, k, y)) == Join(XorNat(a, b), k, XorNat(x, y))
    decreases k
  {
    if k > 0 {
      var u, v := Join(a, k, x), Join(b, k, y);
      assert u % 2 == a % 2 && u / 2 == Join(a / 2, k - 1, x);
      assert v % 2 == b % 2 && v / 2 == Join(b / 2, k - 1, y);
      XorNatStep(u, v);
      XorNatStep(a, b);
      XorJoin(a / 2, x, b / 2, y, k - 1);
    }
  }

  lemma {:induction false} JoinAdds(a: nat, k: nat, x: nat)
    requires a < Pow2(k)
    ensures Join(a, k, x) == a + Pow2(k) * x
    decreases k
  {
    if k > 0 {
      JoinAdds(a / 2, k - 1, x);
      assert Pow2(k) * x == 2 * (Pow2(k - 1) * x);
    }
  }

  /** Exclusive or acts on the low `k` bits of a word and on the rest of it separately. */
  lemma XorLowBits(a: nat, x: nat, b: nat, y: nat, k: nat)
    requires a < Pow2(k) && b < Pow2(k)
    ensures XorNat(a + Pow2(k) * x, b + Pow2(k) * y) == XorNat(a, b) + Pow2(k) * XorNat(x, y)
  {
    JoinAdds(a, k, x);
    JoinAdds(b, k, y);
    XorBound(a, b, k);
    JoinAdds(XorNat(a, b), k, XorNat(x, y));
    XorJoin(a, x, b, y, k);
  }

  lemma XorLowByte(a: byte, x: nat, b: byte, y: nat)
    ensures XorNat(a + 256 * x, b + 256 * y) == Xor(a, b) + 256 * XorNat(x, y)
  {
    Pow2Of8();
    XorLowBits(a, x, b, y, 8);
  }

  /** The word read from the bytes `s`, and the `n` bytes a word `w` is stored as. */
  function Load(s: seq<byte>): nat
  {
    if s == [] then 0 else s[0] + 256 * Load(s[1..])
  }

  function Store(w: nat, n: nat): (s: seq<byte>)
    ensures |s| == n
    decreases n
  {
    if n == 0 then [] else [w % 256] + Store(w / 256, n - 1)
  }

  function XorSeq(a: seq<byte>, b: seq<byte>): (s: seq<byte>)
    requires |a| == |b|
    ensures |s| == |a|
  {
    seq(|a|, i requires 0 <= i < |a| => Xor(a[i], b[i]))
  }

  lemma StoreCons(c: byte, w: nat, n: nat)
    ensures Store(c + 256 * w, n + 1) == [c] + Store(w, n)
  {
    var x := c + 256 * w;
    hide Store;
    assert x % 256 == c && x / 256 == w;
    StoreUnfold(x, n);
  }

  lemma StoreUnfold(x: nat, n: nat)
    ensures Store(x, n + 1) == [x % 256] + Store(x / 256, n)
  {
  }

  lemma {:induction false} WordXor(a: seq<byte>, b: seq<byte>)
    requires |a| == |b|
    ensures Store(XorNat(Load(a), Load(b)), |a|) == XorSeq(a, b)
    decreases |a|
  {
    if a != [] {
      var x, y := Load(a[1..]), Load(b[1..]);
      XorLowByte(a[0], x, b[0], y);
      StoreCons(Xor(a[0], b[0]), XorNat(x, y), |a| - 1);
      WordXor(a[1..], b[1..]);
      XorSeqCons(a, b);
    }
  }

  lemma XorSeqCons(a: seq<byte>, b: seq<byte>)
    requires |a| == |b| > 0
    ensures XorSeq(a, b) == [Xor(a[0], b[0])] + XorSeq(a[1..], b[1..])
  {
  }

  // ----- a stretch of a buffer

  function Splice<T>(s: seq<T>, off: nat, t: seq<T>): (r: seq<T>)
    requires off + |t| <= |s|
    ensures |r| == |s| && r[off..off + |t|] == t
  {
    s[..off] + t + s[off + |t|..]
  }

  lemma SliceOfSlice<T>(s: seq<T>, a: nat, b: nat, i: nat, j: nat)
    requires a <= b <= |s| && i <= j <= b - a
    ensures s[a..b][i..j] == s[a + i..a + j]
  {
    forall k | 0 <= k < j - i ensures s[a..b][i..j][k] == s[a + i..a + j][k] {
      assert s[a..b][i + k] == s[a + i + k];
    }
  }

  lemma SpliceAt<T>(s: seq<T>, off: nat, t: seq<T>, r: seq<T>)
    requires off + |t| <= |s| == |r|
    requires forall j :: 0 <= j < |s| ==> r[j] == if off <= j < off + |t| then t[j - off] else s[j]
    ensures r == Splice(s, off, t)
  {
  }

  /** Writing one stretch and then the next is writing both. */
  lemma SpliceAppend<T>(s: seq<T>, off: nat, a: seq<T>, b: seq<T>)
    requires off + |a| + |b| <= |s|
    ensures Splice(Splice(s, off, a), off + |a|, b) == Splice(s, off, a + b)
  {
  }

  lemma SpliceTwice<T>(s: seq<T>, off: nat, a: seq<T>, b: seq<T>)
    requires |a| == |b| && off + |a| <= |s|
    ensures Splice(Splice(s, off, a), off, b) == Splice(s, off, b)
  {
  }

  lemma SpliceUpdate<T>(s: seq<T>, off: nat, t: seq<T>, k: nat, v: T)
    requires off + |t| <= |s| && k < |t|
    ensures Splice(s, off, t)[off + k := v] == Splice(s, off, t[k := v])
  {
  }

  /** `memcpy` into a buffer. */
  method Put(buf: array<byte>, off: nat, bytes: seq<byte>)
    requires off + |bytes| <= buf.Length
    modifies buf
    ensures buf[..] == Splice(old(buf[..]), off, bytes)
  {
    ghost var was := buf[..];
    forall i | 0 <= i < |bytes| { buf[off + i] := bytes[i]; }
    SpliceAt(was, off, bytes, buf[..]);
  }

  // ----- 16-bit fields

  function Lo(n: nat): byte { n % 256 }

  function Hi(n: nat): byte { n / 256 % 256 }

  function U16(hi: byte, lo: byte): (n: nat)
    ensures n < 0x1_0000
  {
    256 * hi + lo
  }
}
