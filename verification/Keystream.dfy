/** The keystream cipher: the bit-by-bit CRC8 chain, and the table-driven, cached form that is shipped. */
module Keystream {
  import opened Bytes

  const KEYSTREAM_ROW_MAX: nat := 2048
  const ROWS: nat := 256

  /** The key is a C string held in 256 bytes, checked to be non-empty. */
  ghost predicate ValidKey(key: seq<byte>) {
    1 <= |key| <= 255
  }

  // ----- the original cipher

  /** One round of CRC8 with the reflected polynomial 0x8C. */
  function CrcBit(crc: byte, inbyte: byte): byte
  {
    Xor(crc / 2, if crc % 2 != inbyte % 2 then 0x8C else 0)
  }

  function CrcRounds(crc: byte, inbyte: byte, n: nat): byte
    decreases n, crc, inbyte
  {
    if n == 0 then crc else CrcRounds(CrcBit(crc, inbyte), inbyte / 2, n - 1)
  }

  function CrcStep(crc: byte, inbyte: byte): byte
  {
    CrcRounds(crc, inbyte, 8)
  }

  /** What is fed to the CRC at position `i` of a packet of `len` bytes. */
  function InByte(key: seq<byte>, len: nat, i: nat): byte
    requires ValidKey(key)
  {
    (key[i % |key|] + len + |key|) % 256
  }

  /** The CRC after `n` bytes; the keystream byte at position `i` is the CRC after `i + 1`. */
  function KsCrc(key: seq<byte>, len: nat, n: nat): byte
    requires ValidKey(key)
    decreases n, len, key
  {
    if n == 0 then 0 else CrcStep(KsCrc(key, len, n - 1), InByte(key, len, n - 1))
  }

  function Ks(key: seq<byte>, len: nat, i: nat): byte
    requires ValidKey(key)
  {
    KsCrc(key, len, i + 1)
  }

  /** The packet on the wire. */
  function XorStream(key: seq<byte>, p: seq<byte>): (w: seq<byte>)
    requires ValidKey(key)
    ensures |w| == |p|
  {
    seq(|p|, i requires 0 <= i < |p| => Xor(p[i], Ks(key, |p|, i)))
  }

  /** The same keystream removes itself. */
  lemma XorStreamInverse(key: seq<byte>, p: seq<byte>)
    requires ValidKey(key)
    ensures XorStream(key, XorStream(key, p)) == p
  {
    forall i | 0 <= i < |p| ensures XorStream(key, XorStream(key, p))[i] == p[i] {
      XorCancel(p[i], Ks(key, |p|, i));
    }
  }

  // ----- why 256 rows suffice: the chain depends on the length modulo the number of rows only

  lemma InByteOfRow(key: seq<byte>, len: nat, i: nat)
    requires ValidKey(key)
    ensures InByte(key, len % ROWS, i) == InByte(key, len, i)
  {
    var k := key[i % |key|] + |key|;
    var n := k + len % ROWS;
    assert len == ROWS * (len / ROWS) + len % ROWS;
    ModUnique(k + len, 256, len / ROWS + n / 256, n % 256);
  }

  lemma {:induction false} KsCrcOfRow(key: seq<byte>, len: nat, n: nat)
    requires ValidKey(key)
    ensures KsCrc(key, len % ROWS, n) == KsCrc(key, len, n)
    decreases n
  {
    hide CrcStep, InByte;
    if n > 0 {
      KsCrcOfRow(key, len, n - 1);
      InByteOfRow(key, len, n - 1);
    }
  }

  // ----- why two tables suffice: a CRC step is linear in the state and the input

  lemma XorShift(a: byte, b: byte)
    ensures Xor(a, b) / 2 == Xor(a / 2, b / 2)
    ensures Xor(a, b) % 2 == (if a % 2 != b % 2 then 1 else 0)
  {
    XorNatStep(a, b);
  }

  function Feedback(crc: byte, inbyte: byte): byte
  {
    if crc % 2 != inbyte % 2 then 0x8C else 0
  }

  lemma FeedbackLinear(c: byte, d: byte, b: byte, e: byte)
    ensures Feedback(Xor(c, d), Xor(b, e)) == Xor(Feedback(c, b), Feedback(d, e))
  {
    XorShift(c, d);
    XorShift(b, e);
    XorNatSelf(0x8C);
    XorZero(0x8C);
    XorZero(0);
  }

  lemma CrcBitLinear(c: byte, d: byte, b: byte, e: byte)
    ensures CrcBit(Xor(c, d), Xor(b, e)) == Xor(CrcBit(c, b), CrcBit(d, e))
  {
    XorShift(c, d);
    FeedbackLinear(c, d, b, e);
    XorInterchange(c / 2, d / 2, Feedback(c, b), Feedback(d, e));
  }

  lemma {:induction false} CrcRoundsLinear(c: byte, d: byte, b: byte, e: byte, n: nat)
    ensures CrcRounds(Xor(c, d), Xor(b, e), n) == Xor(CrcRounds(c, b, n), CrcRounds(d, e, n))
    decreases n
  {
    if n > 0 {
      CrcBitLinear(c, d, b, e);
      XorShift(b, e);
      CrcRoundsLinear(CrcBit(c, b), CrcBit(d, e), b / 2, e / 2, n - 1);
    }
  }

  lemma CrcStepSplits(c: byte, b: byte)
    ensures CrcStep(c, b) == Xor(CrcStep(c, 0), CrcStep(0, b))
  {
    CrcRoundsLinear(c, 0, 0, b, 8);
    XorZero(c);
    XorZero(b);
  }

  // ----- the shipped form

  method Crc8Step(crc0: byte, inbyte0: byte) returns (crc: byte)
    ensures crc == CrcStep(crc0, inbyte0)
  {
    var inbyte := inbyte0;
    crc := crc0;
    var j := 0;
    while j < 8
      invariant 0 <= j <= 8
      invariant CrcRounds(crc, inbyte, 8 - j) == CrcStep(crc0, inbyte0)
    {
      XorShift(crc, inbyte);
      var mix := Xor(crc, inbyte) % 2;
      ghost var before := crc;
      crc := crc / 2;
      if mix != 0 {
        crc := Xor(crc, 0x8C);
      } else {
        XorZero(crc);
      }
      assert crc == CrcBit(before, inbyte);
      inbyte := inbyte / 2;
      j := j + 1;
    }
  }

  /** A lazily grown prefix of one of the 256 keystreams. */
  class Row {
    var data: array<byte>
    var valid: nat
    var cap: nat
    var crc: byte

    ghost predicate Valid(key: seq<byte>, cls: nat)
      reads this, data
    {
      && ValidKey(key)
      && valid <= cap == data.Length <= KEYSTREAM_ROW_MAX && cap % 256 == 0
      && crc == KsCrc(key, cls, valid)
      && forall i :: 0 <= i < valid ==> data[i] == KsCrc(key, cls, i + 1)
    }

    /** A row of the zeroed static array; the source's null pointer is an empty array. */
    constructor ()
      ensures valid == cap == data.Length == 0 && crc == 0
      ensures fresh(data)
    {
      data := new byte[0];
      valid, cap, crc := 0, 0, 0;
    }
  }

  /** The process-wide tables and rows, for the one key of the process. */
  class Cache {
    const key: seq<byte>
    const crcA: array<byte>
    const crcB: array<byte>
    const rows: seq<Row>
    var tablesReady: bool
    ghost var Repr: set<object>

    ghost predicate TablesFilled()
      reads crcA, crcB
    {
      && crcA.Length == crcB.Length == 256
      && (forall i :: 0 <= i < 256 ==> crcA[i] == CrcStep(i, 0))
      && (forall i :: 0 <= i < 256 ==> crcB[i] == CrcStep(0, i))
    }

    ghost predicate Separate()
      reads this, rows
    {
      && crcA != crcB && crcA.Length == crcB.Length == 256
      && {this, crcA, crcB} <= Repr
      && |rows| == ROWS
      && (forall i :: 0 <= i < ROWS ==> rows[i] in Repr && rows[i].data in Repr)
      && (forall i :: 0 <= i < ROWS ==> rows[i].data != crcA && rows[i].data != crcB)
      && (forall i, j :: 0 <= i < j < ROWS ==> rows[i] != rows[j] && rows[i].data != rows[j].data)
    }

    ghost predicate Valid()
      reads this, Repr, rows
    {
      && ValidKey(key)
      && Separate()
      && (tablesReady ==> TablesFilled())
      && (forall i :: 0 <= i < ROWS ==> rows[i].Valid(key, i))
    }

    constructor (key: seq<byte>)
      requires ValidKey(key)
      ensures Valid() && fresh(Repr) && this.key == key
    {
      this.key := key;
      var a, b := new byte[256], new byte[256];
      crcA, crcB := a, b;
      tablesReady := false;
      var rs: seq<Row> := [];
      ghost var repr: set<object> := {a, b};
      while |rs| < ROWS
        invariant |rs| <= ROWS
        invariant fresh(a) && fresh(b) && a != b && fresh(repr) && a in repr && b in repr
        invariant forall i :: 0 <= i < |rs| ==> rs[i] in repr && rs[i].data in repr && fresh(rs[i].data)
        invariant forall i :: 0 <= i < |rs| ==> rs[i].data != a && rs[i].data != b
        invariant forall i :: 0 <= i < |rs| ==> rs[i].valid == rs[i].cap == rs[i].data.Length == 0 && rs[i].crc == 0
        invariant forall i, j :: 0 <= i < j < |rs| ==> rs[i] != rs[j] && rs[i].data != rs[j].data
      {
        var r := new Row();
        rs := rs + [r];
        repr := repr + {r, r.data};
      }
      rows := rs;
      Repr := repr + {this};
    }

    method EnsureTables()
      requires Valid()
      modifies this`tablesReady, crcA, crcB
      ensures Valid() && tablesReady
    {
      if tablesReady { return; }
      for i := 0 to 256
        invariant forall k :: 0 <= k < i ==> crcA[k] == CrcStep(k, 0)
        invariant forall k :: 0 <= k < i ==> crcB[k] == CrcStep(0, k)
        invariant forall k :: 0 <= k < ROWS ==> rows[k].Valid(key, k)
      {
        crcA[i] := Crc8Step(i, 0);
        crcB[i] := Crc8Step(0, i);
      }
      tablesReady := true;
    }

    /** The table lookup that replaces the eight rounds. */
    method NextCrc(ghost cls: nat, ghost n: nat, crc: byte, inbyte: byte) returns (r: byte)
      requires TablesFilled() && ValidKey(key)
      requires crc == KsCrc(key, cls, n) && inbyte == InByte(key, cls, n)
      ensures r == KsCrc(key, cls, n + 1)
    {
      CrcStepSplits(crc, inbyte);
      r := Xor(crcA[crc], crcB[inbyte]);
    }

    /** A successful `realloc`: the valid bytes move to a larger block. */
    method Realloc(row: Row, ghost cls: nat, newcap: nat)
      requires row.Valid(key, cls) && row.cap < newcap <= KEYSTREAM_ROW_MAX && newcap % 256 == 0
      modifies row`data, row`cap
      ensures row.Valid(key, cls) && fresh(row.data)
      ensures row.cap == newcap && row.valid == old(row.valid) && row.crc == old(row.crc)
    {
      var p := new byte[newcap];
      forall i | 0 <= i < row.cap { p[i] := row.data[i]; }
      row.data := p;
      row.cap := newcap;
    }

    /** Extends a row to `need0` bytes; `allocOk` is the answer of `realloc`, should it be asked. */
    method GrowRow(row: Row, cls: nat, need0: nat, allocOk: bool)
      requires TablesFilled() && row.Valid(key, cls)
      requires row.data != crcA && row.data != crcB
      modifies row, row.data
      ensures row.Valid(key, cls)
      ensures row.data == old(row.data) || fresh(row.data)
      ensures row.valid >= old(row.valid)
      ensures allocOk ==> row.valid >= if need0 > KEYSTREAM_ROW_MAX then KEYSTREAM_ROW_MAX else need0
    {
      var need := if need0 > KEYSTREAM_ROW_MAX then KEYSTREAM_ROW_MAX else need0;
      if row.valid >= need { return; }
      if row.cap < need {
        var newcap := (need + 255) / 256 * 256;
        if newcap > KEYSTREAM_ROW_MAX { newcap := KEYSTREAM_ROW_MAX; }
        if !allocOk { return; }
        Realloc(row, cls, newcap);
      }
      FillRow(row, cls, need);
    }

    method FillRow(row: Row, cls: nat, need: nat)
      requires TablesFilled() && row.Valid(key, cls) && row.valid <= need <= row.cap
      requires row.data != crcA && row.data != crcB
      modifies row`valid, row`crc, row.data
      ensures row.Valid(key, cls) && row.valid == need
    {
      var crc, ki := row.crc, row.valid % |key|;
      var i := row.valid;
      while i < need
        invariant old(row.valid) <= i <= need && ki == i % |key|
        invariant row.valid == old(row.valid)
        invariant crc == KsCrc(key, cls, i)
        invariant forall k :: 0 <= k < i ==> row.data[k] == KsCrc(key, cls, k + 1)
      {
        var inbyte := (key[ki] + cls + |key|) % 256;
        crc := NextCrc(cls, i, crc, inbyte);
        row.data[i] := crc;
        ModNext(i, |key|);
        ki := ki + 1;
        if ki == |key| { ki := 0; }
        i := i + 1;
      }
      row.valid := need;
      row.crc := crc;
    }

    /**
     * Exclusive or of `length` bytes at `off` with the keystream. For every history of calls, every length and
     * every pattern of failed allocations the bytes are those of the original cipher, and nothing else moves.
     */
    method XorData(buffer: array<byte>, off: nat, length: int, allocOk: bool)
      requires Valid() && buffer !in Repr
      requires off + length <= buffer.Length
      modifies Repr, buffer
      ensures Valid() && fresh(Repr - old(Repr))
      ensures length <= 0 ==> buffer[..] == old(buffer[..])
      ensures length > 0 ==>
        buffer[..] == Splice(old(buffer[..]), off, XorStream(key, old(buffer[off..off + length])))
    {
      if length <= 0 { return; }
      EnsureTables();
      var cls := length % ROWS;
      var cached := if length <= KEYSTREAM_ROW_MAX then length else KEYSTREAM_ROW_MAX;
      if rows[cls].valid < cached {
        GrowOwnRow(cls, cached, allocOk);
      }
      XorPacket(buffer, off, rows[cls], length);
    }

    method XorPacket(buffer: array<byte>, off: nat, row: Row, length: nat)
      requires TablesFilled() && row.Valid(key, length % ROWS) && off + length <= buffer.Length
      requires buffer != crcA && buffer != crcB && buffer != row.data
      modifies buffer
      ensures buffer[..] == Splice(old(buffer[..]), off, XorStream(key, old(buffer[off..off + length])))
    {
      ghost var was := buffer[..];
      XorRow(buffer, off, row, length % ROWS, length);
      forall i | 0 <= i < length ensures KsCrc(key, length % ROWS, i + 1) == Ks(key, length, i) { KsCrcOfRow(key, length, i + 1); }
      assert was[off..off + length] == old(buffer[off..off + length]);
      SpliceAt(was, off, XorStream(key, was[off..off + length]), buffer[..]);
    }

    /** The cached bytes first, then whatever the row does not hold. */
    method XorRow(buffer: array<byte>, off: nat, row: Row, cls: nat, length: nat)
      requires TablesFilled() && row.Valid(key, cls) && off + length <= buffer.Length
      requires buffer != crcA && buffer != crcB && buffer != row.data
      modifies buffer
      ensures forall j :: 0 <= j < buffer.Length ==>
        buffer[j] == if off <= j < off + length then Xor(old(buffer[j]), KsCrc(key, cls, j - off + 1)) else old(buffer[j])
    {
      var n := if length < row.valid then length else row.valid;
      if n > 0 {
        XorBlock(buffer, off, row.data, n);
      }
      if n < length {
        XorTail(buffer, off, row, cls, n, length);
      }
    }

    /** Growing one of the rows disturbs neither the tables nor the other rows. */
    method GrowOwnRow(cls: nat, need: nat, allocOk: bool)
      requires Valid() && TablesFilled() && cls < ROWS
      modifies `Repr, rows[cls], rows[cls].data
      ensures Valid() && TablesFilled() && fresh(Repr - old(Repr))
      ensures rows[cls].valid >= old(rows[cls].valid)
      ensures allocOk ==> rows[cls].valid >= if need > KEYSTREAM_ROW_MAX then KEYSTREAM_ROW_MAX else need
    {
      hide KsCrc, CrcStep, CrcRounds;
      GrowRow(rows[cls], cls, need, allocOk);
      Repr := Repr + {rows[cls].data};
    }

    method XorTail(buffer: array<byte>, off: nat, row: Row, cls: nat, n: nat, length: nat)
      requires TablesFilled() && row.Valid(key, cls)
      requires n == row.valid < length && off + length <= buffer.Length
      requires buffer != crcA && buffer != crcB && buffer != row.data
      modifies buffer
      ensures forall j :: 0 <= j < buffer.Length ==>
        buffer[j] == if off + n <= j < off + length then Xor(old(buffer[j]), KsCrc(key, cls, j - off + 1)) else old(buffer[j])
    {
      hide KsCrc, CrcStep, CrcRounds, Xor;
      var crc, ki := row.crc, n % |key|;
      for i := n to length
        invariant ki == i % |key| && crc == KsCrc(key, cls, i)
        invariant forall j :: 0 <= j < buffer.Length ==>
          buffer[j] == if off + n <= j < off + i then Xor(old(buffer[j]), KsCrc(key, cls, j - off + 1)) else old(buffer[j])
      {
        var inbyte := (key[ki] + cls + |key|) % 256;
        crc := NextCrc(cls, i, crc, inbyte);
        buffer[off + i] := Xor(buffer[off + i], crc);
        ModNext(i, |key|);
        ki := ki + 1;
        if ki == |key| { ki := 0; }
      }
    }
  }

  lemma ModNext(i: nat, k: nat)
    requires k > 0
    ensures (i + 1) % k == if i % k + 1 == k then 0 else i % k + 1
  {
    var q, r := i / k, i % k;
    if r + 1 == k {
      assert i + 1 == k * (q + 1);
      ModUnique(i + 1, k, q + 1, 0);
    } else {
      ModUnique(i + 1, k, q, r + 1);
    }
  }

  lemma ModUnique(n: nat, k: nat, q: nat, r: nat)
    requires r < k && n == k * q + r
    ensures n % k == r
  {
    var d := n / k - q;
    assert k * d == r - n % k;
  }

  const WORD: nat := 8

  /** Exclusive or of `n` bytes, one 64-bit word at a time and then byte by byte. */
  method XorBlock(dst: array<byte>, off: nat, ks: array<byte>, n: nat)
    requires dst != ks && off + n <= dst.Length && n <= ks.Length
    modifies dst
    ensures forall j :: 0 <= j < dst.Length ==>
      dst[j] == if off <= j < off + n then Xor(old(dst[j]), ks[j - off]) else old(dst[j])
  {
    var i := 0;
    while i + WORD <= n
      invariant 0 <= i <= n
      invariant forall j :: 0 <= j < dst.Length ==>
        dst[j] == if off <= j < off + i then Xor(old(dst[j]), ks[j - off]) else old(dst[j])
    {
      XorWord(dst, off + i, ks, i, WORD);
      i := i + WORD;
    }
    while i < n
      invariant 0 <= i <= n
      invariant forall j :: 0 <= j < dst.Length ==>
        dst[j] == if off <= j < off + i then Xor(old(dst[j]), ks[j - off]) else old(dst[j])
    {
      dst[off + i] := Xor(dst[off + i], ks[i]);
      i := i + 1;
    }
  }

  /** Both words are read whole, combined by one word-wide operation, and the result is stored back. */
  method XorWord(dst: array<byte>, d: nat, ks: array<byte>, k: nat, w: nat)
    requires dst != ks && d + w <= dst.Length && k + w <= ks.Length
    modifies dst
    ensures forall j :: 0 <= j < dst.Length ==>
      dst[j] == if d <= j < d + w then Xor(old(dst[j]), ks[k + j - d]) else old(dst[j])
  {
    var a, b := Load(dst[d..d + w]), Load(ks[k..k + w]);
    WordXor(dst[d..d + w], ks[k..k + w]);
    a := XorNat(a, b);
    var bytes := Store(a, w);
    forall j | 0 <= j < w { dst[d + j] := bytes[j]; }
  }
}
