/** The intrusive hash table (uthash): each element carries its links, in insertion order and in its bucket's chain. */
module Table {
  import opened Bytes
  import opened Net
  import opened Masking
  import opened RelaySpec

  const HASH_INITIAL_NUM_BUCKETS: nat := 32
  const HASH_INITIAL_NUM_BUCKETS_LOG2: nat := 5
  const HASH_BKT_CAPACITY_THRESH: nat := 10

  /** An entry of the relay with its embedded hash handle; the key is the entry's own address field. */
  class Elem {
    var addr: Addr
    var sock: nat
    var peer: Option<Addr>
    var version: nat
    var mask: Mask
    var handshaked: bool
    var dir: Dir
    var clientObf: bool
    var serverObf: bool
    var clean: bool
    var isStatic: bool
    var named: bool
    var lastActivity: int
    var lastIncoming: int
    var lastRequest: int
    var lastHandshake: int
    var lastTimer: int

    // the hash handle
    var prev: Elem?
    var next: Elem?
    var hhPrev: Elem?
    var hhNext: Elem?
    var hashv: nat

    /** The entry as a value. */
    function Entry(): Conn
      reads `addr, `sock, `peer, `version, `mask, `handshaked, `dir, `clientObf, `serverObf, `clean, `isStatic, `named
      reads `lastActivity, `lastIncoming, `lastRequest, `lastHandshake, `lastTimer
    {
      Conn(addr, sock, peer, version, mask, handshaked, dir, clientObf, serverObf, clean, isStatic, named,
           lastActivity, lastIncoming, lastRequest, lastHandshake, lastTimer)
    }

    /** A zeroed entry at the current version. */
    constructor (addr: Addr, sock: nat, peer: Option<Addr>)
      ensures Entry() == Conn(addr, sock, peer, 1, NoMask, false, C2S, false, false, false, false, false, 0, 0, 0, 0, 0)
    {
      this.addr, this.sock, this.peer := addr, sock, peer;
      version, mask := 1, NoMask;
      handshaked, dir, clientObf, serverObf, clean, isStatic, named := false, C2S, false, false, false, false, false;
      lastActivity, lastIncoming, lastRequest, lastHandshake, lastTimer := 0, 0, 0, 0, 0;
      prev, next, hhPrev, hhNext, hashv := null, null, null, null, 0;
    }
  }

  datatype Bucket = Bucket(head: Elem?, count: nat, expandMult: nat)

  ghost function SetOf<T>(c: seq<T>): set<T> { set x | x in c }

  ghost predicate Distinct<T>(c: seq<T>) {
    forall i, j :: 0 <= i < j < |c| ==> c[i] != c[j]
  }

  ghost function First(c: seq<Elem>): Elem? { if c == [] then null else c[0] }

  ghost function Last(c: seq<Elem>): Elem? { if c == [] then null else c[|c| - 1] }

  ghost function Without<T>(s: seq<T>, k: nat): seq<T>
    requires k < |s|
  {
    s[..k] + s[k + 1..]
  }

  // ----- the two kinds of list

  ghost predicate NextLinked(c: seq<Elem>)
    reads SetOf(c)`hhNext
  {
    forall j {:trigger c[j].hhNext} :: 0 <= j < |c| ==> c[j].hhNext == if j + 1 < |c| then c[j + 1] else null
  }

  /** A bucket's chain. */
  ghost predicate Chain(c: seq<Elem>)
    reads SetOf(c)`hhNext, SetOf(c)`hhPrev
  {
    && Distinct(c)
    && NextLinked(c)
    && forall j {:trigger c[j].hhPrev} :: 0 <= j < |c| ==> c[j].hhPrev == if j > 0 then c[j - 1] else null
  }

  /** The list in insertion order. */
  ghost predicate Listed(c: seq<Elem>)
    reads SetOf(c)`next, SetOf(c)`prev
  {
    && Distinct(c)
    && (forall j {:trigger c[j].next} :: 0 <= j < |c| ==> c[j].next == if j + 1 < |c| then c[j + 1] else null)
    && (forall j {:trigger c[j].prev} :: 0 <= j < |c| ==> c[j].prev == if j > 0 then c[j - 1] else null)
  }

  // ----- who is where

  /** The chain of bucket `b` holds exactly the elements whose hash selects `b`. */
  ghost predicate Placed(order: seq<Elem>, chains: seq<seq<Elem>>)
    reads SetOf(order)`hashv
  {
    && |chains| > 0
    && (forall b, x :: 0 <= b < |chains| && x in chains[b] ==> x in order && x.hashv % |chains| == b)
    && (forall x :: x in order ==> x in chains[x.hashv % |chains|])
  }

  ghost predicate ChainsLinked(order: seq<Elem>, chains: seq<seq<Elem>>)
    reads SetOf(order)`hhNext, SetOf(order)`hhPrev
  {
    && (forall b :: 0 <= b < |chains| ==> SetOf(chains[b]) <= SetOf(order))
    && (forall b :: 0 <= b < |chains| ==> Chain(chains[b]))
  }

  ghost predicate BucketsMatch(buckets: array<Bucket>, chains: seq<seq<Elem>>)
    reads buckets
  {
    && buckets.Length == |chains|
    && forall b :: 0 <= b < |chains| ==> buckets[b].head == First(chains[b]) && buckets[b].count == |chains[b]|
  }

  /** The elements `m` hang in the buckets `bs`, as the chains `cs`. */
  ghost predicate Hung(m: seq<Elem>, bs: array<Bucket>, cs: seq<seq<Elem>>)
    reads bs, SetOf(m)`hashv, SetOf(m)`hhNext, SetOf(m)`hhPrev
  {
    Placed(m, cs) && BucketsMatch(bs, cs) && ChainsLinked(m, cs)
  }

  /** The stored hash is the hash of the key as it is now, and no two elements have the same key. */
  ghost predicate Keyed(order: seq<Elem>, hash: Addr -> nat)
    reads SetOf(order)`hashv, SetOf(order)`addr
  {
    && (forall x :: x in order ==> x.hashv == hash(x.addr))
    && (forall i, j :: 0 <= i < j < |order| ==> order[i].addr != order[j].addr)
  }

  lemma WithoutMembers<T>(s: seq<T>, k: nat)
    requires Distinct(s) && k < |s|
    ensures Distinct(Without(s, k)) && |Without(s, k)| == |s| - 1
    ensures SetOf(Without(s, k)) == SetOf(s) - {s[k]}
    ensures forall x :: x in Without(s, k) <==> x in s && x != s[k]
  {
    forall x | x in s && x != s[k] ensures x in Without(s, k) {
      var i :| 0 <= i < |s| && s[i] == x;
      assert Without(s, k)[if i < k then i else i - 1] == x;
    }
  }

  // ----- the table as a finite map

  ghost predicate UniqueKeys(order: seq<Elem>)
    reads SetOf(order)`addr
  {
    forall x, y :: x in order && y in order && x.addr == y.addr ==> x == y
  }

  ghost function Contents(order: seq<Elem>): map<Addr, Elem>
    reads SetOf(order)`addr
    requires UniqueKeys(order)
  {
    map x | x in order :: x.addr := x
  }

  lemma KeyedUnique(order: seq<Elem>, hash: Addr -> nat)
    requires Keyed(order, hash)
    ensures UniqueKeys(order)
  {
    forall x, y | x in order && y in order && x.addr == y.addr ensures x == y {
      var i :| 0 <= i < |order| && order[i] == x;
      var j :| 0 <= j < |order| && order[j] == y;
    }
  }

  lemma ContentsAt(order: seq<Elem>, hash: Addr -> nat, key: Addr, e: Elem?)
    requires Keyed(order, hash)
    requires if e != null then e in order && e.addr == key else forall x :: x in order ==> x.addr != key
    ensures UniqueKeys(order) && (e == null <==> key !in Contents(order)) && (e != null ==> Contents(order)[key] == e)
  {
    KeyedUnique(order, hash);
  }

  lemma ContentsWith(order: seq<Elem>, hash: Addr -> nat, e: Elem)
    requires Keyed(order, hash) && Keyed(order + [e], hash) && e !in order
    ensures UniqueKeys(order) && UniqueKeys(order + [e]) && Contents(order + [e]) == Contents(order)[e.addr := e]
  {
    KeyedUnique(order, hash);
    KeyedUnique(order + [e], hash);
  }

  lemma ContentsEmpty(order: seq<Elem>)
    ensures order == [] ==> UniqueKeys(order) && Contents(order) == map[]
  {
  }

  lemma KeyedEmpty(hash: Addr -> nat)
    ensures Keyed([], hash)
  {
  }

  lemma ContentsWithout(order: seq<Elem>, hash: Addr -> nat, k: nat)
    requires Keyed(order, hash) && Distinct(order) && k < |order|
    ensures Keyed(Without(order, k), hash) && UniqueKeys(order) && UniqueKeys(Without(order, k))
    ensures Contents(Without(order, k)) == Contents(order) - {order[k].addr}
  {
    hide Without, Distinct, Keyed;
    KeyedUnique(order, hash);
    KeyedWithout(order, hash, k);
    KeyedUnique(Without(order, k), hash);
    WithoutMembers(order, k);
    var before, after := Contents(order), Contents(Without(order, k));
    assert order[k] in order;
    forall a | a in before && a != order[k].addr ensures a in after && after[a] == before[a] {
      assert before[a] in Without(order, k);
    }
    forall a | a in after ensures a in before && a != order[k].addr {
      assert after[a] in order && after[a] != order[k];
    }
  }

  lemma ListedDistinct(order: seq<Elem>)
    requires Listed(order)
    ensures Distinct(order)
  {
  }

  lemma OnlyOne(order: seq<Elem>, k: nat)
    requires Listed(order) && k < |order|
    ensures order[k].prev == null && order[k].next == null <==> |order| == 1
  {
    assert order[k].prev == if k > 0 then order[k - 1] else null;
    assert order[k].next == if k + 1 < |order| then order[k + 1] else null;
  }

  lemma HungShape(m: seq<Elem>, bs: array<Bucket>, cs: seq<seq<Elem>>)
    requires Hung(m, bs, cs)
    ensures bs.Length == |cs| > 0
  {
  }

  lemma Appended<T>(s: seq<T>, e: T)
    ensures SetOf(s + [e]) == SetOf(s) + {e}
  {
  }

  lemma KeyedWithout(order: seq<Elem>, hash: Addr -> nat, k: nat)
    requires Keyed(order, hash) && Distinct(order) && k < |order|
    ensures Keyed(Without(order, k), hash)
  {
    WithoutMembers(order, k);
  }

  lemma PlacedWithout(order: seq<Elem>, chains: seq<seq<Elem>>, k: nat, b: nat, j: nat)
    requires Placed(order, chains) && Distinct(order) && k < |order|
    requires b < |chains| && Distinct(chains[b]) && j < |chains[b]| && chains[b][j] == order[k]
    ensures Placed(Without(order, k), chains[b := Without(chains[b], j)])
  {
    WithoutMembers(order, k);
    WithoutMembers(chains[b], j);
    var order', chains', n := Without(order, k), chains[b := Without(chains[b], j)], |chains|;
    hide Without, Distinct;
    assert order[k].hashv % n == b;
    forall i, x | 0 <= i < n && x in chains'[i] ensures x in order' && x.hashv % n == i {
      assert x in chains[i];
      assert x != order[k];
    }
    forall x | x in order' ensures x in chains'[x.hashv % n] {
      assert x in order && x in chains[x.hashv % n];
    }
  }

  lemma ChainsWithin(order: seq<Elem>, chains: seq<seq<Elem>>)
    requires Placed(order, chains)
    ensures forall b :: 0 <= b < |chains| ==> SetOf(chains[b]) <= SetOf(order)
  {
    forall b | 0 <= b < |chains| ensures SetOf(chains[b]) <= SetOf(order) {
      forall x | x in SetOf(chains[b]) ensures x in SetOf(order) { assert x in chains[b]; }
    }
  }

  lemma ChainsLinkedIf(order: seq<Elem>, chains: seq<seq<Elem>>)
    requires forall b :: 0 <= b < |chains| ==> SetOf(chains[b]) <= SetOf(order)
    requires forall b :: 0 <= b < |chains| ==> Chain(chains[b])
    ensures ChainsLinked(order, chains)
  {
    hide Chain;
  }

  lemma ChainsApart(order: seq<Elem>, chains: seq<seq<Elem>>, a: nat, b: nat)
    requires Placed(order, chains) && a < b < |chains|
    ensures SetOf(chains[a]) !! SetOf(chains[b])
  {
    forall x | x in chains[a] ensures x !in chains[b] {
      assert x.hashv % |chains| == a;
    }
  }

  lemma PlacedWith(order: seq<Elem>, chains: seq<seq<Elem>>, e: Elem)
    requires Placed(order, chains)
    ensures var b := e.hashv % |chains|; Placed(order + [e], chains[b := [e] + chains[b]])
  {
    var b := e.hashv % |chains|;
    var chains' := chains[b := [e] + chains[b]];
    forall i, x | 0 <= i < |chains| && x in chains'[i] ensures x in order + [e] && x.hashv % |chains| == i {
      if x != e { assert x in chains[i]; }
    }
  }

  lemma KeyedWith(order: seq<Elem>, hash: Addr -> nat, e: Elem)
    requires Keyed(order, hash) && e.hashv == hash(e.addr)
    requires forall x :: x in order ==> x.addr != e.addr
    ensures Keyed(order + [e], hash)
  {
  }

  ghost function Flat<T>(cs: seq<seq<T>>): seq<T>
  {
    if cs == [] then [] else Flat(cs[..|cs| - 1]) + cs[|cs| - 1]
  }

  lemma {:induction false} FlatMembers<T>(cs: seq<seq<T>>, x: T)
    ensures x in Flat(cs) <==> exists b :: 0 <= b < |cs| && x in cs[b]
  {
    if cs != [] { FlatMembers(cs[..|cs| - 1], x); }
  }

  lemma FlatNext(order: seq<Elem>, chains: seq<seq<Elem>>, i: nat)
    requires Placed(order, chains) && i < |chains|
    ensures Flat(chains[..i + 1]) == Flat(chains[..i]) + chains[i]
    ensures SetOf(Flat(chains[..i])) <= SetOf(order) && SetOf(chains[i]) <= SetOf(order)
    ensures SetOf(Flat(chains[..i])) !! SetOf(chains[i])
    ensures forall k :: i < k < |chains| ==> SetOf(chains[k]) !! SetOf(chains[i]) && SetOf(chains[k]) !! SetOf(Flat(chains[..i]))
  {
    assert chains[..i + 1][..i] == chains[..i];
    forall x | x in Flat(chains[..i]) ensures x in order && x.hashv % |chains| < i && x !in chains[i] {
      FlatMembers(chains[..i], x);
    }
    forall k, x | i <= k < |chains| && x in chains[k] ensures x in order && x.hashv % |chains| == k {}
    forall k | i < k < |chains| ensures SetOf(chains[k]) !! SetOf(chains[i]) && SetOf(chains[k]) !! SetOf(Flat(chains[..i])) {
      forall x | x in chains[k] ensures x !in Flat(chains[..i]) && x !in chains[i] {}
    }
  }

  lemma NextToMove(m0: seq<Elem>, c: seq<Elem>, k: nat)
    requires k < |c| && Distinct(c) && SetOf(m0) !! SetOf(c)
    ensures c[k] !in m0 + c[..k]
    ensures forall j :: k < j < |c| ==> c[j] != c[k]
    ensures c[k] in SetOf(c) && SetOf(m0 + c[..k]) <= SetOf(m0) + SetOf(c)
    ensures m0 + c[..k] + [c[k]] == m0 + c[..k + 1]
  {
    assert c[k] in SetOf(c);
  }

  lemma FlatAll(order: seq<Elem>, chains: seq<seq<Elem>>)
    requires Placed(order, chains)
    ensures SetOf(Flat(chains)) == SetOf(order)
  {
    forall x | x in order ensures x in Flat(chains) { FlatMembers(chains, x); }
    forall x | x in Flat(chains) ensures x in order { FlatMembers(chains, x); }
  }

  lemma {:induction false} DistinctSize<T>(s: seq<T>)
    requires Distinct(s)
    ensures |SetOf(s)| == |s|
    decreases |s|
  {
    if s == [] {
      assert SetOf(s) == {};
    } else {
      var n := |s| - 1;
      DistinctSize(s[..n]);
      assert s[..n] + [s[n]] == s;
      Appended(s[..n], s[n]);
      assert s[n] !in s[..n];
    }
  }

  lemma JoinDistinct<T>(a: seq<T>, b: seq<T>)
    requires Distinct(a) && Distinct(b) && SetOf(a) !! SetOf(b)
    ensures Distinct(a + b)
  {
    forall i, j | 0 <= i < j < |a + b| ensures (a + b)[i] != (a + b)[j] {
      if i < |a| <= j { assert a[i] in SetOf(a) && b[j - |a|] in SetOf(b); }
    }
  }

  /** The counts of the buckets, added up. */
  ghost function Total(bs: seq<Bucket>): nat
  {
    if bs == [] then 0 else Total(bs[..|bs| - 1]) + bs[|bs| - 1].count
  }

  lemma {:induction false} ChainsAddUp(order: seq<Elem>, bs: seq<Bucket>, chains: seq<seq<Elem>>, i: nat)
    requires Placed(order, chains) && i <= |chains| == |bs|
    requires forall b :: 0 <= b < |chains| ==> Distinct(chains[b]) && bs[b].count == |chains[b]|
    ensures Distinct(Flat(chains[..i])) && |Flat(chains[..i])| == Total(bs[..i])
    decreases i
  {
    hide Distinct, SetOf, Placed;
    if i == 0 {
      DistinctEmpty(Flat(chains[..0]));
    } else {
      ChainsAddUp(order, bs, chains, i - 1);
      FlatNext(order, chains, i - 1);
      JoinDistinct(Flat(chains[..i - 1]), chains[i - 1]);
      assert bs[..i][..i - 1] == bs[..i - 1];
    }
  }

  lemma DistinctEmpty<T>(s: seq<T>)
    requires s == []
    ensures Distinct(s)
  {
  }

  /** Placement and linking depend on which elements there are, not on their order. */
  lemma SameMembers(m: seq<Elem>, order: seq<Elem>, bs: array<Bucket>, chains: seq<seq<Elem>>)
    requires Hung(m, bs, chains) && SetOf(m) == SetOf(order)
    ensures Hung(order, bs, chains)
  {
    hide Chain;
    assert forall x :: x in m <==> x in SetOf(order);
    assert forall x :: x in order <==> x in SetOf(m);
  }

  /** The number of elements beyond the ideal length of their chains. */
  ghost function Excess(chains: seq<seq<Elem>>, ideal: nat): nat
  {
    if chains == [] then 0
    else (if |chains[0]| > ideal then |chains[0]| - ideal else 0) + Excess(chains[1..], ideal)
  }

  lemma {:induction false} ExcessPush(chains: seq<seq<Elem>>, b: nat, e: Elem, ideal: nat)
    requires b < |chains|
    ensures Excess(chains[b := [e] + chains[b]], ideal) == Excess(chains, ideal) + if |chains[b]| + 1 > ideal then 1 else 0
    decreases |chains|
  {
    var after := chains[b := [e] + chains[b]];
    if b == 0 {
      assert after[1..] == chains[1..];
    } else {
      ExcessPush(chains[1..], b - 1, e, ideal);
      assert after[1..] == chains[1..][b - 1 := [e] + chains[1..][b - 1]];
    }
  }

  lemma {:induction false} EmptyExcess(chains: seq<seq<Elem>>, ideal: nat)
    requires forall b :: 0 <= b < |chains| ==> chains[b] == []
    ensures Excess(chains, ideal) == 0
    decreases |chains|
  {
    if chains != [] { EmptyExcess(chains[1..], ideal); }
  }

  /** The multiplier of a bucket that `count` elements were pushed into, one after the other. */
  ghost function Multiplier(count: nat, ideal: nat): (m: nat)
    ensures m == 0 <==> count <= ideal
  {
    if count == 0 then 0
    else
      var m := Multiplier(count - 1, ideal);
      if count > ideal && count > m * ideal then m + 1 else m
  }

  /** It is the chain's length in ideal lengths, rounded up, once the chain is longer than one by two elements. */
  lemma {:induction false} MultiplierIsCeil(count: nat, ideal: nat)
    requires ideal >= 2 && count > ideal
    ensures var m := Multiplier(count, ideal);
      if count == ideal + 1 then m == 1 else m > 0 && m * ideal >= count && (m - 1) * ideal < count
    decreases count
  {
    if count > ideal + 1 {
      MultiplierIsCeil(count - 1, ideal);
      NextMultiple(count, Multiplier(count - 1, ideal), ideal);
    }
  }

  lemma NextMultiple(count: nat, m: nat, ideal: nat)
    requires ideal >= 2 && (m * ideal >= count - 1 || (m == 1 && count == ideal + 2))
    ensures (m + 1) * ideal == m * ideal + ideal
    ensures count <= (m + 1) * ideal
  {
  }

  /** Rounding up; the source gets it with a shift and a mask, the number of buckets being a power of two. */
  function CeilDiv(n: nat, d: nat): (q: nat)
    requires d > 0
    ensures q * d >= n && (q > 0 ==> (q - 1) * d < n)
  {
    var q := (n + d - 1) / d;
    DivMod(n + d - 1, d);
    q
  }

  lemma CeilByShift(n: nat, d: nat)
    requires d > 0
    ensures n / d + (if n % d != 0 then 1 else 0) == CeilDiv(n, d)
  {
    var q := n / d + if n % d != 0 then 1 else 0;
    DivMod(n, d);
    assert (n / d + 1) * d == n / d * d + d;
    UniqueCeil(n, d, q, CeilDiv(n, d));
  }

  lemma UniqueCeil(n: nat, d: nat, p: nat, q: nat)
    requires d > 0
    requires p * d >= n && (p > 0 ==> (p - 1) * d < n)
    requires q * d >= n && (q > 0 ==> (q - 1) * d < n)
    ensures p == q
  {
    MulMonotone(p, q - 1, d);
    MulMonotone(q, p - 1, d);
  }

  lemma MulMonotone(p: int, q: int, d: nat)
    ensures p <= q ==> p * d <= q * d
  {
  }

  lemma DivMod(n: nat, d: nat)
    requires d > 0
    ensures n == n / d * d + n % d && n / d * d <= n
  {
  }

  class HashTable {
    const hash: Addr -> nat
    var head: Elem?
    var tail: Elem?
    var buckets: array<Bucket>
    var numBuckets: nat
    var log2NumBuckets: nat
    var numItems: nat
    var idealChainMaxlen: nat
    var nonidealItems: nat
    var ineffExpands: nat
    var noexpand: bool

    ghost var order: seq<Elem>
    ghost var chains: seq<seq<Elem>>

    constructor (hash: Addr -> nat)
      ensures Valid() && order == [] && fresh(buckets) && this.hash == hash
    {
      this.hash := hash;
      head, tail := null, null;
      buckets := new Bucket[0];
      numBuckets, log2NumBuckets, numItems := 0, 0, 0;
      idealChainMaxlen, nonidealItems, ineffExpands, noexpand := 0, 0, 0, false;
      order, chains := [], [];
    }

    ghost predicate Sized()
      reads `numBuckets, `log2NumBuckets, `numItems, `buckets, `chains, `order, `head, `tail
    {
      && numBuckets == Pow2(log2NumBuckets) == buckets.Length == |chains|
      && numItems == |order|
      && head == First(order) && tail == Last(order)
    }

    ghost predicate Valid()
      reads this, buckets
      reads SetOf(order)`addr, SetOf(order)`hashv, SetOf(order)`next, SetOf(order)`prev, SetOf(order)`hhNext, SetOf(order)`hhPrev
    {
      if order == [] then head == null
      else
        && Sized()
        && Listed(order)
        && Keyed(order, hash)
        && Hung(order, buckets, chains)
    }

    /** The statistics of a doubling agree with the chains. */
    ghost predicate Tallied(bs: array<Bucket>, cs: seq<seq<Elem>>)
      reads `nonidealItems, `idealChainMaxlen, bs
    {
      && nonidealItems == Excess(cs, idealChainMaxlen)
      && forall b :: 0 <= b < bs.Length ==> bs[b].expandMult == Multiplier(bs[b].count, idealChainMaxlen)
    }

    /** The chains hold `numItems` elements between them, and the bucket counts say so. */
    lemma CountsAddUp()
      requires Valid() && order != []
      ensures |Flat(chains)| == Total(buckets[..]) == numItems
    {
      HungCounts(order, buckets, chains);
      hide Hung, Keyed;
      ListedDistinct(order);
      ChainsAddUp(order, buckets[..], chains, |chains|);
      assert chains[..|chains|] == chains && buckets[..][..|chains|] == buckets[..];
      FlatAll(order, chains);
      DistinctSize(order);
      DistinctSize(Flat(chains));
    }

    /** What the table holds, as a plain finite map. */
    ghost function View(): map<Addr, Elem>
      reads this, buckets
      reads SetOf(order)`addr, SetOf(order)`hashv, SetOf(order)`next, SetOf(order)`prev, SetOf(order)`hhNext, SetOf(order)`hhPrev
      requires Valid()
    {
      if order == [] then map[]
      else
        KeyedUnique(order, hash);
        Contents(order)
    }

    /** `HASH_COUNT`. */
    function Count(): (n: nat)
      reads this, buckets
      reads SetOf(order)`addr, SetOf(order)`hashv, SetOf(order)`next, SetOf(order)`prev, SetOf(order)`hhNext, SetOf(order)`hhPrev
      requires Valid()
      ensures n == |order|
    {
      if head != null then numItems else 0
    }

    /** The one live element with this key, or none. */
    method Find(key: Addr) returns (e: Elem?)
      requires Valid()
      ensures e != null ==> e in order && e.addr == key
      ensures e == null ==> forall x :: x in order ==> x.addr != key
      ensures e == null <==> key !in View()
      ensures e != null ==> View()[key] == e
    {
      e := FindInTable(key);
      if order != [] { ContentsAt(order, hash, key, e); }
    }

    method FindInTable(key: Addr) returns (e: Elem?)
      requires Valid()
      ensures e != null ==> e in order && e.addr == key
      ensures e == null ==> forall x :: x in order ==> x.addr != key
    {
      e := null;
      if head != null {
        var hashv := hash(key);
        var b := hashv % numBuckets;
        ghost var c := chains[b];
        assert Chain(c);
        ghost var k := 0;
        e := buckets[b].head;
        while e != null
          invariant e != null ==> k < |c| && e == c[k]
          invariant k <= |c| && (e == null ==> k == |c|)
          invariant forall j :: 0 <= j < k ==> c[j].addr != key
          decreases |c| - k
        {
          if e.hashv == hashv && e.addr == key { return; }
          assert c[k].hhNext == if k + 1 < |c| then c[k + 1] else null;
          e := e.hhNext;
          k := k + 1;
        }
      }
    }

    /** Takes `e`, the `k`-th element of the chain `c` of bucket `b`, out of that chain. */
    method DelInBkt(b: nat, e: Elem, ghost c: seq<Elem>, ghost k: nat)
      requires b < buckets.Length && Chain(c) && k < |c| && c[k] == e
      requires buckets[b].head == First(c) && buckets[b].count == |c|
      modifies buckets, SetOf(c)`hhNext, SetOf(c)`hhPrev
      ensures Chain(Without(c, k))
      ensures buckets[b].head == First(Without(c, k)) && buckets[b].count == |c| - 1
      ensures forall i :: 0 <= i < buckets.Length && i != b ==> buckets[i] == old(buckets[i])
    {
      ghost var before, after := if k > 0 then c[k - 1] else null, if k + 1 < |c| then c[k + 1] else null;
      assert c[k].hhPrev == before && c[k].hhNext == after;
      buckets[b] := buckets[b].(count := buckets[b].count - 1);
      if buckets[b].head == e {
        buckets[b] := buckets[b].(head := e.hhNext);
      }
      if e.hhPrev != null {
        e.hhPrev.hhNext := e.hhNext;
      }
      if e.hhNext != null {
        e.hhNext.hhPrev := e.hhPrev;
      }
    }

    method UnlinkList(e: Elem, ghost k: nat)
      requires Listed(order) && k < |order| && order[k] == e && |order| > 1
      requires head == First(order) && tail == Last(order)
      modifies `head, `tail, SetOf(order)`next, SetOf(order)`prev
      ensures Listed(Without(order, k))
      ensures head == First(Without(order, k)) && tail == Last(Without(order, k))
    {
      ghost var before, after := if k > 0 then order[k - 1] else null, if k + 1 < |order| then order[k + 1] else null;
      assert order[k].prev == before && order[k].next == after;
      if e == tail {
        tail := e.prev;
      }
      if e.prev != null {
        e.prev.next := e.next;
      } else {
        head := e.next;
      }
      if e.next != null {
        e.next.prev := e.prev;
      }
    }

    method Delete(e: Elem) returns (ghost k: nat)
      requires Valid() && e in order
      modifies this, buckets, SetOf(order)`next, SetOf(order)`prev, SetOf(order)`hhNext, SetOf(order)`hhPrev
      ensures Valid()
      ensures k < |old(order)| && old(order)[k] == e && order == Without(old(order), k)
      ensures buckets == old(buckets)
      ensures View() == old(View()) - {e.addr}
    {
      hide Hung, Keyed, Listed, Contents, UniqueKeys, Without, Distinct;
      ghost var was := order;
      ListedDistinct(order);
      k := Detach(e);
      ContentsWithout(was, hash, k);
      ContentsEmpty(order);
    }

    method Detach(e: Elem) returns (ghost k: nat)
      requires Valid() && e in order
      modifies this, buckets, SetOf(order)`next, SetOf(order)`prev, SetOf(order)`hhNext, SetOf(order)`hhPrev
      ensures Valid()
      ensures k < |old(order)| && old(order)[k] == e && order == Without(old(order), k)
      ensures buckets == old(buckets)
    {
      hide Hung, Keyed, Listed;
      k :| k < |order| && order[k] == e;
      OnlyOne(order, k);
      if e.prev == null && e.next == null {
        head := null;
        order := [];
      } else {
        DeleteLinked(e, k);
      }
    }

    method DeleteLinked(e: Elem, ghost k: nat)
      requires Sized() && Listed(order) && Keyed(order, hash)
      requires Hung(order, buckets, chains)
      requires k < |order| && order[k] == e && |order| > 1
      modifies `head, `tail, `numItems, `order, `chains, buckets
      modifies SetOf(order)`next, SetOf(order)`prev, SetOf(order)`hhNext, SetOf(order)`hhPrev
      ensures order == Without(old(order), k)
      ensures Sized() && Listed(order) && Keyed(order, hash)
      ensures Hung(order, buckets, chains)
    {
      hide Hung, Keyed, Listed, Distinct, Without;
      ListedDistinct(order);
      ghost var rest := Without(order, k);
      WithoutMembers(order, k);
      KeyedWithout(order, hash, k);
      UnlinkList(e, k);
      UnlinkBkt(e, k);
      assert Listed(rest) && Keyed(rest, hash);
      numItems := numItems - 1;
      order := rest;
    }

    /** Unlinking from one chain leaves the others as they are. */
    method UnlinkChain(b: nat, e: Elem, ghost j: nat)
      requires b < |chains| && j < |chains[b]| && chains[b][j] == e
      requires BucketsMatch(buckets, chains) && ChainsLinked(order, chains)
      requires forall i :: 0 <= i < |chains| && i != b ==> SetOf(chains[i]) !! SetOf(chains[b])
      modifies buckets, SetOf(chains[b])`hhNext, SetOf(chains[b])`hhPrev
      ensures var after := chains[b := Without(chains[b], j)]; BucketsMatch(buckets, after) && (forall i :: 0 <= i < |after| ==> Chain(after[i]))
    {
      ghost var c := chains[b];
      DelInBkt(b, e, c, j);
      hide Chain;
      assert forall i :: 0 <= i < |chains| && i != b ==> Chain(chains[i]);
    }

    method UnlinkBkt(e: Elem, ghost k: nat)
      requires Hung(order, buckets, chains)
      requires numBuckets == |chains|
      requires Distinct(order) && k < |order| && order[k] == e
      modifies buckets, `chains, SetOf(order)`hhNext, SetOf(order)`hhPrev
      ensures Hung(Without(order, k), buckets, chains)
      ensures |chains| == old(|chains|)
    {
      hide Placed, ChainsLinked, BucketsMatch, Without, Chain, Distinct;
      HungShape(order, buckets, chains);
      WithoutMembers(order, k);
      ghost var j := PlaceOf(order, chains, k);
      var b := e.hashv % numBuckets;
      UnlinkChain(b, e, j);
      chains := chains[b := Without(chains[b], j)];
      ChainsLinkedIf(Without(order, k), chains);
    }

    /** Makes `e` the first of the chain `c` of bucket `b`. */
    method LinkFront(bs: array<Bucket>, b: nat, e: Elem, ghost c: seq<Elem>)
      requires b < bs.Length && Chain(c) && e !in c && bs[b].head == First(c)
      modifies bs, e`hhNext, e`hhPrev, SetOf(c)`hhPrev
      ensures Chain([e] + c)
      ensures bs[..] == old(bs[..])[b := old(bs[b]).(head := e)]
    {
      e.hhNext := bs[b].head;
      e.hhPrev := null;
      if bs[b].head != null {
        bs[b].head.hhPrev := e;
      }
      bs[b] := bs[b].(head := e);
    }

    method AppendList(e: Elem)
      requires Listed(order) && order != [] && e !in order && tail == Last(order) && head == First(order)
      modifies `tail, e`next, e`prev, SetOf(order)`next
      ensures Listed(order + [e]) && tail == e
    {
      e.next := null;
      e.prev := tail;
      tail.next := e;
      tail := e;
    }

    /** Puts `e` into the bucket its hash selects, among buckets that so far hold the elements `m`. */
    method Push(bs: array<Bucket>, b: nat, e: Elem, ghost m: seq<Elem>, ghost cs: seq<seq<Elem>>)
      requires Hung(m, bs, cs)
      requires e !in m && b == e.hashv % |cs|
      modifies bs, e`hhNext, e`hhPrev, SetOf(m)`hhPrev
      ensures var cs' := cs[b := [e] + cs[b]];
        Hung(m + [e], bs, cs')
      ensures bs[b].expandMult == old(bs[b].expandMult)
      ensures forall i :: 0 <= i < bs.Length && i != b ==> bs[i] == old(bs[i])
    {
      hide Placed, ChainsLinked, Chain, BucketsMatch;
      HungShape(m, bs, cs);
      PlaceFor(m, cs, e);
      Appended(m, e);
      PushChain(bs, b, e, cs);
      ChainsLinkedIf(m + [e], cs[b := [e] + cs[b]]);
    }

    /** Linking into one chain leaves the others as they are. */
    method PushChain(bs: array<Bucket>, b: nat, e: Elem, ghost cs: seq<seq<Elem>>)
      requires b < |cs| && BucketsMatch(bs, cs)
      requires forall i :: 0 <= i < |cs| ==> Chain(cs[i]) && e !in SetOf(cs[i])
      requires forall i :: 0 <= i < |cs| && i != b ==> SetOf(cs[i]) !! SetOf(cs[b])
      modifies bs, e`hhNext, e`hhPrev, SetOf(cs[b])`hhPrev
      ensures var cs' := cs[b := [e] + cs[b]];
        BucketsMatch(bs, cs') && forall i :: 0 <= i < |cs'| ==> Chain(cs'[i])
      ensures bs[b].expandMult == old(bs[b].expandMult)
      ensures forall i :: 0 <= i < bs.Length && i != b ==> bs[i] == old(bs[i])
    {
      hide Chain;
      bs[b] := bs[b].(count := bs[b].count + 1);
      LinkFront(bs, b, e, cs[b]);
      assert forall i :: 0 <= i < |cs| && i != b ==> Chain(cs[i]);
    }

    method Add(e: Elem)
      requires Valid() && e !in order
      requires forall x :: x in order ==> x.addr != e.addr
      modifies this, buckets, e`hashv, e`next, e`prev, e`hhNext, e`hhPrev
      modifies SetOf(order)`next, SetOf(order)`hhNext, SetOf(order)`hhPrev
      ensures Valid() && order == old(order) + [e]
      ensures buckets == old(buckets) || fresh(buckets)
      ensures View() == old(View())[e.addr := e]
    {
      hide Hung, Keyed, Listed, Contents, UniqueKeys;
      ghost var was := order;
      KeyedEmpty(hash);
      ContentsEmpty([]);
      Insert(e);
      ContentsWith(was, hash, e);
    }

    method Insert(e: Elem)
      requires Valid() && e !in order
      requires forall x :: x in order ==> x.addr != e.addr
      modifies this, buckets, e`hashv, e`next, e`prev, e`hhNext, e`hhPrev
      modifies SetOf(order)`next, SetOf(order)`hhNext, SetOf(order)`hhPrev
      ensures Valid() && order == old(order) + [e]
      ensures buckets == old(buckets) || fresh(buckets)
    {
      hide Hung, Listed, Keyed;
      e.hashv := hash(e.addr);
      if head == null {
        e.next := null;
        e.prev := null;
        MakeTable(e);
        head := e;
        assert order == [] && order + [e] == [e];
      } else {
        assert head == First(order) && tail == Last(order) && order != [];
        AppendList(e);
        assert head == First(order + [e]);
      }
      AddToTable(e);
    }

    method MakeTable(e: Elem)
      requires order == [] && e.next == null && e.prev == null
      modifies this
      ensures fresh(buckets) && unchanged(`head) && unchanged(`order) && tail == e
      ensures numBuckets == Pow2(log2NumBuckets) == |chains| == 32 && numItems == 0
      ensures idealChainMaxlen == nonidealItems == ineffExpands == 0 && !noexpand
      ensures Hung([], buckets, chains)
      ensures Keyed([], hash) && Listed([e])
    {
      hide Hung, Listed;
      tail := e;
      numBuckets, log2NumBuckets := HASH_INITIAL_NUM_BUCKETS, HASH_INITIAL_NUM_BUCKETS_LOG2;
      numItems, idealChainMaxlen, nonidealItems, ineffExpands, noexpand := 0, 0, 0, 0, false;
      buckets := new Bucket[HASH_INITIAL_NUM_BUCKETS](_ => Bucket(null, 0, 0));
      chains := seq(HASH_INITIAL_NUM_BUCKETS, _ => []);
      EmptyHung(buckets, chains);
      ListedOne(e);
    }

    /** One more element in the bucket for `hashv` is one too many, and doubling is still allowed. */
    ghost predicate Crowded(hashv: nat)
      reads `chains, `buckets, `noexpand, buckets
    {
      && |chains| == buckets.Length > 0 && !noexpand
      && |chains[hashv % |chains|]| + 1 >= (buckets[hashv % |chains|].expandMult + 1) * 10
    }

    /** Counts `e` and hangs it into its bucket. */
    method Hang(e: Elem, b: nat)
      requires Hung(order, buckets, chains) && e !in order
      requires numBuckets == |chains| && b == e.hashv % |chains|
      modifies `numItems, `order, `chains, buckets, e`hhNext, e`hhPrev, SetOf(order)`hhNext, SetOf(order)`hhPrev
      ensures numItems == old(numItems) + 1 && order == old(order) + [e] && |chains| == old(|chains|)
      ensures Hung(order, buckets, chains) && b < buckets.Length
      ensures buckets[b].count == old(|chains[b]|) + 1 && buckets[b].expandMult == old(buckets[b].expandMult)
    {
      hide Hung;
      HungShape(order, buckets, chains);
      numItems := numItems + 1;
      Push(buckets, b, e, order, chains);
      chains := chains[b := [e] + chains[b]];
      order := order + [e];
      HungCount(order, buckets, chains, b);
    }

    method AddToTable(e: Elem)
      requires Hung(order, buckets, chains)
      requires numBuckets == Pow2(log2NumBuckets) == |chains| && numItems == |order|
      requires Listed(order + [e]) && head == First(order + [e]) && tail == e
      requires Keyed(order, hash) && e.hashv == hash(e.addr)
      requires e !in order && forall x :: x in order ==> x.addr != e.addr
      modifies this, buckets, e`hhNext, e`hhPrev, SetOf(order)`hhNext, SetOf(order)`hhPrev
      ensures Sized() && Listed(order) && Keyed(order, hash)
      ensures Hung(order, buckets, chains)
      ensures order == old(order) + [e]
      ensures buckets == old(buckets) || fresh(buckets)
      ensures numBuckets == if old(Crowded(e.hashv)) then 2 * old(numBuckets) else old(numBuckets)
    {
      hide Hung, Listed, Keyed;
      KeyedWith(order, hash, e);
      HungShape(order, buckets, chains);
      Appended(order, e);
      var b := e.hashv % numBuckets;
      Hang(e, b);
      HungShape(order, buckets, chains);
      if buckets[b].count >= (buckets[b].expandMult + 1) * HASH_BKT_CAPACITY_THRESH && !noexpand {
        ExpandBuckets();
      }
    }

    /** Doubles the buckets and relinks every element, chain by chain. */
    method ExpandBuckets()
      requires Hung(order, buckets, chains)
      requires numBuckets == Pow2(log2NumBuckets) == |chains| && numItems == |order|
      modifies `buckets, `numBuckets, `log2NumBuckets, `idealChainMaxlen, `nonidealItems, `ineffExpands, `noexpand, `chains
      modifies SetOf(order)`hhNext, SetOf(order)`hhPrev
      ensures Hung(order, buckets, chains)
      ensures fresh(buckets) && numBuckets == Pow2(log2NumBuckets) == |chains| == buckets.Length == 2 * old(|chains|)
      ensures idealChainMaxlen == CeilDiv(numItems, numBuckets)
      ensures Tallied(buckets, chains)
      ensures ineffExpands == if nonidealItems > numItems / 2 then old(ineffExpands) + 1 else 0
      ensures noexpand == (old(noexpand) || ineffExpands > 1)
    {
      hide Hung, Tallied, CeilDiv;
      var larger := new Bucket[2 * numBuckets](_ => Bucket(null, 0, 0));
      ComputeIdeal();
      ghost var cs := MoveAll(larger);
      Install(larger, cs);
    }

    method ComputeIdeal()
      requires numBuckets == Pow2(log2NumBuckets)
      modifies `idealChainMaxlen, `nonidealItems
      ensures idealChainMaxlen == CeilDiv(numItems, 2 * numBuckets) && nonidealItems == 0
    {
      CeilByShift(numItems, 2 * numBuckets);
      hide CeilDiv;
      idealChainMaxlen := numItems / Pow2(log2NumBuckets + 1) + if numItems % (2 * numBuckets) != 0 then 1 else 0;
      nonidealItems := 0;
    }

    method Install(larger: array<Bucket>, ghost cs: seq<seq<Elem>>)
      requires Tallied(larger, cs) && numBuckets == Pow2(log2NumBuckets) && |cs| == larger.Length == 2 * numBuckets
      modifies `buckets, `numBuckets, `log2NumBuckets, `ineffExpands, `noexpand, `chains
      ensures buckets == larger && chains == cs && Tallied(buckets, chains)
      ensures numBuckets == Pow2(log2NumBuckets) == 2 * old(numBuckets)
      ensures ineffExpands == if nonidealItems > numItems / 2 then old(ineffExpands) + 1 else 0
      ensures noexpand == (old(noexpand) || ineffExpands > 1)
    {
      hide Excess;
      numBuckets := 2 * numBuckets;
      log2NumBuckets := log2NumBuckets + 1;
      buckets := larger;
      chains := cs;
      ineffExpands := if nonidealItems > numItems / 2 then ineffExpands + 1 else 0;
      if ineffExpands > 1 {
        noexpand := true;
      }
    }

    method MoveAll(larger: array<Bucket>) returns (ghost cs: seq<seq<Elem>>)
      requires Hung(order, buckets, chains)
      requires numBuckets == |chains| && larger.Length == 2 * numBuckets && larger != buckets && nonidealItems == 0
      requires forall i :: 0 <= i < larger.Length ==> larger[i] == Bucket(null, 0, 0)
      modifies larger, `nonidealItems, SetOf(order)`hhNext, SetOf(order)`hhPrev
      ensures |cs| == larger.Length
      ensures Hung(order, larger, cs)
      ensures Tallied(larger, cs)
    {
      hide Hung, Tallied, Placed, OldChain;
      ghost var m := [];
      cs := NothingMoved(larger);
      for i := 0 to numBuckets
        invariant m == Flat(chains[..i]) && |cs| == larger.Length
        invariant Hung(m, larger, cs) && Tallied(larger, cs)
        invariant forall k :: i <= k < numBuckets ==> OldChain(k)
      {
        FlatNext(order, chains, i);
        m, cs := MoveChain(i, larger, m, cs);
        forall k | i < k < numBuckets ensures OldChain(k) {
          assert ChainAt(k) == chains[k] && SetOf(chains[k]) !! SetOf(chains[i]);
        }
      }
      assert chains[..numBuckets] == chains;
      FlatAll(order, chains);
      SameMembers(m, order, larger, cs);
    }

    lemma NothingMoved(larger: array<Bucket>) returns (cs: seq<seq<Elem>>)
      requires Hung(order, buckets, chains)
      requires numBuckets == |chains| && larger.Length == 2 * numBuckets && larger != buckets && nonidealItems == 0
      requires forall i :: 0 <= i < larger.Length ==> larger[i] == Bucket(null, 0, 0)
      ensures |cs| == larger.Length > 0 && Hung([], larger, cs) && Tallied(larger, cs)
      ensures Placed(order, chains) && buckets.Length == |chains| && forall k :: 0 <= k < numBuckets ==> OldChain(k)
    {
      cs := seq(2 * numBuckets, _ => []);
      EmptyExcess(cs, idealChainMaxlen);
    }

    lemma OldChainStarts(k: nat)
      requires OldChain(k)
      ensures Distinct(chains[k]) && buckets[k].head == First(chains[k])
      ensures forall j {:trigger chains[k][j].hhNext} :: 0 <= j < |chains[k]| ==>
        chains[k][j].hhNext == if j + 1 < |chains[k]| then chains[k][j + 1] else null
    {
    }

    ghost function ChainAt(k: nat): seq<Elem>
      reads `chains
    {
      if k < |chains| then chains[k] else []
    }

    /** A chain that has not been moved yet. */
    ghost predicate OldChain(k: nat)
      reads `chains, `buckets, buckets, SetOf(ChainAt(k))`hhNext
    {
      k < |chains| == buckets.Length && buckets[k].head == First(chains[k])
      && NextLinked(chains[k]) && Distinct(chains[k])
    }

    /** The elements of chain `i` go to the new buckets, first to last. */
    method MoveChain(i: nat, larger: array<Bucket>, ghost m0: seq<Elem>, ghost cs0: seq<seq<Elem>>)
      returns (ghost m: seq<Elem>, ghost cs: seq<seq<Elem>>)
      requires i < |chains| && i < buckets.Length && OldChain(i) && larger != buckets && SetOf(m0) !! SetOf(chains[i])
      requires larger.Length == 2 * numBuckets == |cs0| > 0
      requires Hung(m0, larger, cs0)
      requires Tallied(larger, cs0)
      modifies larger, `nonidealItems, SetOf(chains[i])`hhNext, SetOf(chains[i])`hhPrev, SetOf(m0)`hhPrev
      ensures |cs| == |cs0| && m == m0 + chains[i]
      ensures Hung(m, larger, cs)
      ensures Tallied(larger, cs)
    {
      hide Hung, Tallied, Distinct, SetOf, OldChain, NextLinked;
      OldChainStarts(i);
      ghost var c, k := chains[i], 0;
      m, cs := m0, cs0;
      var thh := buckets[i].head;
      while thh != null
        invariant k <= |c| && thh == (if k < |c| then c[k] else null)
        invariant m == m0 + c[..k] && |cs| == |cs0|
        invariant forall j {:trigger c[j].hhNext} :: k <= j < |c| ==> c[j].hhNext == if j + 1 < |c| then c[j + 1] else null
        invariant Hung(m, larger, cs)
        invariant Tallied(larger, cs)
        decreases |c| - k
      {
        NextToMove(m0, c, k);
        assert c[k].hhNext == if k + 1 < |c| then c[k + 1] else null;
        var nxt := thh.hhNext;
        cs := MoveOne(larger, thh, m, cs);
        m := m0 + c[..k + 1];
        thh := nxt;
        k := k + 1;
      }
    }

    method MoveOne(larger: array<Bucket>, thh: Elem, ghost m: seq<Elem>, ghost cs: seq<seq<Elem>>) returns (ghost cs': seq<seq<Elem>>)
      requires Hung(m, larger, cs)
      requires thh !in m && |cs| == larger.Length == 2 * numBuckets > 0
      requires Tallied(larger, cs)
      modifies larger, `nonidealItems, thh`hhNext, thh`hhPrev, SetOf(m)`hhPrev
      ensures |cs'| == |cs|
      ensures Hung(m + [thh], larger, cs')
      ensures Tallied(larger, cs')
    {
      hide Hung, Excess;
      var b := thh.hashv % (2 * numBuckets);
      Appended(m, thh);
      HungCount(m, larger, cs, b);
      cs' := cs[b := [thh] + cs[b]];
      Push(larger, b, thh, m, cs);
      NoteLength(larger, b, thh, m, cs);
    }

    /** A chain that outgrows the ideal is counted, and delays its next doubling. */
    method NoteLength(larger: array<Bucket>, b: nat, ghost thh: Elem, ghost m: seq<Elem>, ghost cs: seq<seq<Elem>>)
      requires b < |cs| == larger.Length && Hung(m + [thh], larger, cs[b := [thh] + cs[b]])
      requires nonidealItems == Excess(cs, idealChainMaxlen)
      requires larger[b].expandMult == Multiplier(|cs[b]|, idealChainMaxlen)
      requires forall i :: 0 <= i < larger.Length && i != b ==> larger[i].expandMult == Multiplier(larger[i].count, idealChainMaxlen)
      modifies larger, `nonidealItems
      ensures Hung(m + [thh], larger, cs[b := [thh] + cs[b]])
      ensures Tallied(larger, cs[b := [thh] + cs[b]])
    {
      hide Excess, Placed, ChainsLinked;
      ExcessPush(cs, b, thh, idealChainMaxlen);
      if larger[b].count > idealChainMaxlen {
        nonidealItems := nonidealItems + 1;
        if larger[b].count > larger[b].expandMult * idealChainMaxlen {
          larger[b] := larger[b].(expandMult := larger[b].expandMult + 1);
        }
      }
    }
  }

  lemma EmptyHung(bs: array<Bucket>, cs: seq<seq<Elem>>)
    requires bs.Length == |cs| > 0
    requires forall b :: 0 <= b < |cs| ==> cs[b] == [] && bs[b].head == null && bs[b].count == 0
    ensures Hung([], bs, cs)
  {
  }

  lemma ListedOne(e: Elem)
    requires e.next == null && e.prev == null
    ensures Listed([e])
  {
  }

  lemma HungCounts(m: seq<Elem>, bs: array<Bucket>, cs: seq<seq<Elem>>)
    requires Hung(m, bs, cs)
    ensures Placed(m, cs) && bs.Length == |cs|
    ensures forall b :: 0 <= b < |cs| ==> Distinct(cs[b]) && bs[..][b].count == |cs[b]|
  {
    forall b | 0 <= b < |cs| ensures Distinct(cs[b]) && bs[..][b].count == |cs[b]| {
      assert Chain(cs[b]);
    }
  }

  lemma HungCount(m: seq<Elem>, bs: array<Bucket>, cs: seq<seq<Elem>>, b: nat)
    requires Hung(m, bs, cs) && b < |cs|
    ensures bs.Length == |cs| && bs[b].count == |cs[b]|
  {
  }

  /** What putting `e` into its chain makes of the chains. */
  lemma PlaceFor(m: seq<Elem>, cs: seq<seq<Elem>>, e: Elem)
    requires Placed(m, cs) && ChainsLinked(m, cs) && e !in m
    ensures var b := e.hashv % |cs|;
      && SetOf(cs[b]) <= SetOf(m)
      && (forall i :: 0 <= i < |cs| ==> Chain(cs[i]) && e !in SetOf(cs[i]))
      && (forall i :: 0 <= i < |cs| && i != b ==> SetOf(cs[i]) !! SetOf(cs[b]))
      && var cs' := cs[b := [e] + cs[b]];
      && Placed(m + [e], cs')
      && (forall i :: 0 <= i < |cs| ==> SetOf(cs'[i]) <= SetOf(m + [e]))
  {
    hide Chain;
    var b := e.hashv % |cs|;
    PlacedWith(m, cs, e);
    ChainsWithin(m, cs);
    ChainsWithin(m + [e], cs[b := [e] + cs[b]]);
    forall i | 0 <= i < |cs| && i != b ensures SetOf(cs[i]) !! SetOf(cs[b]) {
      if i < b { ChainsApart(m, cs, i, b); } else { ChainsApart(m, cs, b, i); }
    }
  }

  /** Where the `k`-th element hangs, and what taking it out leaves. */
  lemma PlaceOf(order: seq<Elem>, chains: seq<seq<Elem>>, k: nat) returns (j: nat)
    requires Placed(order, chains) && ChainsLinked(order, chains) && Distinct(order) && k < |order|
    ensures var b := order[k].hashv % |chains|;
      && j < |chains[b]| && chains[b][j] == order[k]
      && SetOf(chains[b]) <= SetOf(order)
      && (forall i :: 0 <= i < |chains| && i != b ==> SetOf(chains[i]) !! SetOf(chains[b]))
      && var order', chains' := Without(order, k), chains[b := Without(chains[b], j)];
      && Placed(order', chains')
      && (forall i :: 0 <= i < |chains| ==> SetOf(chains'[i]) <= SetOf(order'))
  {
    var b := order[k].hashv % |chains|;
    var c := chains[b];
    assert order[k] in c;
    j :| 0 <= j < |c| && c[j] == order[k];
    hide Distinct, Without;
    assert Chain(c);
    forall i | 0 <= i < |chains| && i != b ensures SetOf(chains[i]) !! SetOf(c) {
      if i < b { ChainsApart(order, chains, i, b); } else { ChainsApart(order, chains, b, i); }
    }
    PlacedWithout(order, chains, k, b, j);
    ChainsWithin(Without(order, k), chains[b := Without(c, j)]);
  }
}