/** The relay's main loop over the packet buffer and the hash table, step by step the state machine of RelaySpec. */
module Relay {
  import opened Bytes
  import opened Net
  import opened Keystream
  import opened Codec
  import opened Stun
  import opened Masking
  import opened RelaySpec
  import opened RelayCases
  import opened PacketPath
  import opened Table

  // ----- the table as a sequence of values

  ghost function Entries(order: seq<Elem>): (r: seq<Conn>)
    reads SetOf(order)
    ensures |r| == |order| && forall i :: 0 <= i < |order| ==> r[i] == order[i].Entry()
    decreases |order|
  {
    if order == [] then [] else Entries(order[..|order| - 1]) + [order[|order| - 1].Entry()]
  }

  ghost function Socks(es: seq<Elem>): (r: seq<nat>)
    reads SetOf(es)`sock
    ensures |r| == |es| && forall i :: 0 <= i < |es| ==> r[i] == es[i].sock
    decreases |es|
  {
    if es == [] then [] else Socks(es[..|es| - 1]) + [es[|es| - 1].sock]
  }

  ghost predicate DistinctSocks(order: seq<Elem>)
    reads SetOf(order)`sock
  {
    forall i, j :: 0 <= i < j < |order| ==> order[i].sock != order[j].sock
  }

  /** `e` is the entry at `i`, or there is none. */
  ghost predicate At(order: seq<Elem>, e: Elem?, i: Option<nat>)
  {
    if e == null then i.None? else i.Some? && i.value < |order| && order[i.value] == e
  }

  /** `HASH_FIND` and the search of the state machine find the same entry. */
  lemma FindAddrAgrees(table: HashTable, a: Addr, e: Elem?)
    requires table.Valid()
    requires if e != null then e in table.order && e.addr == a else forall x :: x in table.order ==> x.addr != a
    ensures At(table.order, e, FindAddr(Entries(table.order), a))
  {
    var order := table.order;
    var i := FindAddr(Entries(order), a);
    if i.Some? {
      assert order[i.value].addr == a && order[i.value] in order;
    }
    if e != null {
      var j :| 0 <= j < |order| && order[j] == e;
      assert Entries(order)[j].addr == a;
    }
  }

  lemma FindSockAgrees(order: seq<Elem>, e: Elem)
    requires DistinctSocks(order) && e in order
    ensures At(order, e, FindSock(Entries(order), e.sock))
  {
    var j :| 0 <= j < |order| && order[j] == e;
    assert Entries(order)[j].sock == e.sock;
  }

  method Locate(table: HashTable, a: Addr) returns (e: Elem?)
    requires table.Valid()
    ensures table.Valid()
    ensures At(table.order, e, FindAddr(Entries(table.order), a))
    ensures e == null ==> forall x :: x in table.order ==> x.addr != a
  {
    hide HashTable.View, FindAddr, Entries, At;
    e := table.Find(a);
    FindAddrAgrees(table, a, e);
  }

  // ----- one entry

  method RequestInPlace(cfg: Config, e: Elem, now: int, obfuscated: bool)
    modifies e`clean, e`mask, e`dir, e`lastRequest
    ensures e.Entry() == RequestFromClient(cfg, old(e.Entry()), now, obfuscated)
  {
    if cfg.allowClean {
      e.clean := !obfuscated;
      if e.clean {
        e.mask := NoMask;
      }
    }
    e.dir := C2S;
    e.lastRequest := now;
  }

  method ClientGateInPlace(cfg: Config, e: Elem, now: int, kind: nat, obfuscated: bool) returns (pass: bool)
    modifies e`clean, e`mask, e`dir, e`lastRequest, e`handshaked, e`clientObf, e`serverObf, e`lastHandshake
    ensures var r := ClientGate(cfg, old(e.Entry()), now, kind, obfuscated);
      pass == r.Some? && e.Entry() == if r.Some? then r.value else old(e.Entry())
  {
    hide RequestFromClient;
    if kind == WG_TYPE_HANDSHAKE {
      RequestInPlace(cfg, e, now, obfuscated);
    } else if kind == WG_TYPE_HANDSHAKE_RESP {
      if now - e.lastRequest > HANDSHAKE_TIMEOUT { return false; }
      if e.dir != S2C { return false; }
      e.handshaked := true;
      e.clientObf := obfuscated;
      e.serverObf := !obfuscated;
      e.lastHandshake := now;
    } else if !e.handshaked {
      return false;
    }
    return true;
  }

  method ServerGateInPlace(e: Elem, now: int, kind: nat, obfuscated: bool) returns (pass: bool)
    modifies e`dir, e`lastRequest, e`handshaked, e`clientObf, e`serverObf, e`lastHandshake
    ensures var r := ServerGate(old(e.Entry()), now, kind, obfuscated);
      pass == r.Some? && e.Entry() == if r.Some? then r.value else old(e.Entry())
  {
    if kind == WG_TYPE_HANDSHAKE {
      e.dir := S2C;
      e.lastRequest := now;
    } else if kind == WG_TYPE_HANDSHAKE_RESP {
      if now - e.lastRequest > HANDSHAKE_TIMEOUT { return false; }
      if e.dir != C2S { return false; }
      e.handshaked := true;
      e.clientObf := !obfuscated && !e.clean;
      e.serverObf := obfuscated;
      e.lastHandshake := now;
    } else if !e.handshaked {
      return false;
    }
    return true;
  }

  /** Gate and version check of a packet from either side. */
  method AcceptInPlace(cfg: Config, e: Elem, now: int, kind: nat, obfuscated: bool, version: nat, from: Dir) returns (pass: bool)
    modifies e`clean, e`mask, e`dir, e`lastRequest, e`handshaked, e`clientObf, e`serverObf, e`lastHandshake, e`version
    ensures var r := Accept(cfg, old(e.Entry()), now, kind, obfuscated, version, from);
      pass == r.Some? && e.Entry() == if r.Some? then r.value else old(e.Entry())
  {
    hide ClientGate, ServerGate;
    if from == C2S {
      pass := ClientGateInPlace(cfg, e, now, kind, obfuscated);
    } else {
      pass := ServerGateInPlace(e, now, kind, obfuscated);
    }
    if pass && version < e.version {
      e.version := version;
    }
  }

  method Touch(e: Elem, from: Dir, now: int)
    modifies e`lastActivity, e`lastIncoming
    ensures e.Entry() == Touched(old(e.Entry()), now, true, from)
  {
    ghost var c := e.Entry();
    e.lastActivity := now;
    assert e.Entry() == c.(lastActivity := now);
    if from == S2C {
      e.lastIncoming := now;
      assert e.Entry() == c.(lastActivity := now, lastIncoming := now);
    }
  }

  /** Gate, version check, probe, encoding and sending of the packet at `off0`, from either side. */
  method PassEntry(path: Path, e: Elem, from: Dir, now: int, off0: nat, length0: nat, obfuscated: bool, version: nat, luck: Luck,
                   allocOk: bool, ghost p: seq<byte>)
    returns (controls: seq<Send>, forwarded: Option<Send>)
    requires path.Holds(p, off0, length0, obfuscated)
    requires path.Valid() && e !in path.Repr()
    modifies path.Repr()
    modifies e`clean, e`mask, e`dir, e`lastRequest, e`handshaked, e`clientObf, e`serverObf, e`lastHandshake, e`version
    modifies e`lastActivity, e`lastIncoming
    ensures path.Valid() && fresh(path.Repr() - old(path.Repr()))
    ensures (e.Entry(), controls, forwarded) == Passed(path.cfg, old(e.Entry()), from, now, p, obfuscated, version, luck)
  {
    hide Accept, Outgoing, Probes, WgType, Cache.Valid;
    controls, forwarded := [], None;
    var kind := WgType(path.full[off0..off0 + length0]);
    var pass := AcceptInPlace(path.cfg, e, now, kind, obfuscated, version, from);
    if pass {
      ghost var d := e.Entry();
      controls := Directed(e.Entry(), from, Probes(e.Entry(), path.full[off0..off0 + length0], obfuscated, luck));
      var length, off := path.Leave(e.Entry(), off0, length0, obfuscated, luck, allocOk);
      if luck.sent {
        forwarded := Some(SendOn(e.Entry(), from, path.full[off..off + length]));
        Touch(e, from, now);
      }
    }
  }

  lemma EntriesUpdate(order: seq<Elem>, i: nat, was: seq<Conn>)
    requires i < |order| == |was|
    requires forall j :: 0 <= j < |order| && j != i ==> order[j].Entry() == was[j]
    ensures Entries(order) == was[i := order[i].Entry()]
  {
  }

  lemma SockUnused(order: seq<Elem>, k: nat)
    requires FindSock(Entries(order), k).None?
    ensures k !in Socks(order)
  {
    hide Entries, Socks, FindSock;
    SockUnusedValues(Entries(order), k);
    forall j | 0 <= j < |order| ensures Socks(order)[j] != k {
      assert Entries(order)[j].sock == order[j].sock;
    }
  }

  lemma SockUnusedValues(conns: seq<Conn>, k: nat)
    requires FindSock(conns, k).None?
    ensures forall j :: 0 <= j < |conns| ==> conns[j].sock != k
  {
  }

  lemma OrderDistinct(table: HashTable)
    requires table.Valid()
    ensures Distinct(table.order)
  {
  }

  method Greet(e: Elem, now: int, mask: Mask)
    modifies e`lastActivity, e`lastIncoming, e`mask
    ensures e.Entry() == old(e.Entry()).(lastActivity := now, lastIncoming := 0, mask := mask)
  {
    e.lastActivity := now;
    e.lastIncoming := 0;
    e.mask := mask;
  }

  lemma EntriesAppend(order: seq<Elem>, e: Elem, was: seq<Conn>)
    requires |order| == |was| && forall j :: 0 <= j < |order| ==> order[j].Entry() == was[j]
    ensures Entries(order + [e]) == was + [e.Entry()]
  {
  }

  method AddEntry(table: HashTable, e: Elem, ghost was: seq<Conn>)
    requires table.Valid() && was == Entries(table.order)
    requires e !in table.order && forall x :: x in table.order ==> x.addr != e.addr
    modifies table, table.buckets, e`hashv, e`next, e`prev, e`hhNext, e`hhPrev
    modifies SetOf(table.order)`next, SetOf(table.order)`hhNext, SetOf(table.order)`prev, SetOf(table.order)`hhPrev
    ensures table.Valid() && (table.buckets == old(table.buckets) || fresh(table.buckets))
    ensures table.order == old(table.order) + [e] && Entries(table.order) == was + [old(e.Entry())]
  {
    hide HashTable.Valid, HashTable.View, Elem.Entry, Entries;
    table.Add(e);
    EntriesAppend(old(table.order), e, was);
  }

  method RemoveEntry(table: HashTable, e: Elem, ghost was: seq<Conn>) returns (ghost k: nat)
    requires table.Valid() && was == Entries(table.order) && e in table.order
    modifies table, table.buckets
    modifies SetOf(table.order)`next, SetOf(table.order)`hhNext, SetOf(table.order)`prev, SetOf(table.order)`hhPrev
    ensures table.Valid() && table.buckets == old(table.buckets)
    ensures k < |old(table.order)| == |was| && old(table.order)[k] == e && table.order == Without(old(table.order), k)
    ensures Entries(table.order) == Without(was, k)
  {
    hide HashTable.Valid, HashTable.View, Elem.Entry, Entries;
    k := table.Delete(e);
    EntriesWithout(old(table.order), k, was);
  }

  lemma RekeyedIs(was: seq<Conn>, k: nat, addr: Addr)
    requires k < |was|
    ensures Rekeyed(was, k, addr) == Without(was, k) + [was[k].(addr := addr)]
  {
  }

  lemma EntriesWithout(order: seq<Elem>, k: nat, was: seq<Conn>)
    requires k < |order| == |was| && forall j :: 0 <= j < |order| ==> order[j].Entry() == was[j]
    ensures Entries(Without(order, k)) == Without(was, k)
  {
    hide Entries, Elem.Entry;
    forall j | 0 <= j < |order| - 1 ensures Entries(Without(order, k))[j] == Without(was, k)[j] {}
  }

  method SetAddr(e: Elem, addr: Addr)
    modifies e`addr
    ensures e.addr == addr && e.Entry() == old(e.Entry()).(addr := addr)
  {
    e.addr := addr;
  }

  method Connect(e: Elem, target: Addr, refused: set<nat>)
    modifies e`peer
    ensures e.Entry() == if e.sock in refused then old(e.Entry()) else old(e.Entry()).(peer := Some(target))
  {
    if e.sock !in refused {
      e.peer := Some(target);
    }
  }

  lemma SockOf(order: seq<Elem>)
    ensures forall j :: 0 <= j < |order| ==> Entries(order)[j].sock == order[j].sock
  {
  }

  /** The table's list, from its head. */
  lemma ListOf(table: HashTable)
    requires table.Valid()
    ensures Listed(table.order) && table.head == First(table.order)
  {
  }

  /** `connect` for every entry, in insertion order. */
  method Reconnect(table: HashTable, target: Addr, refused: set<nat>, ghost was: seq<Conn>)
    requires table.Valid() && was == Entries(table.order)
    modifies SetOf(table.order)`peer
    ensures Entries(table.order) == Reconnected(was, target, refused)
  {
    hide HashTable.Valid, Entries, Elem.Entry;
    ListOf(table);
    ghost var order, after, k := table.order, Reconnected(was, target, refused), 0;
    SockOf(order);
    var e := table.head;
    while e != null
      invariant k <= |order| && e == (if k < |order| then order[k] else null)
      invariant forall j :: 0 <= j < k ==> order[j].Entry() == after[j]
      invariant forall j :: k <= j < |order| ==> order[j].Entry() == was[j]
      decreases |order| - k
    {
      var tmp := e.next;
      Connect(e, target, refused);
      e, k := tmp, k + 1;
    }
  }

  /** What `ResolveStep` does with the entry `i` of a binding. */
  ghost function Rebound(s: State, i: nat, ip: Ip): State
    requires i < |s.conns|
  {
    var c := s.conns[i];
    var addr := c.addr.(ip := ip);
    if !c.isStatic || c.addr.ip == ip || FindAddr(s.conns, addr).Some? then s
    else s.(conns := Rekeyed(s.conns, i, addr))
  }

  lemma DistinctAt<T>(s: seq<T>, i: nat, k: nat)
    requires Distinct(s) && i < |s| && k < |s| && s[i] == s[k]
    ensures i == k
  {
  }

  ghost predicate Within(kept: seq<Elem>, orig: seq<Elem>) { SetOf(kept) <= SetOf(orig) }

  lemma StillWithin(kept: seq<Elem>, orig: seq<Elem>, i: nat)
    requires i <= |orig| && Within(kept, orig)
    ensures SetOf(kept + orig[i..]) <= SetOf(orig)
    ensures i < |orig| ==> orig[i] in SetOf(orig) && (kept + orig[i..])[|kept|] == orig[i]
    ensures i < |orig| ==> Within(kept + [orig[i]], orig)
    ensures i + 1 < |orig| ==> (kept + orig[i..])[|kept| + 1] == orig[i + 1]
  {
    forall x | x in kept + orig[i..] ensures x in orig {
      if x in kept { assert x in SetOf(kept); }
    }
  }

  lemma OrderAdvance(kept: seq<Elem>, orig: seq<Elem>, i: nat)
    requires i < |orig|
    ensures Without(kept + orig[i..], |kept|) == kept + orig[i + 1..]
    ensures kept + orig[i..] == (kept + [orig[i]]) + orig[i + 1..]
  {
  }

  lemma {:induction false} SweptSnoc(cfg: Config, conns: seq<Conn>, c: Conn, now: int, ids: nat -> Txid)
    ensures Swept(cfg, conns + [c], now) == Swept(cfg, conns, now) + if Expired(cfg, c, now) then [] else [Ticked(c, now)]
    ensures SweepSends(cfg, conns + [c], now, ids)
         == SweepSends(cfg, conns, now, ids) + if Expired(cfg, c, now) then [] else TimerSends(c, now, ids(c.sock))
    decreases |conns|
  {
    hide Expired, Ticked, TimerSends;
    if conns != [] {
      SweptSnoc(cfg, conns[1..], c, now, ids);
      assert (conns + [c])[1..] == conns[1..] + [c];
    } else {
      assert conns + [c] == [c] && [c][1..] == [];
    }
  }

  /** The cleanup of one more entry of `w0`, in the table `w` where the first `i` have been looked at. */
  lemma SweepAdvance(cfg: Config, w0: seq<Conn>, now: int, ids: nat -> Txid, i: nat, w: seq<Conn>)
    requires i < |w0| && w == Swept(cfg, w0[..i], now) + w0[i..]
    ensures var j := |Swept(cfg, w0[..i], now)|;
      && j < |w| && w[j] == w0[i]
      && (if Expired(cfg, w[j], now) then Without(w, j) else w[j := Ticked(w[j], now)]) == Swept(cfg, w0[..i + 1], now) + w0[i + 1..]
      && |Swept(cfg, w0[..i + 1], now)| == j + (if Expired(cfg, w[j], now) then 0 else 1)
      && SweepSends(cfg, w0[..i + 1], now, ids)
      == SweepSends(cfg, w0[..i], now, ids) + if Expired(cfg, w[j], now) then [] else TimerSends(w[j], now, ids(w[j].sock))
  {
    hide Expired, Ticked, TimerSends, Swept, SweepSends;
    SweptSnoc(cfg, w0[..i], w0[i], now, ids);
    assert w0[..i] + [w0[i]] == w0[..i + 1];
  }

  method NewStaticElem(cfg: Config, b: Binding, target: Addr) returns (e: Elem)
    ensures fresh(e) && e.addr == b.addr && e.sock == b.sock
    ensures e.Entry() == NewStaticConn(cfg, b.addr, b.sock, target, b.connected, b.named)
  {
    e := new Elem(b.addr, b.sock, Connected(target, b.connected));
    e.mask := cfg.mask;
    e.isStatic := true;
    e.named := b.named;
  }

  lemma NamedNext(conns: seq<Conn>, i: nat)
    requires i < |conns|
    ensures NamedSocks(conns[..i + 1])
         == NamedSocks(conns[..i]) + if conns[i].isStatic && conns[i].named then [conns[i].sock] else []
  {
    NamedSnoc(conns[..i], conns[i]);
    assert conns[..i] + [conns[i]] == conns[..i + 1];
  }

  lemma NamedStarts(conns: seq<Conn>)
    ensures NamedSocks(conns[..0]) == []
  {
  }

  lemma FieldsOf(order: seq<Elem>, i: nat)
    requires i < |order|
    ensures Entries(order)[i] == order[i].Entry()
    ensures order[i].Entry().isStatic == order[i].isStatic && order[i].Entry().named == order[i].named
    ensures order[i].Entry().sock == order[i].sock
  {
  }

  lemma BootStarts(cfg: Config, target: Addr, bs: seq<Binding>)
    ensures BootConns(cfg, target, bs[..0]) == Some(State([], target, 0, []))
  {
  }

  /** One more binding; a start that fails has failed for good. */
  lemma BootNext(cfg: Config, target: Addr, bs: seq<Binding>, n: nat)
    requires n < |bs| && BootConns(cfg, target, bs[..n]).Some?
    requires forall i, j :: 0 <= i < j < |bs| ==> bs[i].sock != bs[j].sock
    ensures var s := BootConns(cfg, target, bs[..n]).value;
      && FindSock(s.conns, bs[n].sock).None?
      && BootConns(cfg, target, bs[..n + 1]) == NewStatic(cfg, s, bs[n])
    ensures BootConns(cfg, target, bs[..n + 1]).None? ==> BootConns(cfg, target, bs).None?
  {
    hide NewStatic;
    assert bs[..n + 1][..n] == bs[..n];
    BootSocks(cfg, target, bs[..n]);
    if BootConns(cfg, target, bs[..n + 1]).None? {
      BootFails(cfg, target, bs, n + 1);
    }
  }

  lemma {:induction false} BootSocks(cfg: Config, target: Addr, bs: seq<Binding>)
    requires BootConns(cfg, target, bs).Some?
    ensures var s := BootConns(cfg, target, bs).value;
      |s.conns| == |bs| && s.target == target && forall j :: 0 <= j < |bs| ==> s.conns[j].sock == bs[j].sock
    decreases |bs|
  {
    if bs != [] {
      BootSocks(cfg, target, bs[..|bs| - 1]);
    }
  }

  lemma {:induction false} BootFails(cfg: Config, target: Addr, bs: seq<Binding>, n: nat)
    requires n <= |bs| && BootConns(cfg, target, bs[..n]).None?
    ensures BootConns(cfg, target, bs).None?
    decreases |bs|
  {
    if n == |bs| {
      assert bs[..n] == bs;
    } else {
      assert bs[..|bs| - 1][..n] == bs[..n];
      BootFails(cfg, target, bs[..|bs| - 1], n);
    }
  }

  // ----- one iteration of the main loop

  /** What `poll` reports: a datagram for the listening socket, one for an entry's socket, or resolver results. */
  datatype Arrival =
    | FromListen(pkt: seq<byte>, sender: Addr, luck: Luck, decodeOk: bool, encodeOk: bool)
    | FromSocket(fd: nat, pkt: seq<byte>, luck: Luck, decodeOk: bool, encodeOk: bool)
    | FromResolver(queue: seq<Resolution>)
  {
    ghost predicate Opens(k: nat) { FromListen? && luck.sock == Some(k) }

    /** A datagram that fits stands at the front of the buffer. */
    ghost predicate SeenIn(view: seq<byte>) {
      |view| == BUFFER_SIZE && (!FromResolver? && |pkt| <= BUFFER_SIZE ==> pkt <= view)
    }
  }

  ghost predicate Lacks(conns: seq<Conn>, k: nat) { forall i :: 0 <= i < |conns| ==> conns[i].sock != k }

  ghost function Reaction(cfg: Config, s: State, now: int, a: Arrival, view: seq<byte>): Outcome
    requires ValidConfig(cfg) && |view| == BUFFER_SIZE
  {
    match a
    case FromListen(pkt, sender, luck, _, _) => ClientStep(cfg, s, now, sender, view, |pkt|, luck)
    case FromSocket(fd, pkt, luck, _, _) => ServerStep(cfg, s, now, fd, view, |pkt|, luck)
    case FromResolver(queue) => Outcome(Drained(s, queue), [], None)
  }

  lemma LacksNone(conns: seq<Conn>, k: nat)
    ensures Lacks(conns, k) <==> FindSock(conns, k).None?
  {
  }

  /** What the buffer held when each arrival was looked at. */
  ghost predicate Views(batch: seq<Arrival>, views: seq<seq<byte>>) {
    |views| == |batch| && forall n :: 0 <= n < |views| ==> batch[n].SeenIn(views[n])
  }

  /** Everything that arrived, one after the other. */
  ghost function Batch(cfg: Config, s: State, now: int, batch: seq<Arrival>, views: seq<seq<byte>>): (State, seq<Send>)
    requires ValidConfig(cfg) && Views(batch, views)
    decreases |batch|
  {
    if batch == [] then (s, [])
    else
      var n := |batch| - 1;
      var (t, sent) := Batch(cfg, s, now, batch[..n], views[..n]);
      var out := Reaction(cfg, t, now, batch[n], views[n]);
      (out.state, sent + OnWire(out.controls, out.forwarded))
  }

  ghost function Iteration(cfg: Config, s: State, now: int, batch: seq<Arrival>, views: seq<seq<byte>>, ids: nat -> Txid)
    : (State, seq<Send>)
    requires ValidConfig(cfg) && Views(batch, views)
  {
    var (t, sent) := Batch(cfg, s, now, batch, views);
    var out := CleanupStep(cfg, t, now, ids);
    (out.state, sent + out.controls)
  }

  lemma BatchNext(cfg: Config, s: State, now: int, batch: seq<Arrival>, n: nat, views: seq<seq<byte>>, view: seq<byte>)
    requires ValidConfig(cfg) && n < |batch| && Views(batch[..n], views) && batch[n].SeenIn(view)
    ensures Views(batch[..n + 1], views + [view])
    ensures var (t, sent) := Batch(cfg, s, now, batch[..n], views);
      var out := Reaction(cfg, t, now, batch[n], view);
      Batch(cfg, s, now, batch[..n + 1], views + [view]) == (out.state, sent + OnWire(out.controls, out.forwarded))
  {
    hide Reaction, OnWire;
    assert batch[..n + 1][..n] == batch[..n] && (views + [view])[..n] == views;
  }

  lemma BatchEmpty(cfg: Config, s: State, now: int, batch: seq<Arrival>)
    requires ValidConfig(cfg)
    ensures Views(batch[..0], []) && Batch(cfg, s, now, batch[..0], []) == (s, [])
  {
  }

  /** `socket` returns none of the sockets in use. */
  ghost predicate NewSockets(conns: seq<Conn>, batch: seq<Arrival>) {
    && (forall n, k :: 0 <= n < |batch| && batch[n].Opens(k) ==> Lacks(conns, k))
    && (forall m, n, k :: 0 <= m < n < |batch| && batch[n].Opens(k) ==> !batch[m].Opens(k))
  }

  /** `poll` reports only sockets it was asked about, and those are the entries'. */
  ghost predicate Polled(conns: seq<Conn>, batch: seq<Arrival>) {
    forall n :: 0 <= n < |batch| && batch[n].FromSocket? ==> !Lacks(conns, batch[n].fd)
  }

  lemma NextSocket(conns: seq<Conn>, batch: seq<Arrival>, n: nat)
    requires n < |batch| && NewSockets(conns, batch[n..]) && Polled(conns, batch[n..])
    ensures forall k :: batch[n].Opens(k) ==> Lacks(conns, k)
    ensures batch[n].FromSocket? ==> !Lacks(conns, batch[n].fd)
  {
    assert batch[n..][0] == batch[n];
  }

  lemma SocketsKept(cfg: Config, t: State, now: int, batch: seq<Arrival>, n: nat, view: seq<byte>)
    requires ValidConfig(cfg) && |view| == BUFFER_SIZE && n < |batch| && NewSockets(t.conns, batch[n..])
    ensures NewSockets(Reaction(cfg, t, now, batch[n], view).state.conns, batch[n + 1..])
    ensures Polled(t.conns, batch[n..]) ==> Polled(Reaction(cfg, t, now, batch[n], view).state.conns, batch[n + 1..])
  {
    hide Reaction, Lacks;
    var rest, later := batch[n..], batch[n + 1..];
    assert forall m :: 0 <= m < |later| ==> later[m] == rest[m + 1];
    forall m, k | 0 <= m < |later| && later[m].Opens(k)
      ensures Lacks(Reaction(cfg, t, now, batch[n], view).state.conns, k)
    {
      assert rest[m + 1].Opens(k) && rest[0] == batch[n];
      ReactionSockets(cfg, t, now, batch[n], view, k);
    }
    if Polled(t.conns, rest) {
      forall m | 0 <= m < |later| && later[m].FromSocket?
        ensures !Lacks(Reaction(cfg, t, now, batch[n], view).state.conns, later[m].fd)
      {
        assert rest[m + 1].FromSocket? && rest[0] == batch[n];
        if !rest[0].Opens(later[m].fd) {
          ReactionSockets(cfg, t, now, batch[n], view, later[m].fd);
        }
      }
    }
  }

  /** Only a client's first handshake brings a new socket into the table, and no arrival takes one out of it. */
  lemma ReactionSockets(cfg: Config, s: State, now: int, a: Arrival, view: seq<byte>, k: nat)
    requires ValidConfig(cfg) && |view| == BUFFER_SIZE && !a.Opens(k)
    ensures Lacks(Reaction(cfg, s, now, a, view).state.conns, k) <==> Lacks(s.conns, k)
  {
    hide ClientStep, ServerStep, ClientIngress, ServerIngress, Forward, Passed, FindAddr, FindSock, Lacks;
    match a
    case FromListen(pkt, sender, luck, _, _) =>
      ClientStepCases(cfg, s, now, sender, view, |pkt|, luck);
      if |pkt| <= BUFFER_SIZE {
        match ClientIngress(cfg, Lookup(s.conns, sender), view, |pkt|, sender)
        case Dropped(_) =>
        case Accepted(p, o, v, mask) =>
          var r := WithEntry(cfg, s, now, sender, WgType(p) == WG_TYPE_HANDSHAKE, mask, luck);
          if r.Some? {
            WithEntrySockets(cfg, s, now, sender, WgType(p) == WG_TYPE_HANDSHAKE, mask, luck, k);
            ForwardSockets(cfg, r.value.0, r.value.1, C2S, now, p, o, v, luck, k);
          }
      }
    case FromSocket(fd, pkt, luck, _, _) =>
      var i := FindSock(s.conns, fd);
      if i.None? {
        LacksNone(s.conns, fd);
        NoEntryNoStep(cfg, s, now, fd, view, |pkt|, luck);
      } else {
        ServerStepCases(cfg, s, now, fd, i.value, view, |pkt|, luck);
        if |pkt| <= BUFFER_SIZE {
          match ServerIngress(cfg, s.conns[i.value], view, |pkt|, s.target)
          case Dropped(_) =>
          case Accepted(p, o, v, _) => ForwardSockets(cfg, s, i.value, S2C, now, p, o, v, luck, k);
        }
      }
    case FromResolver(queue) =>
      DrainSockets(s, queue, k);
  }

  lemma WithEntrySockets(cfg: Config, s: State, now: int, sender: Addr, handshake: bool, mask: Mask, luck: Luck, k: nat)
    requires luck.sock != Some(k)
    ensures var r := WithEntry(cfg, s, now, sender, handshake, mask, luck);
      r.Some? ==> (Lacks(r.value.0.conns, k) <==> Lacks(s.conns, k))
  {
    hide FindAddr;
    var r := WithEntry(cfg, s, now, sender, handshake, mask, luck);
    if r.Some? && |r.value.0.conns| > |s.conns| {
      assert r.value.0.conns[..|s.conns|] == s.conns;
    }
  }

  lemma ForwardSockets(cfg: Config, s: State, i: nat, from: Dir, now: int, packet: seq<byte>, obfuscated: bool, version: nat, luck: Luck, k: nat)
    requires ValidConfig(cfg) && i < |s.conns| && 4 <= |packet| <= BUFFER_SIZE
    ensures Lacks(Forward(cfg, s, i, from, now, packet, obfuscated, version, luck).state.conns, k) <==> Lacks(s.conns, k)
  {
    hide WgType, Forward, Passed;
    ForwardIsPassed(cfg, s, i, from, now, packet, obfuscated, version, luck);
    PassedSock(cfg, s.conns[i], from, now, packet, obfuscated, version, luck);
    SocketsUnchanged(s.conns, Forward(cfg, s, i, from, now, packet, obfuscated, version, luck).state.conns, k);
  }

  lemma SocketsUnchanged(before: seq<Conn>, after: seq<Conn>, k: nat)
    requires |after| == |before| && forall i :: 0 <= i < |before| ==> after[i].sock == before[i].sock
    ensures Lacks(after, k) <==> Lacks(before, k)
  {
    forall i | 0 <= i < |before| ensures before[i].sock == after[i].sock {}
  }

  lemma PassedSock(cfg: Config, c: Conn, from: Dir, now: int, packet: seq<byte>, obfuscated: bool, version: nat, luck: Luck)
    requires ValidConfig(cfg) && 4 <= |packet| <= BUFFER_SIZE
    ensures Passed(cfg, c, from, now, packet, obfuscated, version, luck).0.sock == c.sock
  {
    hide Probes, Outgoing, WgType, Directed, SendOn, Accept;
    AcceptSame(cfg, c, now, WgType(packet), obfuscated, version, from);
  }

  lemma {:induction false} DrainSockets(s: State, queue: seq<Resolution>, k: nat)
    ensures Lacks(Drained(s, queue).conns, k) <==> Lacks(s.conns, k)
    decreases |queue|
  {
    hide ResolveStep, Lacks;
    if queue != [] {
      ResolveSockets(s, queue[0].result, queue[0].refused, k);
      DrainSockets(ResolveStep(s, queue[0].result, queue[0].refused), queue[1..], k);
    }
  }

  lemma ResolveSockets(s: State, r: ResolveResult, refused: set<nat>, k: nat)
    ensures Lacks(ResolveStep(s, r, refused).conns, k) <==> Lacks(s.conns, k)
  {
    hide FindAddr, FindSockFrom, Rekeyed;
    var i := if 0 <= r.tag < |s.bindings| then FindSock(s.conns, s.bindings[r.tag]) else None;
    if r.err == 0 && r.tag == RESOLVE_TAG_TARGET {
      SocketsUnchanged(s.conns, ResolveStep(s, r, refused).conns, k);
    } else if i.Some? {
      RekeyedSockets(s.conns, i.value, s.conns[i.value].addr.(ip := r.ip), k);
    }
  }

  lemma RekeyedSockets(conns: seq<Conn>, i: nat, addr: Addr, k: nat)
    requires i < |conns|
    ensures Lacks(Rekeyed(conns, i, addr), k) <==> Lacks(conns, k)
  {
    var after, n := Rekeyed(conns, i, addr), |conns|;
    forall j | 0 <= j < n ensures conns[j].sock == after[if j < i then j else if j == i then n - 1 else j - 1].sock {}
    forall j | 0 <= j < n ensures after[j].sock == conns[if j < i then j else if j == n - 1 then i else j + 1].sock {}
  }

  class Server {
    const path: Path
    const table: HashTable
    var forward: Addr
    var lastCleanup: int
    var bindings: seq<Elem>

    ghost function Repr(): set<object>
      reads this, path.cache, table
    {
      {this, table, table.buckets} + path.Repr() + SetOf(table.order)
    }

    /** The packet path shares nothing with the table. */
    ghost predicate Apart()
      reads this, path.cache, table
    {
      {this, table, table.buckets} + SetOf(table.order) !! path.Repr()
    }

    /** All but the list of bindings. */
    ghost predicate Ready()
      reads this, path.cache, path.cache.Repr, path.cache.rows, table, table.buckets, SetOf(table.order)
    {
      path.Valid() && table.Valid() && Apart() && DistinctSocks(table.order)
    }

    ghost predicate Valid()
      reads this, path.cache, path.cache.Repr, path.cache.rows, table, table.buckets, SetOf(table.order)
    {
      Ready() && forall b :: b in bindings ==> b in table.order && b.isStatic
    }

    /** The state machine's view of this object. */
    ghost function Abs(): State
      reads this, table, SetOf(table.order), SetOf(bindings)`sock
    {
      State(Entries(table.order), forward, lastCleanup, Socks(bindings))
    }

    constructor (cfg: Config, hash: Addr -> nat, target: Addr)
      requires ValidConfig(cfg)
      ensures Valid() && fresh(Repr()) && path.cfg == cfg
      ensures Abs() == State([], target, 0, [])
    {
      hide Cache.Valid, HashTable.Valid;
      path := new Path(cfg);
      table := new HashTable(hash);
      forward, lastCleanup, bindings := target, 0, [];
    }

    /** Work in the packet path, and on fields of the entries that are not part of their key or their links. */
    twostate predicate KeysKept()
      reads this, table, table.buckets, table.order
    {
      && unchanged(`bindings) && unchanged(table) && unchanged(table.buckets)
      && unchanged(SetOf(table.order)`addr, SetOf(table.order)`sock, SetOf(table.order)`hashv, SetOf(table.order)`isStatic)
      && unchanged(SetOf(table.order)`next, SetOf(table.order)`prev, SetOf(table.order)`hhNext, SetOf(table.order)`hhPrev)
    }

    twostate lemma StaysValid()
      requires old(Valid()) && KeysKept()
      requires path.Valid() && fresh(path.Repr() - old(path.Repr()))
      ensures Valid()
    {
      hide Cache.Valid, HashTable.Valid;
      assert old(table.Valid());
      assert forall x :: x in SetOf(table.order) ==> x in table.order;
      assert forall x :: x in SetOf(old(table.order)) ==> x in old(table.order);
      assert table.Valid();
    }

    lemma Separated()
      requires Valid()
      ensures Apart()
    {
    }

    lemma Parts()
      requires Ready()
      ensures table.Valid() && Apart()
    {
    }

    /** Work in the packet path alone. */
    twostate lemma StaysSame()
      requires old(Valid())
      requires path.Valid() && fresh(path.Repr() - old(path.Repr()))
      requires unchanged(this, table, old(table.buckets), old(SetOf(table.order)))
      ensures Valid() && Abs() == old(Abs())
    {
      hide Cache.Valid, HashTable.Valid, Socks;
      StaysValid();
    }

    method Search(a: Addr, ghost s: State) returns (e: Elem?)
      requires s == Abs() && Valid()
      ensures Valid() && Abs() == s
      ensures At(table.order, e, FindAddr(s.conns, a))
      ensures e == null ==> forall x :: x in table.order ==> x.addr != a
    {
      hide Cache.Valid, HashTable.Valid, Entries, Socks, FindAddr;
      e := Locate(table, a);
      path.Undisturbed();
      StaysSame();
    }

    twostate lemma Grown(new e: Elem)
      requires table.buckets == old(table.buckets) || fresh(table.buckets)
      requires table.order == old(table.order) || (table.order == old(table.order) + [e] && fresh(e))
      requires fresh(path.Repr() - old(path.Repr()))
      ensures fresh(Repr() - old(Repr()))
    {
      Appended(old(table.order), e);
    }

    // ----- entries come and go

    /** `e` was put at the end of the table. */
    twostate lemma LinkedReady(e: Elem)
      requires old(Ready()) && old(e !in table.order && e !in path.Repr() && e.sock !in Socks(table.order))
      requires unchanged(old(path.Repr()))
      requires table.Valid() && table.order == old(table.order) + [e] && (table.buckets == old(table.buckets) || fresh(table.buckets))
      requires unchanged(e`sock, SetOf(old(table.order))`sock)
      ensures Ready()
    {
      hide Cache.Valid, HashTable.Valid;
      Appended(old(table.order), e);
      path.Undisturbed();
      assert DistinctSocks(table.order);
    }

    method Link(e: Elem, ghost was: seq<Conn>)
      requires Ready() && was == Entries(table.order)
      requires e !in table.order && e !in path.Repr() && e.sock !in Socks(table.order)
      requires forall x :: x in table.order ==> x.addr != e.addr
      modifies table, table.buckets, e`hashv, e`next, e`prev, e`hhNext, e`hhPrev
      modifies SetOf(table.order)`next, SetOf(table.order)`hhNext, SetOf(table.order)`prev, SetOf(table.order)`hhPrev
      ensures Ready() && (table.buckets == old(table.buckets) || fresh(table.buckets))
      ensures table.order == old(table.order) + [e] && Entries(table.order) == was + [old(e.Entry())]
    {
      hide Ready, Socks, HashTable.Valid, Entries;
      Parts();
      AddEntry(table, e, was);
      LinkedReady(e);
    }

    twostate lemma StaysReady()
      requires old(Ready())
      requires unchanged(table, old(table.buckets), old(SetOf(table.order)), old(path.Repr()))
      ensures Ready() && Entries(table.order) == old(Entries(table.order)) && Socks(table.order) == old(Socks(table.order))
    {
      hide Cache.Valid, HashTable.Valid, Socks;
      path.Undisturbed();
    }

    twostate lemma UnlinkedReady(k: nat)
      requires old(Ready()) && k < |old(table.order)|
      requires unchanged(old(path.Repr())) && table.buckets == old(table.buckets)
      requires table.Valid() && table.order == Without(old(table.order), k) && unchanged(SetOf(old(table.order))`sock)
      ensures Ready()
      ensures old(table.order)[k] !in table.order && old(table.order)[k].sock !in Socks(table.order)
      ensures forall x :: x in old(table.order) ==> x in table.order || x == old(table.order)[k]
      ensures forall x :: x in table.order ==> x in old(table.order)
    {
      hide Cache.Valid, HashTable.Valid, Socks;
      path.Undisturbed();
      ghost var was := old(table.order);
      WithoutMembers(was, k);
    }

    method Remove(e: Elem, ghost was: seq<Conn>) returns (ghost k: nat)
      requires Ready() && was == Entries(table.order) && e in table.order
      modifies table, table.buckets
      modifies SetOf(table.order)`next, SetOf(table.order)`hhNext, SetOf(table.order)`prev, SetOf(table.order)`hhPrev
      ensures Ready() && table.buckets == old(table.buckets)
      ensures k < |old(table.order)| == |was| && old(table.order)[k] == e && table.order == Without(old(table.order), k)
      ensures Entries(table.order) == Without(was, k)
      ensures e !in table.order && e.sock !in Socks(table.order)
      ensures forall x :: x in old(table.order) ==> x in table.order || x == e
      ensures forall x :: x in table.order ==> x in old(table.order)
    {
      hide Ready, Socks, HashTable.Valid, Entries, Without;
      Parts();
      k := RemoveEntry(table, e, was);
      UnlinkedReady(k);
    }

    /** Deletes, changes the key and adds again. */
    method Rekey(e: Elem, addr: Addr, ghost was: seq<Conn>) returns (ghost k: nat)
      requires e in table.order && was == Entries(table.order) && Ready()
      requires forall x :: x in table.order ==> x.addr != addr
      modifies table, table.buckets, e`addr, e`hashv
      modifies SetOf(table.order)`next, SetOf(table.order)`hhNext, SetOf(table.order)`prev, SetOf(table.order)`hhPrev
      ensures Ready() && (table.buckets == old(table.buckets) || fresh(table.buckets))
      ensures k < |was| == |old(table.order)| && old(table.order)[k] == e
      ensures table.order == Without(old(table.order), k) + [e]
      ensures Entries(table.order) == Rekeyed(was, k, addr)
      ensures forall x :: x in old(table.order) ==> x in table.order
      ensures SetOf(table.order) == SetOf(old(table.order))
    {
      hide Ready, Socks, HashTable.Valid, Entries, Without, Rekeyed, Elem.Entry, Path.Valid;
      Parts();
      assert forall j :: 0 <= j < |was| ==> table.order[j].Entry() == was[j];
      k := Remove(e, was);
      label Removed:
      SetAddr(e, addr);
      StaysReady@Removed();
      Link(e, Entries(table.order));
      RekeyedIs(was, k, addr);
    }

    lemma Usable()
      requires Valid()
      ensures table.Valid() && Apart() && |Abs().conns| == |table.order|
    {
    }

    method Join(e: Elem, ghost s: State)
      requires s == Abs() && Valid()
      requires e !in table.order && e !in path.Repr() && e.sock !in Socks(table.order)
      requires forall x :: x in table.order ==> x.addr != e.addr
      modifies table, table.buckets, e`hashv, e`next, e`prev, e`hhNext, e`hhPrev
      modifies SetOf(table.order)`next, SetOf(table.order)`hhNext, SetOf(table.order)`prev, SetOf(table.order)`hhPrev
      ensures Valid() && (table.buckets == old(table.buckets) || fresh(table.buckets))
      ensures table.order == old(table.order) + [e]
      ensures Abs() == s.(conns := s.conns + [old(e.Entry())])
    {
      hide Ready, Entries, Socks, Elem.Entry;
      Link(e, s.conns);
    }

    method NewClientEntry(sender: Addr, luck: Luck, ghost s: State) returns (e: Elem?)
      requires luck.sock.Some? ==> FindSock(s.conns, luck.sock.value).None?
      requires s == Abs() && Valid() && forall x :: x in table.order ==> x.addr != sender
      modifies table, table.buckets
      modifies SetOf(table.order)`next, SetOf(table.order)`hhNext, SetOf(table.order)`prev, SetOf(table.order)`hhPrev
      ensures Valid() && (table.buckets == old(table.buckets) || fresh(table.buckets))
      ensures e == null <==> |s.conns| >= path.cfg.maxClients || luck.sock.None?
      ensures table.order == if e == null then old(table.order) else old(table.order) + [e]
      ensures Abs() == if e == null then s
                       else s.(conns := s.conns + [NewConn(sender, luck.sock.value, s.target, luck.connected, NoMask, 0)])
      ensures e != null ==> fresh(e)
    {
      hide Valid, HashTable.Valid, Entries, Socks, FindSock;
      Usable();
      if table.Count() >= path.cfg.maxClients || luck.sock.None? {
        return null;
      }
      SockUnused(table.order, luck.sock.value);
      e := new Elem(sender, luck.sock.value, Connected(forward, luck.connected));
      Join(e, s);
    }

    method Welcome(e: Elem, ghost i: nat, now: int, mask: Mask, ghost was: seq<Conn>)
      requires i < |table.order| && table.order[i] == e && was == Entries(table.order) && Valid()
      modifies e`lastActivity, e`lastIncoming, e`mask
      ensures Valid() && Entries(table.order) == was[i := was[i].(lastActivity := now, lastIncoming := 0, mask := mask)]
    {
      hide Cache.Valid, HashTable.Valid, Path.Valid, Entries, Socks, Elem.Entry;
      OrderDistinct(table);
      Greet(e, now, mask);
      path.Undisturbed();
      StaysValid();
      EntriesUpdate(table.order, i, was);
    }

    /** The entry that a first handshake makes, if it makes one. */
    method Admit(sender: Addr, now: int, mask: Mask, luck: Luck, ghost s: State) returns (e: Elem?)
      requires luck.sock.Some? ==> FindSock(s.conns, luck.sock.value).None?
      requires s == Abs() && Valid() && forall x :: x in table.order ==> x.addr != sender
      modifies table, table.buckets
      modifies SetOf(table.order)`next, SetOf(table.order)`hhNext, SetOf(table.order)`prev, SetOf(table.order)`hhPrev
      ensures Valid() && (table.buckets == old(table.buckets) || fresh(table.buckets))
      ensures e == null <==> |s.conns| >= path.cfg.maxClients || luck.sock.None?
      ensures table.order == if e == null then old(table.order) else old(table.order) + [e]
      ensures Abs() == if e == null then s
                       else s.(conns := s.conns + [NewConn(sender, luck.sock.value, s.target, luck.connected, mask, now)])
      ensures e != null ==> fresh(e)
    {
      hide Valid, Entries, Socks, FindSock;
      e := NewClientEntry(sender, luck, s);
      if e != null {
        Welcome(e, |s.conns|, now, mask, Entries(table.order));
      }
    }

    // ----- a packet that reached an entry

    method Deliver(e: Elem, ghost i: nat, from: Dir, now: int, off: nat, length: nat, obfuscated: bool, version: nat, luck: Luck,
                   allocOk: bool, ghost p: seq<byte>, ghost s: State)
      returns (controls: seq<Send>, forwarded: Option<Send>)
      requires path.Holds(p, off, length, obfuscated) && ValidConfig(path.cfg) && i < |s.conns|
      requires i < |table.order| && table.order[i] == e && s == Abs() && Valid()
      modifies path.Repr()
      modifies e`clean, e`mask, e`dir, e`lastRequest, e`handshaked, e`clientObf, e`serverObf, e`lastHandshake, e`version
      modifies e`lastActivity, e`lastIncoming
      ensures Valid() && fresh(path.Repr() - old(path.Repr()))
      ensures Outcome(Abs(), controls, forwarded)
           == Forward(path.cfg, s, i, from, now, p, obfuscated, version, luck)
    {
      hide Cache.Valid, HashTable.Valid, Path.Repr, Passed, Forward, Entries, Socks, Elem.Entry;
      OrderDistinct(table);
      controls, forwarded := PassEntry(path, e, from, now, off, length, obfuscated, version, luck, allocOk, p);
      StaysValid();
      EntriesUpdate(table.order, i, s.conns);
      ForwardIsPassed(path.cfg, s, i, from, now, p, obfuscated, version, luck);
    }

    /** Receives the bytes of a datagram into the buffer. */
    method Receive(pkt: seq<byte>, ghost s: State) returns (length: nat)
      requires s == Abs() && Valid()
      modifies path.full
      ensures Valid() && Abs() == s && length == |pkt|
      ensures path.full[PREBUFFER_SIZE..] == Received(old(path.full[..]), pkt)
    {
      hide Cache.Valid, HashTable.Valid, Entries, Socks, Received;
      length := path.Receive(pkt);
      StaysSame();
    }

    /** Looks the sender up, unmasks and decodes. */
    method TakeFromClient(length0: nat, sender: Addr, allocOk: bool, ghost s: State)
      returns (e: Elem?, ok: bool, off: nat, length: nat, obfuscated: bool, version: nat, mask: Mask, replies: seq<seq<byte>>)
      requires length0 <= BUFFER_SIZE && s == Abs() && Valid()
      modifies path.Repr()
      ensures Valid() && Abs() == s && fresh(path.Repr() - old(path.Repr()))
      ensures At(table.order, e, FindAddr(s.conns, sender))
      ensures e == null ==> forall x :: x in table.order ==> x.addr != sender
      ensures Shown(ClientIngress(path.cfg, Lookup(s.conns, sender), old(path.full[PREBUFFER_SIZE..]), length0, sender), path.full[..],
                    ok, off, length, obfuscated, version, mask, replies)
    {
      hide Cache.Valid, HashTable.Valid, Entries, Socks, ClientIngress, FindAddr, Shown;
      e := Search(sender, s);
      var known := if e != null then Some(e.Entry()) else None;
      ok, off, length, obfuscated, version, mask, replies := path.FromClient(known, length0, sender, allocOk);
      StaysSame();
    }

    /** The entry that a packet goes to; a first handshake makes one. */
    method EntryFor(e0: Elem?, sender: Addr, now: int, handshake: bool, mask: Mask, luck: Luck, ghost s: State)
      returns (e: Elem?)
      requires luck.sock.Some? ==> FindSock(s.conns, luck.sock.value).None?
      requires At(table.order, e0, FindAddr(s.conns, sender)) && (e0 == null ==> forall x :: x in table.order ==> x.addr != sender)
      requires s == Abs() && Valid()
      modifies Repr() - path.Repr()
      ensures Valid() && path.Repr() == old(path.Repr())
      ensures table.buckets == old(table.buckets) || fresh(table.buckets)
      ensures table.order == old(table.order) || (e != null && table.order == old(table.order) + [e] && fresh(e))
      ensures Chosen(e, WithEntry(path.cfg, s, now, sender, handshake, mask, luck), s)
    {
      hide Valid, Entries, Socks, FindSock, FindAddr;
      Separated();
      e := e0;
      if e == null && handshake {
        e := Admit(sender, now, mask, luck, s);
      }
    }

    ghost predicate Chosen(e: Elem?, r: Option<(State, nat)>, s: State)
      reads this, table, SetOf(table.order), SetOf(bindings)`sock
    {
      if e == null then r.None? && Abs() == s
      else r.Some? && Abs() == r.value.0 && r.value.1 < |table.order| && table.order[r.value.1] == e
    }

    /** An accepted packet goes to its entry. */
    method Dispatch(e0: Elem?, sender: Addr, now: int, off: nat, length: nat, obfuscated: bool, version: nat, mask: Mask, luck: Luck,
                    allocOk: bool, ghost p: seq<byte>, ghost s: State)
      returns (controls: seq<Send>, forwarded: Option<Send>)
      requires luck.sock.Some? ==> FindSock(s.conns, luck.sock.value).None?
      requires 4 <= |p| <= BUFFER_SIZE && path.Holds(p, off, length, obfuscated) && ValidConfig(path.cfg)
      requires At(table.order, e0, FindAddr(s.conns, sender)) && (e0 == null ==> forall x :: x in table.order ==> x.addr != sender)
      requires s == Abs() && Valid()
      modifies Repr()
      ensures Valid() && fresh(Repr() - old(Repr()))
      ensures Outcome(Abs(), controls, forwarded) == ClientAccepted(path.cfg, s, now, sender, p, obfuscated, version, mask, luck)
    {
      hide Valid, Abs, Entries, Socks, FindSock, FindAddr, Forward, WithEntry, Path.Holds, At, WgType;
      Separated();
      var handshake := path.KindAt(off, length, p, obfuscated) == WG_TYPE_HANDSHAKE;
      var e := EntryFor(e0, sender, now, handshake, mask, luck, s);
      if e == null {
        return [], None;
      }
      ghost var i := WithEntry(path.cfg, s, now, sender, handshake, mask, luck).value.1;
      Separated();
      controls, forwarded := Deliver(e, i, C2S, now, off, length, obfuscated, version, luck, allocOk, p, Abs());
      Grown(e);
    }

    /** A datagram on the listening socket. */
    method HandleClientPacket(pkt: seq<byte>, sender: Addr, now: int, luck: Luck, decodeOk: bool, encodeOk: bool)
      returns (controls: seq<Send>, forwarded: Option<Send>)
      requires Valid() && ValidConfig(path.cfg) && path.full.Length == PREBUFFER_SIZE + BUFFER_SIZE
      requires luck.sock.Some? ==> FindSock(Abs().conns, luck.sock.value).None?
      modifies Repr()
      ensures Valid() && fresh(Repr() - old(Repr()))
      ensures Outcome(Abs(), controls, forwarded)
           == ClientStep(path.cfg, old(Abs()), now, sender, Received(old(path.full[..]), pkt), |pkt|, luck)
    {
      hide Valid, Abs, Entries, Socks, FindSock, FindAddr, WithEntry, ClientAccepted, ClientIngress, At, ClientStep, Received;
      ghost var s, view := Abs(), Received(path.full[..], pkt);
      Separated();
      ClientStepCases(path.cfg, s, now, sender, view, |pkt|, luck);
      controls, forwarded := [], None;
      var length0 := Receive(pkt, s);
      if length0 > BUFFER_SIZE {
        return;
      }
      var e, ok, off, length, obfuscated, version, mask, replies := TakeFromClient(length0, sender, decodeOk, s);
      if ok {
        Separated();
        controls, forwarded := Dispatch(e, sender, now, off, length, obfuscated, version, mask, luck, encodeOk, path.full[off..off + length], s);
      } else {
        controls := ToClients(sender, replies);
      }
    }

    method TakeFromServer(e: Elem, length0: nat, allocOk: bool, ghost i: nat, ghost s: State)
      returns (ok: bool, off: nat, length: nat, obfuscated: bool, version: nat, replies: seq<seq<byte>>)
      requires length0 <= BUFFER_SIZE && s == Abs() && i < |s.conns| && i < |table.order| && table.order[i] == e && Valid()
      modifies path.Repr()
      ensures Valid() && Abs() == s && fresh(path.Repr() - old(path.Repr()))
      ensures Shown(ServerIngress(path.cfg, s.conns[i], old(path.full[PREBUFFER_SIZE..]), length0, s.target), path.full[..],
                    ok, off, length, obfuscated, version, s.conns[i].mask, replies)
    {
      hide Cache.Valid, HashTable.Valid, Entries, Socks, ServerIngress, Shown;
      ok, off, length, obfuscated, version, replies := path.FromServer(e.Entry(), length0, forward, allocOk);
      StaysSame();
    }

    /** A datagram on the socket of `e`. */
    method HandleServerPacket(e: Elem, pkt: seq<byte>, now: int, luck: Luck, decodeOk: bool, encodeOk: bool)
      returns (controls: seq<Send>, forwarded: Option<Send>)
      requires Valid() && ValidConfig(path.cfg) && path.full.Length == PREBUFFER_SIZE + BUFFER_SIZE
      requires e in table.order
      modifies Repr()
      ensures Valid() && fresh(Repr() - old(Repr()))
      ensures Outcome(Abs(), controls, forwarded)
           == ServerStep(path.cfg, old(Abs()), now, old(e.sock), Received(old(path.full[..]), pkt), |pkt|, luck)
    {
      hide Valid, Abs, Entries, Socks, FindSock, ServerIngress, ServerStep, Received, Forward;
      ghost var s, view, sock := Abs(), Received(path.full[..], pkt), e.sock;
      Separated();
      ghost var i := Position(e);
      ServerStepCases(path.cfg, s, now, sock, i, view, |pkt|, luck);
      controls, forwarded := [], None;
      var length0 := Receive(pkt, s);
      if length0 > BUFFER_SIZE {
        return;
      }
      var ok, off, length, obfuscated, version, replies := TakeFromServer(e, length0, decodeOk, i, s);
      if ok {
        Separated();
        controls, forwarded := Deliver(e, i, S2C, now, off, length, obfuscated, version, luck, encodeOk, path.full[off..off + length], s);
        Grown(e);
      } else {
        controls := ToServers(e.sock, replies);
      }
    }

    lemma Position(e: Elem) returns (i: nat)
      requires Valid() && e in table.order
      ensures i < |table.order| == |Abs().conns| && table.order[i] == e && FindSock(Abs().conns, e.sock) == Some(i)
    {
      hide Cache.Valid, HashTable.Valid;
      FindSockAgrees(table.order, e);
      i := FindSock(Entries(table.order), e.sock).value;
    }

    // ----- resolver results

    method Retarget(ip: Ip, refused: set<nat>, ghost s: State)
      requires s == Abs() && Valid()
      modifies `forward, SetOf(table.order)`peer
      ensures Valid() && forward == s.target.(ip := ip)
      ensures Abs() == s.(target := forward, conns := Reconnected(s.conns, forward, refused))
    {
      hide Cache.Valid, HashTable.Valid, Path.Valid, Entries, Socks, Reconnected;
      forward := forward.(ip := ip);
      Reconnect(table, forward, refused, s.conns);
      path.Undisturbed();
      StaysValid();
    }

    /** The address that a binding's host name has now. */
    method Rebind(e: Elem, ip: Ip, ghost i: nat, ghost s: State)
      requires s == Abs() && Valid() && i < |s.conns| && i < |table.order| && table.order[i] == e
      modifies table, table.buckets, e`addr, e`hashv
      modifies SetOf(table.order)`next, SetOf(table.order)`hhNext, SetOf(table.order)`prev, SetOf(table.order)`hhPrev
      ensures Valid() && (table.buckets == old(table.buckets) || fresh(table.buckets))
      ensures SetOf(table.order) == SetOf(old(table.order))
      ensures Abs() == Rebound(s, i, ip)
    {
      hide Ready, HashTable.Valid, Entries, Socks, FindAddr;
      if !e.isStatic {
        return;
      }
      if e.addr.ip == ip {
        return;
      }
      var addr := e.addr.(ip := ip);
      var collision := Search(addr, s);
      if collision != null {
        return;
      }
      Move(e, addr, i, s);
    }

    method Move(e: Elem, addr: Addr, ghost i: nat, ghost s: State)
      requires s == Abs() && Valid() && i < |s.conns| && i < |table.order| && table.order[i] == e
      requires forall x :: x in table.order ==> x.addr != addr
      modifies table, table.buckets, e`addr, e`hashv
      modifies SetOf(table.order)`next, SetOf(table.order)`hhNext, SetOf(table.order)`prev, SetOf(table.order)`hhPrev
      ensures Valid() && (table.buckets == old(table.buckets) || fresh(table.buckets))
      ensures SetOf(table.order) == SetOf(old(table.order))
      ensures Abs() == s.(conns := Rekeyed(s.conns, i, addr))
    {
      hide Ready, HashTable.Valid, Entries, Socks, Without, Rekeyed, Distinct;
      Parts();
      OrderDistinct(table);
      ghost var k := Rekey(e, addr, s.conns);
      DistinctAt(old(table.order), i, k);
    }

    method ApplyResolveResult(r: ResolveResult, refused: set<nat>)
      requires Valid()
      modifies Repr()
      ensures Valid() && fresh(Repr() - old(Repr()))
      ensures Abs() == ResolveStep(old(Abs()), r, refused)
    {
      hide Ready, Entries, Socks, FindAddr, FindSock;
      ghost var s := Abs();
      if r.err != 0 {
        return;
      }
      if r.tag == RESOLVE_TAG_TARGET {
        if forward.ip == r.ip {
          return;
        }
        Retarget(r.ip, refused, s);
        return;
      }
      if r.tag < 0 || r.tag >= |bindings| {
        return;
      }
      var e := bindings[r.tag];
      ghost var i := Position(e);
      Rebind(e, r.ip, i, s);
    }

    /** Reads every queued result. */
    method DrainResolveResults(queue: seq<Resolution>)
      requires Valid()
      modifies Repr()
      ensures Valid() && fresh(Repr() - old(Repr()))
      ensures Abs() == Drained(old(Abs()), queue)
    {
      hide Valid, Abs, ResolveStep;
      var n := 0;
      while n < |queue|
        invariant 0 <= n <= |queue|
        invariant Valid() && fresh(Repr() - old(Repr()))
        invariant Drained(Abs(), queue[n..]) == Drained(old(Abs()), queue)
      {
        assert queue[n..][1..] == queue[n + 1..];
        ApplyResolveResult(queue[n].result, queue[n].refused);
        n := n + 1;
      }
    }

    // ----- the cleanup pass

    /** One entry of the cleanup pass: removed, or its mask's timer looked at. */
    method SweepOne(e: Elem, now: int, ids: nat -> Txid, ghost j: nat, ghost w: seq<Conn>)
      returns (sends: seq<Send>)
      requires j < |w| && w == Entries(table.order) && table.order[j] == e && Valid()
      modifies table, table.buckets, e`lastTimer
      modifies SetOf(table.order)`next, SetOf(table.order)`hhNext, SetOf(table.order)`prev, SetOf(table.order)`hhPrev
      ensures Valid() && table.buckets == old(table.buckets)
      ensures table.order == if Expired(path.cfg, w[j], now) then Without(old(table.order), j) else old(table.order)
      ensures Entries(table.order) == if Expired(path.cfg, w[j], now) then Without(w, j) else w[j := Ticked(w[j], now)]
      ensures sends == if Expired(path.cfg, w[j], now) then [] else TimerSends(w[j], now, ids(w[j].sock))
    {
      hide Ready, Entries, Socks, Without, Distinct, HashTable.Valid;
      Parts();
      OrderDistinct(table);
      var c := e.Entry();
      if Expired(path.cfg, c, now) {
        ghost var k := Remove(e, w);
        DistinctAt(old(table.order), j, k);
        return [];
      }
      sends := TimerSends(c, now, ids(c.sock));
      if TimerDue(c, now) {
        Wind(e, now, j, w);
      }
    }

    method Wind(e: Elem, now: int, ghost j: nat, ghost w: seq<Conn>)
      requires j < |w| && w == Entries(table.order) && table.order[j] == e && Valid() && TimerDue(w[j], now)
      modifies e`lastTimer
      ensures Valid() && Entries(table.order) == w[j := Ticked(w[j], now)]
    {
      hide Cache.Valid, HashTable.Valid, Path.Valid, Entries, Socks;
      OrderDistinct(table);
      e.lastTimer := now;
      path.Undisturbed();
      StaysValid();
      EntriesUpdate(table.order, j, w);
    }

    /** The first `i` entries of the list as it was have been looked at, and `kept` are left of them. */
    ghost predicate Sweeping(kept: seq<Elem>, orig: seq<Elem>, i: nat, w0: seq<Conn>, now: int, ids: nat -> Txid, sends: seq<Send>)
      reads table, SetOf(table.order)
    {
      && i <= |orig| == |w0| && table.order == kept + orig[i..] && Within(kept, orig)
      && |kept| == |Swept(path.cfg, w0[..i], now)|
      && Entries(table.order) == Swept(path.cfg, w0[..i], now) + w0[i..]
      && sends == SweepSends(path.cfg, w0[..i], now, ids)
    }

    method SweepNext(e: Elem, now: int, ids: nat -> Txid, sends0: seq<Send>,
                     ghost kept: seq<Elem>, ghost orig: seq<Elem>, ghost i: nat, ghost w0: seq<Conn>)
      returns (tmp: Elem?, sends: seq<Send>, ghost kept': seq<Elem>)
      requires i < |orig| && orig[i] == e && Sweeping(kept, orig, i, w0, now, ids, sends0) && Valid()
      modifies table, table.buckets, SetOf(orig)`lastTimer
      modifies SetOf(orig)`next, SetOf(orig)`hhNext, SetOf(orig)`prev, SetOf(orig)`hhPrev
      ensures Valid() && table.buckets == old(table.buckets)
      ensures Sweeping(kept', orig, i + 1, w0, now, ids, sends)
      ensures tmp == if i + 1 < |orig| then orig[i + 1] else null
    {
      hide Valid, Entries, Swept, SweepSends, SetOf, Without, Expired, Ticked, TimerSends;
      StillWithin(kept, orig, i);
      ghost var w := Entries(table.order);
      NextOf(|kept|);
      tmp := e.next;
      var more := SweepOne(e, now, ids, |kept|, w);
      SweepAdvance(path.cfg, w0, now, ids, i, w);
      OrderAdvance(kept, orig, i);
      sends := sends0 + more;
      kept' := if Expired(path.cfg, w[|kept|], now) then kept else kept + [orig[i]];
    }

    /** Goes over the list as it was, though it shrinks underneath. */
    method Sweep(now: int, ids: nat -> Txid, ghost w0: seq<Conn>) returns (sends: seq<Send>)
      requires w0 == Entries(table.order) && Valid()
      modifies table, table.buckets, SetOf(table.order)`lastTimer
      modifies SetOf(table.order)`next, SetOf(table.order)`hhNext, SetOf(table.order)`prev, SetOf(table.order)`hhPrev
      ensures Valid() && table.buckets == old(table.buckets) && SetOf(table.order) <= SetOf(old(table.order))
      ensures Entries(table.order) == Swept(path.cfg, w0, now) && sends == SweepSends(path.cfg, w0, now, ids)
    {
      hide Valid, Sweeping, Entries, Swept, SweepSends, SetOf;
      ghost var orig, i := table.order, 0;
      ghost var kept: seq<Elem> := [];
      SweepStarts(w0, now, ids);
      var e := table.head;
      sends := [];
      while e != null
        invariant 0 <= i <= |orig| && e == (if i < |orig| then orig[i] else null)
        invariant Valid() && table.buckets == old(table.buckets)
        invariant Sweeping(kept, orig, i, w0, now, ids, sends)
        decreases |orig| - i
      {
        e, sends, kept := SweepNext(e, now, ids, sends, kept, orig, i, w0);
        i := i + 1;
      }
      SweepEnds(kept, orig, w0, now, ids, sends);
    }

    lemma SweepEnds(kept: seq<Elem>, orig: seq<Elem>, w0: seq<Conn>, now: int, ids: nat -> Txid, sends: seq<Send>)
      requires Sweeping(kept, orig, |orig|, w0, now, ids, sends)
      ensures SetOf(table.order) <= SetOf(orig)
      ensures Entries(table.order) == Swept(path.cfg, w0, now) && sends == SweepSends(path.cfg, w0, now, ids)
    {
      hide Entries, Swept, SweepSends;
      assert w0[..|orig|] == w0 && w0[|orig|..] == [] && orig[|orig|..] == [];
      StillWithin(kept, orig, |orig|);
    }

    lemma SweepStarts(w0: seq<Conn>, now: int, ids: nat -> Txid)
      requires w0 == Entries(table.order) && Valid()
      ensures table.head == First(table.order) && Sweeping([], table.order, 0, w0, now, ids, [])
    {
      hide Ready, HashTable.Valid, Entries;
      Parts();
      ListOf(table);
    }

    lemma NextOf(j: nat)
      requires Valid() && j < |table.order|
      ensures table.order[j].next == if j + 1 < |table.order| then table.order[j + 1] else null
    {
    }

    /** The time of the last pass. */
    method Stamp(now: int)
      requires Valid()
      modifies `lastCleanup
      ensures Valid() && Abs() == old(Abs()).(lastCleanup := now)
    {
      hide Cache.Valid, HashTable.Valid, Path.Valid, Entries, Socks;
      lastCleanup := now;
      path.Undisturbed();
      StaysValid();
    }

    method Cleanup(now: int, ids: nat -> Txid) returns (sends: seq<Send>)
      requires Valid()
      modifies Repr()
      ensures Valid() && fresh(Repr() - old(Repr()))
      ensures Outcome(Abs(), sends, None) == CleanupStep(path.cfg, old(Abs()), now, ids)
    {
      hide Valid, Entries, Socks, Swept, SweepSends;
      sends := [];
      if now - lastCleanup >= ITERATE_INTERVAL {
        Separated();
        sends := Sweep(now, ids, Entries(table.order));
        Shrunk();
        Separated();
        Stamp(now);
      }
    }

    twostate lemma Shrunk()
      requires table.buckets == old(table.buckets) && SetOf(table.order) <= SetOf(old(table.order))
      requires path.Repr() == old(path.Repr())
      ensures Repr() <= old(Repr())
    {
    }

    // ----- start-up

    method NewClientEntryStatic(b: Binding, ghost s: State) returns (e: Elem?)
      requires FindSock(s.conns, b.sock).None? && s == Abs() && Valid()
      modifies table, table.buckets
      modifies SetOf(table.order)`next, SetOf(table.order)`hhNext, SetOf(table.order)`prev, SetOf(table.order)`hhPrev
      ensures Valid() && (table.buckets == old(table.buckets) || fresh(table.buckets))
      ensures e != null ==> fresh(e)
      ensures table.order == if e == null then old(table.order) else old(table.order) + [e]
      ensures match NewStatic(path.cfg, s, b)
        case None => e == null && Abs() == s
        case Some(t) => e != null && Abs() == t
    {
      hide Valid, Entries, Socks, FindSock, FindAddr, HashTable.Valid;
      Usable();
      if table.Count() >= path.cfg.maxClients {
        return null;
      }
      e := Search(b.addr, s);
      if e != null {
        return null;
      }
      SockUnused(table.order, b.sock);
      e := NewStaticElem(path.cfg, b, forward);
      Join(e, s);
    }

    /** Static entries with a host name, in insertion order. */
    method CollectBindings(ghost s: State) returns (found: seq<Elem>)
      requires s == Abs() && Valid()
      ensures Valid() && Abs() == s && Socks(found) == NamedSocks(s.conns)
      ensures forall b :: b in found ==> b in table.order && b.isStatic
    {
      hide Ready, HashTable.Valid, Entries, NamedSocks, Elem.Entry;
      Parts();
      ListOf(table);
      NamedStarts(s.conns);
      ghost var i := 0;
      found := [];
      var e := table.head;
      while e != null
        invariant 0 <= i <= |table.order| == |s.conns| && e == (if i < |table.order| then table.order[i] else null)
        invariant Socks(found) == NamedSocks(s.conns[..i])
        invariant forall b :: b in found ==> b in table.order && b.isStatic
        decreases |table.order| - i
      {
        var tmp := e.next;
        NamedNext(s.conns, i);
        FieldsOf(table.order, i);
        if e.isStatic && e.named {
          found := found + [e];
        }
        e, i := tmp, i + 1;
      }
      assert s.conns[..i] == s.conns;
    }

    method SetBindings(found: seq<Elem>, ghost s: State)
      requires s == Abs() && Valid() && Socks(found) == NamedSocks(s.conns)
      requires forall b :: b in found ==> b in table.order && b.isStatic
      modifies `bindings
      ensures Valid() && Abs() == s.(bindings := NamedSocks(s.conns))
    {
      hide Cache.Valid, HashTable.Valid, Path.Valid, Entries, Socks, NamedSocks;
      bindings := found;
      path.Undisturbed();
    }

    /** The static bindings of the configuration; the program ends at the first that cannot be made. */
    method Start(bs: seq<Binding>) returns (ok: bool)
      requires Valid() && Abs() == State([], forward, 0, [])
      requires forall i, j :: 0 <= i < j < |bs| ==> bs[i].sock != bs[j].sock
      modifies Repr()
      ensures Valid() && fresh(Repr() - old(Repr()))
      ensures ok == Boot(path.cfg, old(forward), bs).Some?
      ensures ok ==> Abs() == Boot(path.cfg, old(forward), bs).value
    {
      hide Valid, Abs, BootConns, NamedSocks;
      if path.cfg.allowClean && bs != [] {
        return false;
      }
      ghost var target := forward;
      var n := 0;
      BootStarts(path.cfg, target, bs);
      while n < |bs|
        invariant 0 <= n <= |bs|
        invariant Valid() && fresh(Repr() - old(Repr()))
        invariant BootConns(path.cfg, target, bs[..n]) == Some(Abs())
      {
        BootNext(path.cfg, target, bs, n);
        Separated();
        label Before:
        var e := NewClientEntryStatic(bs[n], Abs());
        if e == null {
          return false;
        }
        Grown@Before(e);
        n := n + 1;
      }
      assert bs[..n] == bs;
      ghost var s := Abs();
      var found := CollectBindings(s);
      SetBindings(found, s);
      ok := true;
    }

    // ----- the main loop

    /** The entry of a readable socket. */
    method FindByServerSock(fd: nat, ghost s: State) returns (e: Elem?)
      requires s == Abs() && Valid()
      ensures Valid() && Abs() == s
      ensures e != null ==> e in table.order && e.sock == fd
      ensures e == null ==> Lacks(s.conns, fd)
    {
      hide Ready, HashTable.Valid, Entries, Elem.Entry;
      Parts();
      ListOf(table);
      SockOf(table.order);
      ghost var i := 0;
      e := table.head;
      while e != null
        invariant 0 <= i <= |table.order| == |s.conns| && e == (if i < |table.order| then table.order[i] else null)
        invariant forall j :: 0 <= j < i ==> s.conns[j].sock != fd
        decreases |table.order| - i
      {
        if e.sock == fd {
          return;
        }
        e, i := e.next, i + 1;
      }
    }

    method Handle(a: Arrival, now: int, ghost s: State)
      returns (controls: seq<Send>, forwarded: Option<Send>, ghost view: seq<byte>)
      requires s == Abs() && Valid() && ValidConfig(path.cfg) && path.full.Length == PREBUFFER_SIZE + BUFFER_SIZE
      requires forall k :: a.Opens(k) ==> Lacks(s.conns, k)
      requires a.FromSocket? ==> !Lacks(s.conns, a.fd)
      modifies Repr()
      ensures Valid() && fresh(Repr() - old(Repr()))
      ensures a.SeenIn(view) && Outcome(Abs(), controls, forwarded) == Reaction(path.cfg, s, now, a, view)
    {
      hide Valid, Abs, ClientStep, ServerStep, FindSock, Received;
      controls, forwarded := [], None;
      match a {
        case FromListen(pkt, sender, luck, decodeOk, encodeOk) =>
          if luck.sock.Some? { LacksNone(s.conns, luck.sock.value); }
          view := Received(path.full[..], pkt);
          controls, forwarded := HandleClientPacket(pkt, sender, now, luck, decodeOk, encodeOk);
        case FromSocket(fd, pkt, luck, decodeOk, encodeOk) =>
          view := Received(path.full[..], pkt);
          var e := FindByServerSock(fd, s);
          controls, forwarded := HandleServerPacket(e, pkt, now, luck, decodeOk, encodeOk);
        case FromResolver(queue) =>
          view := path.full[PREBUFFER_SIZE..];
          DrainResolveResults(queue);
      }
    }

    /** One iteration of the main loop: everything that arrived, then the cleanup, all at the same time. */
    method Iterate(batch: seq<Arrival>, now: int, ids: nat -> Txid) returns (sent: seq<Send>, ghost views: seq<seq<byte>>)
      requires Valid() && ValidConfig(path.cfg) && path.full.Length == PREBUFFER_SIZE + BUFFER_SIZE
      requires NewSockets(Abs().conns, batch) && Polled(Abs().conns, batch)
      modifies Repr()
      ensures Valid() && fresh(Repr() - old(Repr()))
      ensures Views(batch, views)
      ensures (Abs(), sent) == Iteration(path.cfg, old(Abs()), now, batch, views, ids)
    {
      hide Valid, Abs, Batch, Reaction, CleanupStep, Lacks, Views, NewSockets, Polled;
      BatchEmpty(path.cfg, Abs(), now, batch);
      ghost var s := Abs();
      var n := 0;
      views, sent := [], [];
      while n < |batch|
        invariant 0 <= n <= |batch| && Views(batch[..n], views)
        invariant Valid() && fresh(Repr() - old(Repr()))
        invariant (Abs(), sent) == Batch(path.cfg, s, now, batch[..n], views)
        invariant NewSockets(Abs().conns, batch[n..]) && Polled(Abs().conns, batch[n..])
      {
        ghost var t := Abs();
        NextSocket(t.conns, batch, n);
        var controls, forwarded;
        ghost var view;
        controls, forwarded, view := Handle(batch[n], now, t);
        BatchNext(path.cfg, s, now, batch, n, views, view);
        SocketsKept(path.cfg, t, now, batch, n, view);
        sent := sent + OnWire(controls, forwarded);
        views := views + [view];
        n := n + 1;
      }
      assert batch[..n] == batch;
      var controls := Cleanup(now, ids);
      sent := sent + controls;
    }
  }
}
