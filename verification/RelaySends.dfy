/** What the relay sends for an entry, in every step of every run: bare, masked, or nothing at all. */
module RelaySends {
  import opened Bytes
  import opened Net
  import opened Keystream
  import opened Codec
  import opened Stun
  import opened Masking
  import opened RelaySpec
  import opened RelayCases
  import opened RelayInvariants
  import opened RelayTheorems

  // ----- a packet is sent on as the entry stands after the step

  lemma OutgoingSame(cfg: Config, c: Conn, d: Conn, packet: seq<byte>, obfuscated: bool, luck: Luck)
    requires ValidConfig(cfg) && 4 <= |packet| <= BUFFER_SIZE && d.version == c.version && d.mask == c.mask && d.clean == c.clean
    ensures Outgoing(cfg, d, packet, obfuscated, luck) == Outgoing(cfg, c, packet, obfuscated, luck)
  {
  }

  /** The entry a packet came to, as it is afterwards. */
  lemma PassedShape(cfg: Config, a: Carried, now: int)
    requires ValidConfig(cfg) && a.Valid()
    ensures var (d, controls, forwarded) := Passed(cfg, a.Entry(), a.from, now, a.packet, a.obfuscated, a.version, a.luck);
      && d.sock == a.Entry().sock && d.addr == a.Entry().addr
      && (a.Passes(cfg, now) ==> d.version <= a.version)
      && controls == (if a.Passes(cfg, now) then Directed(d, a.from, Probes(d, a.packet, a.obfuscated, a.luck)) else [])
      && (forwarded.Some? <==> a.Passes(cfg, now) && a.luck.sent)
      && (forwarded.Some? ==> forwarded.value == SendOn(d, a.from, Outgoing(cfg, d, a.packet, a.obfuscated, a.luck)))
  {
    hide Outgoing, WgType, HandshakeProbe, ToClients, ToServers, Accept, Touched;
    var r := Accept(cfg, a.Entry(), now, WgType(a.packet), a.obfuscated, a.version, a.from);
    AcceptSame(cfg, a.Entry(), now, WgType(a.packet), a.obfuscated, a.version, a.from);
    if r.Some? {
      TouchedSame(r.value, now, a.luck.sent, a.from);
      OutgoingSame(cfg, r.value, Touched(r.value, now, a.luck.sent, a.from), a.packet, a.obfuscated, a.luck);
    }
  }

  lemma CarriedUnique(cfg: Config, s: State, now: int, e: Event)
    requires ValidConfig(cfg) && ValidEvent(s, e) && Unique(s.conns) && Carries(cfg, s, now, e).Some?
    ensures Unique(Carries(cfg, s, now, e).value.t.conns)
  {
    hide ClientIngress, ServerIngress, WgType;
    var a := Carries(cfg, s, now, e).value;
    if |a.t.conns| > |s.conns| {
      assert a.t.conns[..|s.conns|] == s.conns;
    }
  }

  lemma UpdateFound(conns: seq<Conn>, i: nat, d: Conn)
    requires Unique(conns) && i < |conns| && d.sock == conns[i].sock && d.addr == conns[i].addr
    ensures Unique(conns[i := d]) && FindSock(conns[i := d], d.sock) == Some(i)
  {
    AtSock(conns[i := d], d.sock, i);
  }

  /** What a step forwards is encoded, and addressed, for the entry as it is after the step. */
  lemma SentAsEntryStands(cfg: Config, s: State, now: int, e: Event)
    requires ValidConfig(cfg) && ValidEvent(s, e) && Unique(s.conns) && Carries(cfg, s, now, e).Some?
    ensures var a, out := Carries(cfg, s, now, e).value, Step(cfg, s, now, e);
      var k := a.Entry().sock;
      && FindSock(out.state.conns, k).Some?
      && var d := EntryOf(out.state, k);
      && d.addr == a.Entry().addr
      && (a.Passes(cfg, now) ==> d.version <= a.version)
      && out.controls == (if a.Passes(cfg, now) then Directed(d, a.from, Probes(d, a.packet, a.obfuscated, a.luck)) else [])
      && (out.forwarded.Some? <==> a.Passes(cfg, now) && a.luck.sent)
      && (out.forwarded.Some? ==> out.forwarded.value == SendOn(d, a.from, Outgoing(cfg, d, a.packet, a.obfuscated, a.luck)))
  {
    hide Carries, Passed, Unique, Step, Outgoing, Probes, FindSock, Directed, SendOn;
    var a := Carries(cfg, s, now, e).value;
    StepCases(cfg, s, now, e);
    PassedShape(cfg, a, now);
    CarriedUnique(cfg, s, now, e);
    var (d, _, _) := Passed(cfg, a.Entry(), a.from, now, a.packet, a.obfuscated, a.version, a.luck);
    UpdateFound(a.t.conns, a.i, d);
  }

  // ----- along a run

  /** At step `n` a packet comes to the entry on socket `k`. */
  ghost predicate ComesTo(cfg: Config, ts: seq<Traced>, ms: seq<Moment>, n: nat, k: nat)
    requires ValidConfig(cfg) && IsRun(cfg, ts, ms) && n < |ms|
  {
    var r := Carries(cfg, ts[n].s, ms[n].now, ms[n].event);
    r.Some? && r.value.Entry().sock == k
  }

  ghost function Comer(cfg: Config, ts: seq<Traced>, ms: seq<Moment>, n: nat, k: nat): (a: Carried)
    requires ValidConfig(cfg) && IsRun(cfg, ts, ms) && n < |ms| && ComesTo(cfg, ts, ms, n, k)
    ensures a.Valid()
  {
    Carries(cfg, ts[n].s, ms[n].now, ms[n].event).value
  }

  /** What step `n` forwards. */
  ghost function SentAt(cfg: Config, ts: seq<Traced>, ms: seq<Moment>, n: nat): Option<Send>
    requires ValidConfig(cfg) && IsRun(cfg, ts, ms) && n < |ms|
  {
    Step(cfg, ts[n].s, ms[n].now, ms[n].event).forwarded
  }

  lemma SentInRun(cfg: Config, ts: seq<Traced>, ms: seq<Moment>, n: nat, k: nat)
    requires ValidConfig(cfg) && IsRun(cfg, ts, ms) && n < |ms| && ComesTo(cfg, ts, ms, n, k)
    ensures FindSock(ts[n + 1].s.conns, k).Some?
    ensures var a, d, sent := Comer(cfg, ts, ms, n, k), EntryOf(ts[n + 1].s, k), SentAt(cfg, ts, ms, n);
      && (a.Passes(cfg, ms[n].now) ==> d.version <= a.version)
      && (sent.Some? <==> a.Passes(cfg, ms[n].now) && a.luck.sent)
      && (sent.Some? ==> sent.value == SendOn(d, a.from, Outgoing(cfg, d, a.packet, a.obfuscated, a.luck)))
  {
    hide Inv, Carries, Step, NextLogs, Started, Outgoing, SendOn, FindSock, EntryOf;
    Always(cfg, ts, ms, n);
    InvUnique(cfg, ts[n], TimeAt(ms, n));
    SentAsEntryStands(cfg, ts[n].s, ms[n].now, ms[n].event);
  }

  lemma InvUnique(cfg: Config, t: Traced, now: int)
    requires Inv(cfg, t, now)
    ensures Unique(t.s.conns) && forall i :: 0 <= i < |t.s.conns| ==> FlagsOk(cfg, t.s.conns[i])
  {
    hide FlagsOk;
  }

  /** A version-0 packet passes the gate of the entry on socket `k` at step `n`. */
  ghost predicate PassesAtZero(cfg: Config, ts: seq<Traced>, ms: seq<Moment>, n: nat, k: nat)
    requires ValidConfig(cfg) && IsRun(cfg, ts, ms) && n < |ms|
  {
    ComesTo(cfg, ts, ms, n, k) && Comer(cfg, ts, ms, n, k).Passes(cfg, ms[n].now) && Comer(cfg, ts, ms, n, k).version == 0
  }

  lemma VersionZeroStays(cfg: Config, ts: seq<Traced>, ms: seq<Moment>, a: nat, n: nat, k: nat)
    requires ValidConfig(cfg) && IsRun(cfg, ts, ms) && a <= n < |ms|
    requires PassesAtZero(cfg, ts, ms, a, k) && LivesThrough(ts, a + 1, n + 1, k)
    ensures EntryOf(ts[n + 1].s, k).version == 0
  {
    hide IsRun, Carries, Step, EntryOf, FindSock;
    SentInRun(cfg, ts, ms, a, k);
    RunEvolves(cfg, ts, ms, a + 1, n + 1, k);
  }

  /**
   * Once a version-0 packet has passed the gates of an entry, every plain packet that is sent on for it afterwards, in
   * either direction, leaves as the bare keystream XOR under the entry's mask, for as long as the client is not clean.
   */
  lemma BareForever(cfg: Config, ts: seq<Traced>, ms: seq<Moment>, a: nat, n: nat, k: nat)
    requires ValidConfig(cfg) && IsRun(cfg, ts, ms) && a <= n < |ms|
    requires PassesAtZero(cfg, ts, ms, a, k) && LivesThrough(ts, a + 1, n + 1, k)
    requires ComesTo(cfg, ts, ms, n, k) && SentAt(cfg, ts, ms, n).Some?
    requires !Comer(cfg, ts, ms, n, k).obfuscated && !EntryOf(ts[n + 1].s, k).clean
    ensures var p, c := Comer(cfg, ts, ms, n, k), EntryOf(ts[n + 1].s, k);
      SentAt(cfg, ts, ms, n) == Some(SendOn(c, p.from, WrapData(c.mask, XorStream(cfg.key, p.packet), p.luck.wrapId)))
  {
    hide IsRun, Carries, Step, EntryOf, FindSock, XorStream, WrapData, SendOn;
    VersionZeroStays(cfg, ts, ms, a, n, k);
    SentInRun(cfg, ts, ms, n, k);
    var p := Comer(cfg, ts, ms, n, k);
    BareAtVersionZero(cfg, EntryOf(ts[n + 1].s, k), p.packet, p.luck);
  }

  // ----- the mask of an entry, for its life

  ghost predicate NeverClean(ts: seq<Traced>, a: nat, b: nat, k: nat)
    requires LivesThrough(ts, a, b, k)
  {
    forall n :: a < n <= b ==> !EntryOf(ts[n].s, k).clean
  }

  /** Every plain packet that is sent on for an entry leaves encoded, in the mask the entry once had. */
  lemma MaskedForever(cfg: Config, ts: seq<Traced>, ms: seq<Moment>, a: nat, n: nat, k: nat)
    requires ValidConfig(cfg) && IsRun(cfg, ts, ms) && a <= n < |ms|
    requires LivesThrough(ts, a, n + 1, k) && NeverClean(ts, a, n + 1, k)
    requires ComesTo(cfg, ts, ms, n, k) && SentAt(cfg, ts, ms, n).Some? && !Comer(cfg, ts, ms, n, k).obfuscated
    ensures var p, c := Comer(cfg, ts, ms, n, k), EntryOf(ts[n + 1].s, k);
      var e := Encode(cfg.key, p.packet, c.version, cfg.maxDummyData, p.luck.dice);
      && |e| <= BUFFER_SIZE
      && SentAt(cfg, ts, ms, n) == Some(SendOn(c, p.from, WrapData(EntryOf(ts[a].s, k).mask, e, p.luck.wrapId)))
  {
    hide IsRun, Carries, Step, EntryOf, FindSock, Encode, WrapData, SendOn;
    MaskStays(cfg, ts, ms, a, n + 1, k);
    SentInRun(cfg, ts, ms, n, k);
    var p, c := Comer(cfg, ts, ms, n, k), EntryOf(ts[n + 1].s, k);
    EncodedLength(cfg.key, p.packet, c.version, cfg.maxDummyData, p.luck.dice);
  }

  /** Step `a` makes an entry, in AUTO mode, from a handshake that STUN unwraps. */
  ghost predicate BornInStun(cfg: Config, ts: seq<Traced>, ms: seq<Moment>, a: nat)
    requires ValidConfig(cfg) && IsRun(cfg, ts, ms) && a < |ms|
  {
    && ms[a].event.FromClient? && !cfg.maskSet && FindAddr(ts[a].s.conns, ms[a].event.sender).None?
    && 4 <= ms[a].event.len <= BUFFER_SIZE && IsObfuscated(ms[a].event.view[..ms[a].event.len])
    && OnDataUnwrap(ms[a].event.view, ms[a].event.len, ms[a].event.sender).Payload?
    && |ts[a + 1].s.conns| > |ts[a].s.conns|
  }

  lemma BornMask(cfg: Config, ts: seq<Traced>, ms: seq<Moment>, a: nat)
    requires ValidConfig(cfg) && IsRun(cfg, ts, ms) && a < |ms| && BornInStun(cfg, ts, ms, a)
    ensures var k := ms[a].event.luck.sock;
      && k.Some? && FindSock(ts[a + 1].s.conns, k.value).Some?
      && EntryOf(ts[a + 1].s, k.value).mask == StunMask && EntryOf(ts[a + 1].s, k.value).addr == ms[a].event.sender
  {
    hide Inv, ClientStep, OnDataUnwrap, IsObfuscated, NextLogs, Started;
    var e := ms[a].event;
    assert ts[a + 1].s == ClientStep(cfg, ts[a].s, ms[a].now, e.sender, e.view, e.len, e.luck).state;
    AutoMaskAtCreation(cfg, ts[a].s, ms[a].now, e.sender, e.view, e.len, e.luck);
    Always(cfg, ts, ms, a + 1);
    InvUnique(cfg, ts[a + 1], TimeAt(ms, a + 1));
    AtSock(ts[a + 1].s.conns, e.luck.sock.value, |ts[a].s.conns|);
  }

  /** Every encoded packet that is sent on for an entry born in STUN leaves wrapped, unless its client becomes clean. */
  lemma StunSentForLife(cfg: Config, ts: seq<Traced>, ms: seq<Moment>, a: nat, n: nat, k: nat)
    requires ValidConfig(cfg) && IsRun(cfg, ts, ms) && a < n < |ms|
    requires BornInStun(cfg, ts, ms, a) && ms[a].event.luck.sock == Some(k)
    requires LivesThrough(ts, a + 1, n + 1, k) && NeverClean(ts, a + 1, n + 1, k)
    requires ComesTo(cfg, ts, ms, n, k) && SentAt(cfg, ts, ms, n).Some? && !Comer(cfg, ts, ms, n, k).obfuscated
    ensures var p, c := Comer(cfg, ts, ms, n, k), EntryOf(ts[n + 1].s, k);
      var e := Encode(cfg.key, p.packet, c.version, cfg.maxDummyData, p.luck.dice);
      |e| <= BUFFER_SIZE && SentAt(cfg, ts, ms, n) == Some(SendOn(c, p.from, Wrap(e, p.luck.wrapId)))
  {
    hide IsRun, Carries, Step, EntryOf, FindSock, Encode, SendOn, BornInStun;
    BornMask(cfg, ts, ms, a);
    MaskedForever(cfg, ts, ms, a + 1, n, k);
  }

  /** And every obfuscated packet that arrives for it, from either side, is what STUN unwraps, or is dropped. */
  lemma StunReceivedForLife(cfg: Config, ts: seq<Traced>, ms: seq<Moment>, a: nat, n: nat, k: nat)
    requires ValidConfig(cfg) && IsRun(cfg, ts, ms) && a < n < |ms|
    requires BornInStun(cfg, ts, ms, a) && ms[a].event.luck.sock == Some(k)
    requires LivesThrough(ts, a + 1, n, k) && NeverClean(ts, a + 1, n, k)
    ensures var c := EntryOf(ts[n].s, k);
      match ms[n].event
      case FromClient(sender, view, len, _) =>
        sender == c.addr && 4 <= len <= BUFFER_SIZE && IsObfuscated(view[..len]) ==>
          ClientIngress(cfg, Lookup(ts[n].s.conns, sender), view, len, sender) == Open(cfg, OnDataUnwrap(view, len, sender), cfg.mask, c.version)
      case FromServer(sock, view, len, _) =>
        sock == k && 4 <= len <= BUFFER_SIZE && IsObfuscated(view[..len]) ==>
          ServerIngress(cfg, c, view, len, ts[n].s.target) == Open(cfg, OnDataUnwrap(view, len, ts[n].s.target), StunMask, c.version)
      case _ => true
  {
    hide IsRun, Inv, OnDataUnwrap, IsObfuscated, Open, BornInStun, FindAddrFrom;
    BornMask(cfg, ts, ms, a);
    MaskStays(cfg, ts, ms, a + 1, n, k);
    Always(cfg, ts, ms, n);
    InvUnique(cfg, ts[n], TimeAt(ms, n));
  }

  // ----- nothing but plain packets for a clean entry

  ghost predicate Reaches(x: Send, c: Conn) {
    match x
    case ToClient(to, _) => to == c.addr
    case ToServer(k, _) => k == c.sock
  }

  ghost predicate NoneReach(xs: seq<Send>, c: Conn) { forall x :: x in xs ==> !Reaches(x, c) }

  lemma NoMaskNoReplies(cfg: Config, c: Conn, view: seq<byte>, len: nat, src: Addr)
    requires ValidConfig(cfg) && len <= |view| == BUFFER_SIZE && c.mask == NoMask
    ensures var g := ClientIngress(cfg, Some(c), view, len, src); g.Dropped? ==> g.replies == []
    ensures var g := ServerIngress(cfg, c, view, len, src); g.Dropped? ==> g.replies == []
  {
    hide Decode, IsObfuscated;
  }

  lemma NoProbeWhenClean(cfg: Config, a: Carried, now: int)
    requires ValidConfig(cfg) && a.Valid() && FlagsOk(cfg, a.Entry()) && a.Entry().clean
    ensures var (_, controls, _) := Passed(cfg, a.Entry(), a.from, now, a.packet, a.obfuscated, a.version, a.luck); controls == []
  {
    hide Outgoing, WgType;
    var r := Accept(cfg, a.Entry(), now, WgType(a.packet), a.obfuscated, a.version, a.from);
    NoMaskStays(cfg, a.Entry(), now, WgType(a.packet), a.obfuscated, a.version, a.from);
    hide Accept;
    assert r.Some? ==> Probes(r.value, a.packet, a.obfuscated, a.luck) == [];
  }

  lemma NoMaskStays(cfg: Config, c: Conn, now: int, kind: nat, obfuscated: bool, version: nat, from: Dir)
    requires c.mask == NoMask
    ensures var r := Accept(cfg, c, now, kind, obfuscated, version, from); r.Some? ==> r.value.mask == NoMask
  {
    hide RequestFromClient, ClientGate, ServerGate;
    ClientGateNoMask(cfg, c, now, kind, obfuscated);
    ServerGateNoMask(c, now, kind, obfuscated);
  }

  lemma ClientGateNoMask(cfg: Config, c: Conn, now: int, kind: nat, obfuscated: bool)
    requires c.mask == NoMask
    ensures var r := ClientGate(cfg, c, now, kind, obfuscated); r.Some? ==> r.value.mask == NoMask
  {
    hide RequestFromClient;
    RequestNoMask(cfg, c, now, obfuscated);
  }

  lemma ServerGateNoMask(c: Conn, now: int, kind: nat, obfuscated: bool)
    requires c.mask == NoMask
    ensures var r := ServerGate(c, now, kind, obfuscated); r.Some? ==> r.value.mask == NoMask
  {
  }

  lemma RequestNoMask(cfg: Config, c: Conn, now: int, obfuscated: bool)
    requires c.mask == NoMask
    ensures RequestFromClient(cfg, c, now, obfuscated).mask == NoMask
  {
  }

  lemma DirectedReach(d: Conn, from: Dir, messages: seq<seq<byte>>, c: Conn)
    requires d.addr != c.addr && d.sock != c.sock
    ensures NoneReach(Directed(d, from, messages), c)
  {
  }

  lemma RepliesReach(a: Addr, k: nat, messages: seq<seq<byte>>, c: Conn)
    ensures a != c.addr || messages == [] ==> NoneReach(ToClients(a, messages), c)
    ensures k != c.sock || messages == [] ==> NoneReach(ToServers(k, messages), c)
  {
  }

  /** The messages ahead of a packet go to its own entry, and to no clean one. */
  lemma CarriedReaches(cfg: Config, s: State, now: int, e: Event, i: nat)
    requires ValidConfig(cfg) && ValidEvent(s, e) && Unique(s.conns) && Carries(cfg, s, now, e).Some?
    requires i < |s.conns| && s.conns[i].clean && FlagsOk(cfg, s.conns[i])
    ensures NoneReach(Step(cfg, s, now, e).controls, s.conns[i])
  {
    hide Step, Passed, Carries, Unique, FlagsOk, Directed, Probes, NoneReach;
    var a := Carries(cfg, s, now, e).value;
    StepCases(cfg, s, now, e);
    CarriedOf(cfg, s, now, e);
    if a.i == i {
      NoProbeWhenClean(cfg, a, now);
      NothingReaches(s.conns[i]);
    } else {
      PassedShape(cfg, a, now);
      CarriedUnique(cfg, s, now, e);
      UniqueAt(a.t.conns, a.i, i);
      var (d, _, _) := Passed(cfg, a.Entry(), a.from, now, a.packet, a.obfuscated, a.version, a.luck);
      DirectedReach(d, a.from, Probes(d, a.packet, a.obfuscated, a.luck), s.conns[i]);
      NothingReaches(s.conns[i]);
    }
  }

  lemma NothingReaches(c: Conn)
    ensures NoneReach([], c)
  {
  }

  lemma UniqueAt(conns: seq<Conn>, i: nat, j: nat)
    requires Unique(conns) && i < |conns| && j < |conns| && i != j
    ensures conns[i].addr != conns[j].addr && conns[i].sock != conns[j].sock
  {
  }

  /** The entries there were are still there. */
  lemma CarriedOf(cfg: Config, s: State, now: int, e: Event)
    requires ValidConfig(cfg) && ValidEvent(s, e) && Carries(cfg, s, now, e).Some?
    ensures var t := Carries(cfg, s, now, e).value.t; |s.conns| <= |t.conns| && forall j :: 0 <= j < |s.conns| ==> t.conns[j] == s.conns[j]
  {
    hide ClientIngress, ServerIngress, WgType;
  }

  /** What a dropped packet brings back goes to its sender, who is not a clean entry. */
  lemma DroppedReaches(cfg: Config, s: State, now: int, e: Event, i: nat)
    requires ValidConfig(cfg) && ValidEvent(s, e) && Unique(s.conns) && Carries(cfg, s, now, e).None? && (e.FromClient? || e.FromServer?)
    requires i < |s.conns| && s.conns[i].clean && s.conns[i].mask == NoMask
    ensures NoneReach(Step(cfg, s, now, e).controls, s.conns[i])
  {
    hide ClientIngress, ServerIngress, ClientStep, ServerStep, WgType, ToClients, ToServers, NoneReach;
    NothingReaches(s.conns[i]);
    match e {
      case FromClient(sender, view, len, luck) =>
        ClientStepCases(cfg, s, now, sender, view, len, luck);
        if len <= BUFFER_SIZE {
          NoMaskNoReplies(cfg, s.conns[i], view, len, sender);
          var g := ClientIngress(cfg, Lookup(s.conns, sender), view, len, sender);
          if g.Dropped? {
            RepliesReach(sender, 0, g.replies, s.conns[i]);
          }
        }
      case FromServer(sock, view, len, luck) =>
        if FindSock(s.conns, sock).Some? {
          ServerStepCases(cfg, s, now, sock, FindSock(s.conns, sock).value, view, len, luck);
          if len <= BUFFER_SIZE {
            NoMaskNoReplies(cfg, s.conns[i], view, len, s.target);
            var g := ServerIngress(cfg, s.conns[FindSock(s.conns, sock).value], view, len, s.target);
            if g.Dropped? {
              RepliesReach(s.conns[i].addr, sock, g.replies, s.conns[i]);
            }
          }
        } else {
          NoEntryNoStep(cfg, s, now, sock, view, len, luck);
        }
    }
  }

  lemma {:induction false} SweepReaches(cfg: Config, conns: seq<Conn>, now: int, ids: nat -> Txid, c: Conn)
    requires forall j :: 0 <= j < |conns| ==> (conns[j].addr != c.addr && conns[j].sock != c.sock) || conns[j] == c
    requires c.mask == NoMask
    ensures NoneReach(SweepSends(cfg, conns, now, ids), c)
    decreases |conns|
  {
    hide Expired, BindingRequest;
    if conns != [] {
      SweepReaches(cfg, conns[1..], now, ids, c);
    }
  }

  /** While an entry is clean, no event whatsoever makes the relay send it a message of its own, to either end. */
  lemma CleanGetsNoStun(cfg: Config, s: State, now: int, e: Event, i: nat)
    requires ValidConfig(cfg) && ValidEvent(s, e) && Unique(s.conns)
    requires i < |s.conns| && s.conns[i].clean && FlagsOk(cfg, s.conns[i])
    ensures forall x :: x in Step(cfg, s, now, e).controls ==> !Reaches(x, s.conns[i])
  {
    hide Carries, ClientStep, ServerStep, ResolveStep, SweepSends;
    var c := s.conns[i];
    match e {
      case Resolved(_, _) =>
      case Tick(ids) =>
        forall j | 0 <= j < |s.conns| ensures (s.conns[j].addr != c.addr && s.conns[j].sock != c.sock) || s.conns[j] == c {
          if j != i { UniqueAt(s.conns, i, j); }
        }
        SweepReaches(cfg, s.conns, now, ids, c);
      case _ =>
        if Carries(cfg, s, now, e).Some? {
          CarriedReaches(cfg, s, now, e, i);
        } else {
          DroppedReaches(cfg, s, now, e, i);
        }
    }
  }

  /** Nor does the event that finds its client to be clean. */
  lemma CleanAtOnce(cfg: Config, s: State, now: int, e: Event, j: nat)
    requires ValidConfig(cfg) && ValidEvent(s, e) && Unique(s.conns) && forall i :: 0 <= i < |s.conns| ==> FlagsOk(cfg, s.conns[i])
    requires j < |Step(cfg, s, now, e).state.conns| && Step(cfg, s, now, e).state.conns[j].clean
    ensures forall x :: x in Step(cfg, s, now, e).controls ==> !Reaches(x, Step(cfg, s, now, e).state.conns[j])
  {
    hide Carries, ClientStep, ServerStep, ResolveStep, SweepSends, Swept, FlagsOk;
    match e {
      case Resolved(_, _) =>
      case Tick(ids) =>
        var i := j;
        if now - s.lastCleanup >= ITERATE_INTERVAL {
          i := SweptFrom(cfg, s.conns, now, j);
        }
        CleanGetsNoStun(cfg, s, now, e, i);
      case _ =>
        StepCases(cfg, s, now, e);
        if Carries(cfg, s, now, e).Some? {
          CarriedCleanAtOnce(cfg, s, now, e, j);
        } else {
          CleanGetsNoStun(cfg, s, now, e, j);
        }
    }
  }

  lemma CarriedCleanAtOnce(cfg: Config, s: State, now: int, e: Event, j: nat)
    requires ValidConfig(cfg) && ValidEvent(s, e) && Unique(s.conns) && Carries(cfg, s, now, e).Some?
    requires j < |Step(cfg, s, now, e).state.conns| && Step(cfg, s, now, e).state.conns[j].clean
    ensures NoneReach(Step(cfg, s, now, e).controls, Step(cfg, s, now, e).state.conns[j])
  {
    hide Step, Passed, Carries, Unique, Outgoing, Directed, NoneReach, WgType;
    var a := Carries(cfg, s, now, e).value;
    var (d, _, _) := Passed(cfg, a.Entry(), a.from, now, a.packet, a.obfuscated, a.version, a.luck);
    StepCases(cfg, s, now, e);
    PassedShape(cfg, a, now);
    CarriedUnique(cfg, s, now, e);
    var c := Step(cfg, s, now, e).state.conns[j];
    NothingReaches(c);
    if j == a.i {
      DirectedNothing(d, a.from, Probes(d, a.packet, a.obfuscated, a.luck));
    } else {
      UniqueAt(a.t.conns, a.i, j);
      DirectedReach(d, a.from, Probes(d, a.packet, a.obfuscated, a.luck), c);
    }
  }

  lemma DirectedNothing(d: Conn, from: Dir, messages: seq<seq<byte>>)
    ensures messages == [] ==> Directed(d, from, messages) == []
  {
  }

  /** No message goes to either end of a clean entry. */
  ghost predicate CleanSpared(s: State, xs: seq<Send>) {
    forall i, x :: 0 <= i < |s.conns| && s.conns[i].clean && x in xs ==> !Reaches(x, s.conns[i])
  }

  /** In every step of every run the relay's own messages spare the entries that are clean before it or after it. */
  lemma CleanNeverGetsStun(cfg: Config, ts: seq<Traced>, ms: seq<Moment>, n: nat)
    requires ValidConfig(cfg) && IsRun(cfg, ts, ms) && n < |ms|
    ensures var controls := Step(cfg, ts[n].s, ms[n].now, ms[n].event).controls;
      CleanSpared(ts[n].s, controls) && CleanSpared(ts[n + 1].s, controls)
  {
    hide Inv, Step, NextLogs, Started, FlagsOk, Reaches;
    Always(cfg, ts, ms, n);
    InvUnique(cfg, ts[n], TimeAt(ms, n));
    var s, now, e, after := ts[n].s, ms[n].now, ms[n].event, ts[n + 1].s;
    forall i, x | 0 <= i < |s.conns| && s.conns[i].clean && x in Step(cfg, s, now, e).controls ensures !Reaches(x, s.conns[i]) {
      CleanGetsNoStun(cfg, s, now, e, i);
    }
    forall j, x | 0 <= j < |after.conns| && after.conns[j].clean && x in Step(cfg, s, now, e).controls
      ensures !Reaches(x, after.conns[j])
    {
      CleanAtOnce(cfg, s, now, e, j);
    }
  }
}
