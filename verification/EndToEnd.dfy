/** Two relays with the same key and STUN masking, back to back over a network that loses, repeats and reorders. */
module EndToEnd {
  import opened Bytes
  import opened Net
  import opened Keystream
  import opened Codec
  import opened Stun
  import opened Masking
  import opened RelaySpec
  import opened RelayCases
  import opened RelayInvariants
  import opened RelayTheorems
  import opened RelaySends

  type Packets = set<seq<byte>>

  /**
   * STUN masking set, and no clean clients; the rest of the configuration is free. The relay of the server, whose clients
   * come over the network, may as well be in AUTO mode.
   */
  ghost predicate Hides(cfg: Config, key: seq<byte>, net: Dir) {
    && ValidConfig(cfg) && cfg.key == key && !cfg.allowClean
    && if cfg.maskSet then cfg.mask == StunMask else net == C2S
  }

  // ----- what may be on the network

  ghost predicate Disguised(key: seq<byte>, p: seq<byte>, m: seq<byte>)
    requires ValidKey(key)
  {
    WgPacket(p) && exists maxData: nat, dice: Dice, id: Txid ::
      |Encode(key, p, 1, maxData, dice)| <= BUFFER_SIZE && m == Wrap(Encode(key, p, 1, maxData, dice), id)
  }

  /** A control message, or a disguised packet of the peer on the sending side. */
  ghost predicate Masked(key: seq<byte>, sent: Packets, m: seq<byte>)
    requires ValidKey(key)
  {
    Control(m) || exists p :: p in sent && Disguised(key, p, m)
  }

  lemma MaskedGrows(key: seq<byte>, sent: Packets, more: Packets, m: seq<byte>)
    requires ValidKey(key) && Masked(key, sent, m) && sent <= more
    ensures Masked(key, more, m)
  {
    hide Disguised, Control;
  }

  lemma ControlLooksObfuscated(m: seq<byte>)
    requires Control(m)
    ensures |m| >= 4 && IsObfuscated(m)
  {
    ControlFirstBytes(m);
  }

  lemma ControlFirstBytes(m: seq<byte>)
    requires Control(m)
    ensures |m| >= 4 && m[1] == 1
  {
    if id: Txid :| m == BindingRequest(id) {
      BindingFields(STUN_BINDING_REQ, [], id);
    } else {
      var id: Txid, src: Addr :| m == BindingSuccess(id, src);
      BindingFields(STUN_BINDING_RESP, XorMapped(src), id);
    }
  }

  lemma WrappedLooksObfuscated(e: seq<byte>, id: Txid)
    requires |e| <= 0xFFFF
    ensures |Wrap(e, id)| >= 4 && IsObfuscated(Wrap(e, id))
  {
    WrapFields(e, id);
  }

  /** Whatever arrives from the network is dropped, at most with a control message back, or opens to a sent packet. */
  ghost predicate OpensTo(g: Ingress, sent: Packets) {
    match g
    case Dropped(replies) => forall r :: r in replies ==> Control(r)
    case Accepted(p, obfuscated, version, mask) => p in sent && obfuscated && version == OBFUSCATION_VERSION
  }

  lemma OpensMasked(cfg: Config, sent: Packets, m: seq<byte>, view: seq<byte>, src: Addr)
    requires ValidConfig(cfg) && Masked(cfg.key, sent, m) && m <= view && |view| == BUFFER_SIZE
    ensures |m| >= 4 && IsObfuscated(m) && !OnDataUnwrap(view, |m|, src).Rejected?
    ensures OpensTo(Open(cfg, OnDataUnwrap(view, |m|, src), StunMask, OBFUSCATION_VERSION), sent)
  {
    hide IsObfuscated, OnDataUnwrap, Disguised, Control, Decode, OpensTo;
    if Control(m) {
      OpensControl(cfg, sent, m, view, src);
    } else {
      var p :| p in sent && Disguised(cfg.key, p, m);
      OpensDisguised(cfg, sent, p, m, view, src);
    }
  }

  lemma OpensControl(cfg: Config, sent: Packets, m: seq<byte>, view: seq<byte>, src: Addr)
    requires ValidConfig(cfg) && Control(m) && m <= view && |view| == BUFFER_SIZE
    ensures |m| >= 4 && IsObfuscated(m) && !OnDataUnwrap(view, |m|, src).Rejected?
    ensures OpensTo(Open(cfg, OnDataUnwrap(view, |m|, src), StunMask, OBFUSCATION_VERSION), sent)
  {
    hide IsObfuscated, OnDataUnwrap, Control, Decode;
    ControlLooksObfuscated(m);
    ControlConsumed(m, view, src);
  }

  lemma OpensDisguised(cfg: Config, sent: Packets, p: seq<byte>, m: seq<byte>, view: seq<byte>, src: Addr)
    requires ValidConfig(cfg) && p in sent && Disguised(cfg.key, p, m) && m <= view && |view| == BUFFER_SIZE
    ensures |m| >= 4 && IsObfuscated(m) && !OnDataUnwrap(view, |m|, src).Rejected?
    ensures OpensTo(Open(cfg, OnDataUnwrap(view, |m|, src), StunMask, OBFUSCATION_VERSION), sent)
  {
    hide IsObfuscated, OnDataUnwrap, Encode, Decode, Open, Wrap;
    var maxData: nat, dice: Dice, id: Txid :|
      |Encode(cfg.key, p, 1, maxData, dice)| <= BUFFER_SIZE && m == Wrap(Encode(cfg.key, p, 1, maxData, dice), id);
    var e := Encode(cfg.key, p, 1, maxData, dice);
    WrappedLooksObfuscated(e, id);
    UnwrapWrap(e, id, view, src);
    OpensAgain(cfg, p, maxData, dice);
  }

  lemma OpensAgain(cfg: Config, p: seq<byte>, maxData: nat, dice: Dice)
    requires ValidConfig(cfg) && WgPacket(p)
    ensures Open(cfg, Payload(Encode(cfg.key, p, 1, maxData, dice)), StunMask, OBFUSCATION_VERSION)
         == Accepted(p, true, OBFUSCATION_VERSION, StunMask)
  {
    hide Encode, Decode;
    RoundTrip(cfg.key, p, 1, maxData, dice, OBFUSCATION_VERSION);
  }

  // ----- one relay, whose network is on side `net`: S2C for the relay of the clients, C2S for that of the server

  ghost predicate Paired(c: Conn, net: Dir) {
    && c.mask == StunMask && c.version == OBFUSCATION_VERSION && !c.clean
    && (if net == S2C then !c.clientObf else !c.serverObf)
  }

  ghost predicate AllPaired(s: State, net: Dir) {
    forall i :: 0 <= i < |s.conns| ==> Paired(s.conns[i], net)
  }

  function SideOf(x: Send): Dir { if x.ToClient? then C2S else S2C }

  /** Towards the network only masked messages; towards the peer only packets the far peer has sent. */
  ghost predicate GoodSend(key: seq<byte>, net: Dir, mine: Packets, theirs: Packets, x: Send)
    requires ValidKey(key)
  {
    if SideOf(x) == net then Masked(key, mine, x.bytes) else x.bytes in theirs
  }

  ghost predicate GoodOutcome(key: seq<byte>, net: Dir, mine: Packets, theirs: Packets, out: Outcome)
    requires ValidKey(key)
  {
    && AllPaired(out.state, net)
    && (forall x :: x in out.controls ==> SideOf(x) == net && Control(x.bytes))
    && (out.forwarded.Some? ==> GoodSend(key, net, mine, theirs, out.forwarded.value))
  }

  lemma GatePaired(cfg: Config, c: Conn, now: int, kind: nat, net: Dir, from: Dir)
    requires Hides(cfg, cfg.key, net) && Paired(c, net)
    ensures var r := Accept(cfg, c, now, kind, from == net, OBFUSCATION_VERSION, from);
      r.Some? ==> Paired(r.value, net) && r.value.sock == c.sock && r.value.addr == c.addr
  {
  }

  /** A packet that came in on side `from` leaves on the other one, plain or masked as it should. */
  lemma OutgoingGood(cfg: Config, c: Conn, net: Dir, from: Dir, packet: seq<byte>, mine: Packets, theirs: Packets, luck: Luck)
    requires Hides(cfg, cfg.key, net) && Paired(c, net) && 4 <= |packet| <= BUFFER_SIZE
    requires if from == net then packet in theirs else packet in mine && WgPacket(packet)
    ensures var bytes := Outgoing(cfg, c, packet, from == net, luck);
      if from == net then bytes in theirs else Masked(cfg.key, mine, bytes)
    ensures forall m :: m in Probes(c, packet, from == net, luck) ==> from != net && Control(m)
  {
    hide Encode, WgType, IsObfuscated;
    EncodedLength(cfg.key, packet, c.version, cfg.maxDummyData, luck.dice);
    if from != net {
      assert Disguised(cfg.key, packet, Wrap(Encode(cfg.key, packet, 1, cfg.maxDummyData, luck.dice), luck.wrapId));
    }
    assert Control(BindingRequest(luck.probeId));
  }

  /** The event brings a packet of the peer on the plain side, or a message of the network on the other. */
  ghost predicate Allowed(cfg: Config, s: State, net: Dir, e: Event, mine: Packets, theirs: Packets)
    requires ValidConfig(cfg)
  {
    && ValidEvent(s, e)
    && match e
       case FromClient(_, view, len, _) => len <= BUFFER_SIZE ==> AllowedBytes(cfg.key, net == C2S, view[..len], mine, theirs)
       case FromServer(_, view, len, _) => len <= BUFFER_SIZE ==> AllowedBytes(cfg.key, net == S2C, view[..len], mine, theirs)
       case _ => true
  }

  ghost predicate AllowedBytes(key: seq<byte>, fromNet: bool, bytes: seq<byte>, mine: Packets, theirs: Packets)
    requires ValidKey(key)
  {
    if fromNet then Masked(key, theirs, bytes) else bytes in mine && WgPacket(bytes)
  }

  /** What the ingress makes of an allowed event. */
  lemma IngressGood(cfg: Config, c: Option<Conn>, net: Dir, from: Dir, view: seq<byte>, len: nat, addr: Addr, mine: Packets, theirs: Packets)
    requires Hides(cfg, cfg.key, net) && len <= |view| == BUFFER_SIZE && (c.Some? ==> Paired(c.value, net)) && (from == S2C ==> c.Some?)
    requires AllowedBytes(cfg.key, from == net, view[..len], mine, theirs)
    ensures var g := if from == C2S then ClientIngress(cfg, c, view, len, addr) else ServerIngress(cfg, c.value, view, len, addr);
      && (g.Dropped? ==> forall r :: r in g.replies ==> from == net && Control(r))
      && (g.Accepted? ==>
            && 4 <= |g.packet| <= BUFFER_SIZE && g.obfuscated == (from == net) && g.version == OBFUSCATION_VERSION && (c.None? ==> g.mask == StunMask)
            && (if from == net then g.packet in theirs else g.packet in mine && WgPacket(g.packet)))
  {
    hide OnDataUnwrap, Masked, Decode, WgType;
    if from == C2S { ClientIngressFits(cfg, c, view, len, addr); } else { ServerIngressFits(cfg, c.value, view, len, addr); }
    if from == net {
      OpensMasked(cfg, theirs, view[..len], view, addr);
      AutodetectsStun(cfg.mask, view, len, addr);
      MaskIrrelevant(cfg, OnDataUnwrap(view, len, addr), cfg.mask, OBFUSCATION_VERSION);
    }
  }

  /** The mask is only passed along. */
  lemma MaskIrrelevant(cfg: Config, v: Verdict, mask: Mask, version: nat)
    requires ValidConfig(cfg)
    ensures var g, h := Open(cfg, v, StunMask, version), Open(cfg, v, mask, version);
      if g.Dropped? then h == g else h == g.(mask := mask) && g.mask == StunMask
  {
    hide Decode;
  }

  lemma TouchPaired(c: Conn, net: Dir, now: int)
    requires Paired(c, net)
    ensures Paired(c.(lastActivity := now), net) && Paired(c.(lastActivity := now, lastIncoming := now), net)
  {
  }

  lemma Addressed(a: Addr, sock: nat, messages: seq<seq<byte>>)
    ensures forall x :: x in ToClients(a, messages) ==> x.ToClient? && x.bytes in messages
    ensures forall x :: x in ToServers(sock, messages) ==> x.ToServer? && x.bytes in messages
  {
  }

  lemma ForwardGood(cfg: Config, s: State, i: nat, net: Dir, from: Dir, now: int, packet: seq<byte>, mine: Packets, theirs: Packets, luck: Luck)
    requires Hides(cfg, cfg.key, net) && AllPaired(s, net) && i < |s.conns| && 4 <= |packet| <= BUFFER_SIZE
    requires if from == net then packet in theirs else packet in mine && WgPacket(packet)
    ensures GoodOutcome(cfg.key, net, mine, theirs,
      if from == C2S then ClientForward(cfg, s, i, now, packet, from == net, OBFUSCATION_VERSION, luck)
      else ServerForward(cfg, s, i, now, packet, from == net, OBFUSCATION_VERSION, luck))
  {
    hide Accept, Outgoing, Probes, WgType, Masked, Control, IsObfuscated, Paired, ToClients, ToServers;
    GatePaired(cfg, s.conns[i], now, WgType(packet), net, from);
    var r := Accept(cfg, s.conns[i], now, WgType(packet), from == net, OBFUSCATION_VERSION, from);
    var out := if from == C2S then ClientForward(cfg, s, i, now, packet, from == net, OBFUSCATION_VERSION, luck)
               else ServerForward(cfg, s, i, now, packet, from == net, OBFUSCATION_VERSION, luck);
    if r.Some? {
      var probes := Probes(r.value, packet, from == net, luck);
      OutgoingGood(cfg, r.value, net, from, packet, mine, theirs, luck);
      Addressed(r.value.addr, r.value.sock, probes);
      TouchPaired(r.value, net, now);
      forall x | x in out.controls ensures SideOf(x) == net && Control(x.bytes) {
        assert x.bytes in probes;
        assert Control(x.bytes);
        assert from != net;
      }
    }
  }

  lemma ClientGood(cfg: Config, s: State, net: Dir, now: int, sender: Addr, view: seq<byte>, len: nat, luck: Luck, mine: Packets, theirs: Packets)
    requires Hides(cfg, cfg.key, net) && AllPaired(s, net) && Allowed(cfg, s, net, FromClient(sender, view, len, luck), mine, theirs)
    ensures GoodOutcome(cfg.key, net, mine, theirs, ClientStep(cfg, s, now, sender, view, len, luck))
  {
    hide ClientIngress, ClientForward, WgType, Masked, Control, ToClients;
    if len <= BUFFER_SIZE {
      var i := FindAddr(s.conns, sender);
      var known := if i.Some? then Some(s.conns[i.value]) else None;
      IngressGood(cfg, known, net, C2S, view, len, sender, mine, theirs);
      var g := ClientIngress(cfg, known, view, len, sender);
      if g.Dropped? {
        Addressed(sender, 0, g.replies);
        forall x | x in ToClients(sender, g.replies) ensures SideOf(x) == net && Control(x.bytes) {
          assert Control(x.bytes) && net == C2S;
        }
      }
      if g.Accepted? {
        if i.Some? {
          ForwardGood(cfg, s, i.value, net, C2S, now, g.packet, mine, theirs, luck);
        } else if Admitted(cfg, s, g.packet, luck) {
          var c := NewConn(sender, luck.sock.value, s.target, luck.connected, g.mask, now);
          ForwardGood(cfg, s.(conns := s.conns + [c]), |s.conns|, net, C2S, now, g.packet, mine, theirs, luck);
        }
      }
    }
  }

  lemma ServerGood(cfg: Config, s: State, net: Dir, now: int, sock: nat, view: seq<byte>, len: nat, luck: Luck, mine: Packets, theirs: Packets)
    requires Hides(cfg, cfg.key, net) && AllPaired(s, net) && Allowed(cfg, s, net, FromServer(sock, view, len, luck), mine, theirs)
    ensures GoodOutcome(cfg.key, net, mine, theirs, ServerStep(cfg, s, now, sock, view, len, luck))
  {
    hide ServerIngress, ServerForward, WgType, Masked, Control, ToServers;
    var i := FindSock(s.conns, sock);
    if len <= BUFFER_SIZE && i.Some? {
      IngressGood(cfg, Some(s.conns[i.value]), net, S2C, view, len, s.target, mine, theirs);
      var g := ServerIngress(cfg, s.conns[i.value], view, len, s.target);
      if g.Dropped? {
        Addressed(s.target, sock, g.replies);
        forall x | x in ToServers(sock, g.replies) ensures SideOf(x) == net && Control(x.bytes) {
          assert Control(x.bytes) && net == S2C;
        }
      }
      if g.Accepted? {
        ForwardGood(cfg, s, i.value, net, S2C, now, g.packet, mine, theirs, luck);
      }
    }
  }

  lemma {:induction false} SweepGood(cfg: Config, conns: seq<Conn>, net: Dir, now: int, ids: nat -> Txid)
    requires forall i :: 0 <= i < |conns| ==> Paired(conns[i], net)
    ensures forall i :: 0 <= i < |Swept(cfg, conns, now)| ==> Paired(Swept(cfg, conns, now)[i], net)
    ensures forall x :: x in SweepSends(cfg, conns, now, ids) ==> SideOf(x) == net && Control(x.bytes)
    decreases |conns|
  {
    hide Expired, Control;
    if conns != [] {
      SweepGood(cfg, conns[1..], net, now, ids);
      TimerGood(conns[0], net, now, ids(conns[0].sock));
    }
  }

  lemma TimerGood(c: Conn, net: Dir, now: int, id: Txid)
    requires Paired(c, net)
    ensures Paired(Ticked(c, now), net)
    ensures forall x :: x in TimerSends(c, now, id) ==> SideOf(x) == net && Control(x.bytes)
  {
    assert Control(BindingRequest(id));
    hide Control;
  }

  lemma StepGood(cfg: Config, s: State, net: Dir, now: int, e: Event, mine: Packets, theirs: Packets)
    requires Hides(cfg, cfg.key, net) && AllPaired(s, net) && Allowed(cfg, s, net, e, mine, theirs)
    ensures GoodOutcome(cfg.key, net, mine, theirs, Step(cfg, s, now, e))
  {
    hide ClientStep, ServerStep, Swept, SweepSends, Masked, Control, AllowedBytes;
    match e
    case FromClient(sender, view, len, luck) => ClientGood(cfg, s, net, now, sender, view, len, luck, mine, theirs);
    case FromServer(sock, view, len, luck) => ServerGood(cfg, s, net, now, sock, view, len, luck, mine, theirs);
    case Resolved(result, refused) =>
    case Tick(ids) => SweepGood(cfg, s.conns, net, now, ids);
  }

  // ----- two relays

  /**
   * `a` serves WireGuard peer A on its client side, `b` serves peer B on its target side. `sent` is what a peer gave its
   * relay, `got` what the relay handed it; the `net` sets hold every message ever put on the network.
   */
  datatype World = World(
    a: State, b: State,
    sentA: Packets, sentB: Packets,
    netAB: Packets, netBA: Packets,
    gotA: Packets, gotB: Packets
  )

  datatype Move = ASends(p: seq<byte>) | BSends(p: seq<byte>) | ARuns(now: int, event: Event) | BRuns(now: int, event: Event)

  /** A packet event brings something its sender has put there at some time; it may have been brought before, or never. */
  ghost predicate Brought(e: Event, clientSide: Packets, targetSide: Packets) {
    match e
    case FromClient(_, view, len, _) => len <= BUFFER_SIZE ==> len <= |view| && view[..len] in clientSide
    case FromServer(_, view, len, _) => len <= BUFFER_SIZE ==> len <= |view| && view[..len] in targetSide
    case _ => true
  }

  ghost predicate Deliverable(s: State, e: Event, clientSide: Packets, targetSide: Packets) {
    ValidEvent(s, e) && Brought(e, clientSide, targetSide)
  }

  ghost predicate Possible(w: World, m: Move) {
    match m
    case ASends(p) => WgPacket(p)
    case BSends(p) => WgPacket(p)
    case ARuns(_, e) => Deliverable(w.a, e, w.sentA, w.netBA)
    case BRuns(_, e) => Deliverable(w.b, e, w.netAB, w.sentB)
  }

  ghost function BytesTo(side: Dir, xs: seq<Send>): Packets
  {
    set x | x in xs && SideOf(x) == side :: x.bytes
  }

  ghost function Towards(side: Dir, out: Outcome): Packets
  {
    BytesTo(side, OnWire(out.controls, out.forwarded))
  }

  ghost function After(cfgA: Config, cfgB: Config, w: World, m: Move): World
    requires ValidConfig(cfgA) && ValidConfig(cfgB) && Possible(w, m)
  {
    match m
    case ASends(p) => w.(sentA := w.sentA + {p})
    case BSends(p) => w.(sentB := w.sentB + {p})
    case ARuns(now, e) =>
      var out := Step(cfgA, w.a, now, e);
      w.(a := out.state, netAB := w.netAB + Towards(S2C, out), gotA := w.gotA + Towards(C2S, out))
    case BRuns(now, e) =>
      var out := Step(cfgB, w.b, now, e);
      w.(b := out.state, netBA := w.netBA + Towards(C2S, out), gotB := w.gotB + Towards(S2C, out))
  }

  ghost predicate Secure(key: seq<byte>, w: World)
    requires ValidKey(key)
  {
    && AllPaired(w.a, S2C) && AllPaired(w.b, C2S)
    && (forall p :: p in w.sentA ==> WgPacket(p)) && (forall p :: p in w.sentB ==> WgPacket(p))
    && (forall m :: m in w.netAB ==> Masked(key, w.sentA, m))
    && (forall m :: m in w.netBA ==> Masked(key, w.sentB, m))
    && w.gotA <= w.sentB && w.gotB <= w.sentA
  }

  lemma TowardsGood(key: seq<byte>, net: Dir, mine: Packets, theirs: Packets, out: Outcome)
    requires ValidKey(key) && GoodOutcome(key, net, mine, theirs, out)
    ensures forall m :: m in Towards(net, out) ==> Masked(key, mine, m)
    ensures Towards(if net == S2C then C2S else S2C, out) <= theirs
  {
    hide Control, Disguised, AllPaired;
  }

  lemma MoveKeeps(cfgA: Config, cfgB: Config, key: seq<byte>, w: World, m: Move)
    requires Hides(cfgA, key, S2C) && Hides(cfgB, key, C2S) && Secure(key, w) && Possible(w, m)
    ensures Secure(key, After(cfgA, cfgB, w, m))
  {
    hide Masked, AllPaired, Step, Towards, GoodOutcome;
    match m
    case ASends(p) =>
      forall m | m in w.netAB ensures Masked(key, w.sentA + {p}, m) { MaskedGrows(key, w.sentA, w.sentA + {p}, m); }
    case BSends(p) =>
      forall m | m in w.netBA ensures Masked(key, w.sentB + {p}, m) { MaskedGrows(key, w.sentB, w.sentB + {p}, m); }
    case ARuns(now, e) =>
      StepGood(cfgA, w.a, S2C, now, e, w.sentA, w.sentB);
      TowardsGood(key, S2C, w.sentA, w.sentB, Step(cfgA, w.a, now, e));
      GoodState(key, S2C, w.sentA, w.sentB, Step(cfgA, w.a, now, e));
    case BRuns(now, e) =>
      StepGood(cfgB, w.b, C2S, now, e, w.sentB, w.sentA);
      TowardsGood(key, C2S, w.sentB, w.sentA, Step(cfgB, w.b, now, e));
      GoodState(key, C2S, w.sentB, w.sentA, Step(cfgB, w.b, now, e));
  }

  lemma GoodState(key: seq<byte>, net: Dir, mine: Packets, theirs: Packets, out: Outcome)
    requires ValidKey(key) && GoodOutcome(key, net, mine, theirs, out)
    ensures AllPaired(out.state, net)
  {
  }

  /** Both relays start with static bindings or none, in AUTO mode with none, and nothing is under way. */
  ghost predicate Fresh(cfgA: Config, cfgB: Config, w: World) {
    && (exists target, bs :: Boot(cfgA, target, bs) == Some(w.a))
    && (exists target, bs :: Boot(cfgB, target, bs) == Some(w.b) && (cfgB.maskSet || bs == []))
    && w.sentA == w.sentB == w.netAB == w.netBA == w.gotA == w.gotB == {}
  }

  ghost predicate IsHistory(cfgA: Config, cfgB: Config, ws: seq<World>, moves: seq<Move>)
    requires ValidConfig(cfgA) && ValidConfig(cfgB)
  {
    && |ws| == |moves| + 1
    && Fresh(cfgA, cfgB, ws[0])
    && (forall i :: 0 <= i < |moves| ==> Possible(ws[i], moves[i]))
    && (forall i :: 0 <= i < |moves| ==> ws[i + 1] == After(cfgA, cfgB, ws[i], moves[i]))
  }

  lemma {:induction false} BootPaired(cfg: Config, target: Addr, bs: seq<Binding>, net: Dir)
    requires Hides(cfg, cfg.key, net) && (cfg.maskSet || bs == []) && BootConns(cfg, target, bs).Some?
    ensures AllPaired(BootConns(cfg, target, bs).value, net)
    decreases |bs|
  {
    if bs != [] { BootPaired(cfg, target, bs[..|bs| - 1], net); }
  }

  lemma FreshSecure(cfgA: Config, cfgB: Config, key: seq<byte>, w: World)
    requires Hides(cfgA, key, S2C) && Hides(cfgB, key, C2S) && Fresh(cfgA, cfgB, w)
    ensures Secure(key, w)
  {
    hide BootConns, Paired;
    var targetA, bsA :| Boot(cfgA, targetA, bsA) == Some(w.a);
    var targetB, bsB :| Boot(cfgB, targetB, bsB) == Some(w.b) && (cfgB.maskSet || bsB == []);
    BootPaired(cfgA, targetA, bsA, S2C);
    BootPaired(cfgB, targetB, bsB, C2S);
  }

  lemma {:induction false} SecureAlways(cfgA: Config, cfgB: Config, key: seq<byte>, ws: seq<World>, moves: seq<Move>, n: nat)
    requires Hides(cfgA, key, S2C) && Hides(cfgB, key, C2S) && IsHistory(cfgA, cfgB, ws, moves) && n <= |moves|
    ensures Secure(key, ws[n])
  {
    hide Secure, After, Possible, Fresh;
    if n == 0 {
      FreshSecure(cfgA, cfgB, key, ws[0]);
    } else {
      SecureAlways(cfgA, cfgB, key, ws, moves, n - 1);
      MoveKeeps(cfgA, cfgB, key, ws[n - 1], moves[n - 1]);
    }
  }

  /**
   * In every run, whatever the network loses, repeats or reorders: each packet a relay hands its WireGuard peer is byte
   * for byte one the other peer sent, so never a STUN message, and every entry stays at version 1.
   */
  lemma EndToEndDelivery(cfgA: Config, cfgB: Config, key: seq<byte>, ws: seq<World>, moves: seq<Move>, n: nat)
    requires Hides(cfgA, key, S2C) && Hides(cfgB, key, C2S) && IsHistory(cfgA, cfgB, ws, moves) && n <= |moves|
    ensures ws[n].gotA <= ws[n].sentB && ws[n].gotB <= ws[n].sentA
    ensures forall m :: m in ws[n].gotA + ws[n].gotB ==> WgPacket(m) && !Control(m)
    ensures forall i :: 0 <= i < |ws[n].a.conns| ==> ws[n].a.conns[i].version == OBFUSCATION_VERSION
    ensures forall i :: 0 <= i < |ws[n].b.conns| ==> ws[n].b.conns[i].version == OBFUSCATION_VERSION
  {
    hide Masked, IsObfuscated, Control;
    SecureAlways(cfgA, cfgB, key, ws, moves, n);
    forall m | m in ws[n].gotA + ws[n].gotB ensures WgPacket(m) && !Control(m) {
      if Control(m) { ControlLooksObfuscated(m); }
    }
  }

  // ----- nothing is held back that should go through

  function Opposite(d: Dir): Dir { if d == C2S then S2C else C2S }

  /** The event brings the bytes `m` from side `from`, and they fit the buffer. */
  ghost predicate Brings(e: Event, from: Dir, m: seq<byte>) {
    match e
    case FromClient(_, view, len, _) => from == C2S && len == |m| <= BUFFER_SIZE && m <= view
    case FromServer(_, view, len, _) => from == S2C && len == |m| <= BUFFER_SIZE && m <= view
    case _ => false
  }

  /** There is an entry for the packet, or one can be made, its gate is open, and sending succeeds. */
  ghost predicate GoesThrough(cfg: Config, s: State, now: int, e: Event)
    requires ValidConfig(cfg) && ValidEvent(s, e)
  {
    var r := Carries(cfg, s, now, e);
    r.Some? && r.value.Passes(cfg, now) && r.value.luck.sent
  }

  ghost predicate Ready(cfg: Config, key: seq<byte>, s: State, net: Dir, e: Event) {
    Hides(cfg, key, net) && AllPaired(s, net) && Unique(s.conns) && ValidEvent(s, e)
  }

  lemma CarriedPaired(cfg: Config, s: State, net: Dir, now: int, e: Event)
    requires Ready(cfg, cfg.key, s, net, e) && Carries(cfg, s, now, e).Some?
    requires var a := Carries(cfg, s, now, e).value;
      a.obfuscated == (a.from == net) && a.version == OBFUSCATION_VERSION && (|a.t.conns| > |s.conns| ==> a.Entry().mask == StunMask)
    ensures var a := Carries(cfg, s, now, e).value;
      var out := Step(cfg, s, now, e);
      && FindSock(out.state.conns, a.Entry().sock).Some?
      && Paired(EntryOf(out.state, a.Entry().sock), net) && AllPaired(out.state, net) && Unique(out.state.conns)
  {
    hide Carries, WgType, Outgoing, Probes, Step, Accept, Touched, Paired, Unique;
    var a := Carries(cfg, s, now, e).value;
    EntryPaired(cfg, s, net, now, e);
    CarriedOf(cfg, s, now, e);
    CarriedCount(cfg, s, now, e);
    StepCases(cfg, s, now, e);
    CarriedUnique(cfg, s, now, e);
    GatePaired(cfg, a.Entry(), now, WgType(a.packet), net, a.from);
    var (d, _, _) := Passed(cfg, a.Entry(), a.from, now, a.packet, a.obfuscated, a.version, a.luck);
    var r := Accept(cfg, a.Entry(), now, WgType(a.packet), a.obfuscated, a.version, a.from);
    if r.Some? { TouchedPaired(r.value, net, now, a.luck.sent, a.from); }
    UpdateFound(a.t.conns, a.i, d);
  }

  lemma CarriedCount(cfg: Config, s: State, now: int, e: Event)
    requires ValidConfig(cfg) && ValidEvent(s, e) && Carries(cfg, s, now, e).Some?
    ensures var a := Carries(cfg, s, now, e).value; |a.t.conns| == |s.conns| || (|a.t.conns| == |s.conns| + 1 && a.i == |s.conns|)
  {
    hide ClientIngress, ServerIngress, WgType;
  }

  lemma TouchedPaired(c: Conn, net: Dir, now: int, sent: bool, from: Dir)
    requires Paired(c, net)
    ensures Paired(Touched(c, now, sent, from), net)
    ensures var d := Touched(c, now, sent, from); d.sock == c.sock && d.addr == c.addr
  {
  }

  lemma EntryPaired(cfg: Config, s: State, net: Dir, now: int, e: Event)
    requires Ready(cfg, cfg.key, s, net, e) && Carries(cfg, s, now, e).Some?
    requires var a := Carries(cfg, s, now, e).value; |a.t.conns| > |s.conns| ==> a.Entry().mask == StunMask
    ensures Paired(Carries(cfg, s, now, e).value.Entry(), net)
  {
    hide ClientIngress, ServerIngress, WgType;
  }

  /** The event's packet is `p`, in plain or unmasked and decoded, at version 1. */
  ghost predicate ComesAs(cfg: Config, s: State, now: int, e: Event, p: seq<byte>, from: Dir, obfuscated: bool)
    requires ValidConfig(cfg) && ValidEvent(s, e) && Carries(cfg, s, now, e).Some?
  {
    var a := Carries(cfg, s, now, e).value;
    && a.packet == p && a.from == from && a.obfuscated == obfuscated && a.version == OBFUSCATION_VERSION
    && (|a.t.conns| > |s.conns| ==> a.Entry().mask == StunMask)
  }

  lemma PlainArrives(cfg: Config, s: State, from: Dir, now: int, e: Event, p: seq<byte>)
    requires Ready(cfg, cfg.key, s, Opposite(from), e) && Brings(e, from, p) && WgPacket(p) && Carries(cfg, s, now, e).Some?
    ensures ComesAs(cfg, s, now, e, p, from, false)
  {
    hide IsObfuscated, WgType, FindAddrFrom, FindSockFrom;
    assert e.view[..e.len] == p;
  }

  lemma MaskedArrives(cfg: Config, s: State, net: Dir, now: int, e: Event, p: seq<byte>, maxData: nat, dice: Dice, id: Txid)
    requires Ready(cfg, cfg.key, s, net, e) && WgPacket(p) && |Encode(cfg.key, p, 1, maxData, dice)| <= BUFFER_SIZE
    requires Brings(e, net, Wrap(Encode(cfg.key, p, 1, maxData, dice), id)) && Carries(cfg, s, now, e).Some?
    ensures ComesAs(cfg, s, now, e, p, net, true)
  {
    hide IsObfuscated, WgType, FindAddrFrom, FindSockFrom, OnDataUnwrap, Encode, Decode, Wrap;
    var w := Encode(cfg.key, p, 1, maxData, dice);
    var m := Wrap(w, id);
    var src := if e.FromClient? then e.sender else s.target;
    assert e.view[..e.len] == m;
    WrappedLooksObfuscated(w, id);
    UnwrapWrap(w, id, e.view, src);
    OpensAgain(cfg, p, maxData, dice);
    AutodetectsStun(cfg.mask, e.view, e.len, src);
    MaskIrrelevant(cfg, Payload(w), cfg.mask, OBFUSCATION_VERSION);
  }

  /** There is an entry for the packet, or room and a socket for the one that a client's handshake makes. */
  ghost predicate HasEntry(cfg: Config, s: State, e: Event, p: seq<byte>)
    requires |p| >= 4
  {
    match e
    case FromClient(sender, _, _, luck) =>
      FindAddr(s.conns, sender).Some? || (WgType(p) == 1 && |s.conns| < cfg.maxClients && luck.sock.Some?)
    case FromServer(sock, _, _, _) => FindSock(s.conns, sock).Some?
    case _ => false
  }

  /** A packet of the peer comes to an entry whenever there is one for it. */
  lemma PlainComes(cfg: Config, s: State, from: Dir, now: int, e: Event, p: seq<byte>)
    requires Ready(cfg, cfg.key, s, Opposite(from), e) && Brings(e, from, p) && WgPacket(p)
    ensures Carries(cfg, s, now, e).Some? <==> HasEntry(cfg, s, e, p)
  {
    hide IsObfuscated, WgType, FindAddrFrom, FindSockFrom;
    assert e.view[..e.len] == p;
  }

  /** So does a disguised packet of the network. */
  lemma MaskedComes(cfg: Config, s: State, net: Dir, now: int, e: Event, p: seq<byte>, maxData: nat, dice: Dice, id: Txid)
    requires Ready(cfg, cfg.key, s, net, e) && WgPacket(p) && |Encode(cfg.key, p, 1, maxData, dice)| <= BUFFER_SIZE
    requires Brings(e, net, Wrap(Encode(cfg.key, p, 1, maxData, dice), id))
    ensures Carries(cfg, s, now, e).Some? <==> HasEntry(cfg, s, e, p)
  {
    hide IsObfuscated, WgType, FindAddrFrom, FindSockFrom, OnDataUnwrap, Encode, Decode, Wrap;
    var w := Encode(cfg.key, p, 1, maxData, dice);
    var m := Wrap(w, id);
    var src := if e.FromClient? then e.sender else s.target;
    assert e.view[..e.len] == m;
    WrappedLooksObfuscated(w, id);
    UnwrapWrap(w, id, e.view, src);
    OpensAgain(cfg, p, maxData, dice);
    AutodetectsStun(cfg.mask, e.view, e.len, src);
    MaskIrrelevant(cfg, Payload(w), cfg.mask, OBFUSCATION_VERSION);
  }

  /** A packet of the peer that goes through leaves towards the network, disguised. */
  lemma PlainGoes(cfg: Config, s: State, from: Dir, now: int, e: Event, p: seq<byte>)
    requires Ready(cfg, cfg.key, s, Opposite(from), e) && Brings(e, from, p) && WgPacket(p) && GoesThrough(cfg, s, now, e)
    ensures var luck := Carries(cfg, s, now, e).value.luck;
      var x, w := Step(cfg, s, now, e).forwarded, Encode(cfg.key, p, 1, cfg.maxDummyData, luck.dice);
      && x.Some? && SideOf(x.value) == Opposite(from)
      && |w| <= BUFFER_SIZE && x.value.bytes == Wrap(w, luck.wrapId)
  {
    hide Carries, Step, IsObfuscated, Encode, Wrap, Unique, AllPaired, Probes;
    var a := Carries(cfg, s, now, e).value;
    PlainArrives(cfg, s, from, now, e, p);
    CarriedPaired(cfg, s, Opposite(from), now, e);
    SentAsEntryStands(cfg, s, now, e);
    EncodedLength(cfg.key, p, 1, cfg.maxDummyData, a.luck.dice);
  }

  /** A disguised packet that goes through leaves towards the peer, as it was. */
  lemma MaskedGoes(cfg: Config, s: State, net: Dir, now: int, e: Event, p: seq<byte>, maxData: nat, dice: Dice, id: Txid)
    requires Ready(cfg, cfg.key, s, net, e) && WgPacket(p) && |Encode(cfg.key, p, 1, maxData, dice)| <= BUFFER_SIZE
    requires Brings(e, net, Wrap(Encode(cfg.key, p, 1, maxData, dice), id)) && GoesThrough(cfg, s, now, e)
    ensures var x := Step(cfg, s, now, e).forwarded; x.Some? && SideOf(x.value) == Opposite(net) && x.value.bytes == p
  {
    hide Carries, Step, IsObfuscated, Encode, Wrap, Unique, AllPaired, Probes;
    MaskedArrives(cfg, s, net, now, e, p, maxData, dice, id);
    CarriedPaired(cfg, s, net, now, e);
    SentAsEntryStands(cfg, s, now, e);
  }

  /**
   * In either direction, a packet of any type that goes through at the first relay, and whose disguise fits the buffer and
   * goes through at the second, comes out as it went in.
   */
  lemma Crosses(cfg1: Config, cfg2: Config, s1: State, s2: State, from: Dir, p: seq<byte>, now1: int, e1: Event, now2: int, e2: Event)
    requires Ready(cfg1, cfg1.key, s1, Opposite(from), e1) && Ready(cfg2, cfg1.key, s2, from, e2)
    requires WgPacket(p) && Brings(e1, from, p) && GoesThrough(cfg1, s1, now1, e1)
    ensures var x := Step(cfg1, s1, now1, e1).forwarded;
      && x.Some? && SideOf(x.value) == Opposite(from)
      && (Brings(e2, from, x.value.bytes) && GoesThrough(cfg2, s2, now2, e2) ==>
            var y := Step(cfg2, s2, now2, e2).forwarded; y.Some? && SideOf(y.value) == Opposite(from) && y.value.bytes == p)
  {
    hide Carries, Step, IsObfuscated, Encode, Wrap, Unique, AllPaired, Brings, GoesThrough;
    PlainGoes(cfg1, s1, from, now1, e1, p);
    GoesLuck(cfg1, s1, now1, e1);
    var luck := Carries(cfg1, s1, now1, e1).value.luck;
    var w := Encode(cfg1.key, p, 1, cfg1.maxDummyData, luck.dice);
    if Brings(e2, from, Wrap(w, luck.wrapId)) && GoesThrough(cfg2, s2, now2, e2) {
      MaskedGoes(cfg2, s2, from, now2, e2, p, cfg1.maxDummyData, luck.dice, luck.wrapId);
    }
  }

  lemma GoesLuck(cfg: Config, s: State, now: int, e: Event)
    requires ValidConfig(cfg) && ValidEvent(s, e) && GoesThrough(cfg, s, now, e)
    ensures Carries(cfg, s, now, e).Some?
  {
  }

  // ----- a handshake and its response

  /** The gates, spelled out. */
  lemma PassesExactly(cfg: Config, a: Carried, now: int)
    requires a.Valid()
    ensures a.Passes(cfg, now) <==>
      || WgType(a.packet) == 1
      || (WgType(a.packet) == 2 && now - a.Entry().lastRequest <= 5000 && a.Entry().dir == Opposite(a.from))
      || (WgType(a.packet) !in {1, 2} && a.Entry().handshaked)
  {
    hide WgType, RequestFromClient, Downgraded;
  }

  ghost predicate Notes(d: Conn, now: int, kind: nat, from: Dir) {
    && (kind == WG_TYPE_HANDSHAKE ==> d.dir == from && d.lastRequest == now)
    && (kind == WG_TYPE_HANDSHAKE_RESP ==> d.handshaked)
  }

  lemma AcceptNotes(cfg: Config, c: Conn, now: int, kind: nat, obfuscated: bool, version: nat, from: Dir)
    ensures var r := Accept(cfg, c, now, kind, obfuscated, version, from); r.Some? ==> Notes(r.value, now, kind, from)
  {
  }

  lemma TouchedNotes(d: Conn, now: int, kind: nat, from: Dir, sent: bool)
    requires Notes(d, now, kind, from)
    ensures Notes(Touched(d, now, sent, from), now, kind, from)
  {
  }

  /** What a packet that passes leaves behind in its entry. */
  lemma Noted(cfg: Config, s: State, now: int, e: Event)
    requires ValidConfig(cfg) && ValidEvent(s, e) && Unique(s.conns) && GoesThrough(cfg, s, now, e)
    ensures var a, out := Carries(cfg, s, now, e).value, Step(cfg, s, now, e);
      && FindSock(out.state.conns, a.Entry().sock).Some?
      && Notes(EntryOf(out.state, a.Entry().sock), now, WgType(a.packet), a.from)
  {
    hide Carries, Step, WgType, Unique, Outgoing, Probes, FindSock, Accept, Touched, Notes;
    var a := Carries(cfg, s, now, e).value;
    StepCases(cfg, s, now, e);
    CarriedUnique(cfg, s, now, e);
    var (d, _, _) := Passed(cfg, a.Entry(), a.from, now, a.packet, a.obfuscated, a.version, a.luck);
    var r := Accept(cfg, a.Entry(), now, WgType(a.packet), a.obfuscated, a.version, a.from);
    AcceptNotes(cfg, a.Entry(), now, WgType(a.packet), a.obfuscated, a.version, a.from);
    TouchedNotes(r.value, now, WgType(a.packet), a.from, a.luck.sent);
    PassedShape(cfg, a, now);
    UpdateFound(a.t.conns, a.i, d);
  }

  /** The event comes to the entry on socket `k`, and sending succeeds. */
  ghost predicate ComesToEntry(cfg: Config, s: State, now: int, e: Event, k: nat)
    requires ValidConfig(cfg) && ValidEvent(s, e)
  {
    var r := Carries(cfg, s, now, e);
    r.Some? && r.value.t == s && r.value.Entry().sock == k && r.value.luck.sent
  }

  /** A response on the entry that has just noted the request of the other side goes through. */
  lemma ResponseGoes(cfg: Config, s: State, now: int, e: Event, k: nat, from: Dir, since: int)
    requires ValidConfig(cfg) && ValidEvent(s, e) && Unique(s.conns) && ComesToEntry(cfg, s, now, e, k) && FindSock(s.conns, k).Some?
    requires Notes(EntryOf(s, k), since, WG_TYPE_HANDSHAKE, from) && now - since <= HANDSHAKE_TIMEOUT
    requires var a := Carries(cfg, s, now, e).value; WgType(a.packet) == WG_TYPE_HANDSHAKE_RESP && a.from == Opposite(from)
    ensures GoesThrough(cfg, s, now, e)
  {
    hide Carries, WgType, Accept;
    var a := Carries(cfg, s, now, e).value;
    AtSock(s.conns, k, a.i);
    PassesExactly(cfg, a, now);
  }

  /** The relay's state after a request, ready for the response on the entry with socket `k`. */
  ghost predicate Awaits(s: State, net: Dir, k: nat, since: int, from: Dir) {
    AllPaired(s, net) && Unique(s.conns) && FindSock(s.conns, k).Some? && Notes(EntryOf(s, k), since, WG_TYPE_HANDSHAKE, from)
  }

  lemma AfterRequest(cfg: Config, s: State, net: Dir, now: int, e: Event, p: seq<byte>, from: Dir)
    requires Ready(cfg, cfg.key, s, net, e) && GoesThrough(cfg, s, now, e) && ComesAs(cfg, s, now, e, p, from, from == net)
    requires |p| >= 4 && WgType(p) == WG_TYPE_HANDSHAKE
    ensures Awaits(Step(cfg, s, now, e).state, net, Carries(cfg, s, now, e).value.Entry().sock, now, from)
  {
    hide Carries, Step, WgType, Unique, AllPaired, FindSock, EntryOf, Notes;
    CarriedPaired(cfg, s, net, now, e);
    Noted(cfg, s, now, e);
  }

  lemma PlainResponse(cfg: Config, s: State, k: nat, since: int, from: Dir, now: int, e: Event, q: seq<byte>)
    requires Ready(cfg, cfg.key, s, from, e) && Awaits(s, from, k, since, from)
    requires WgPacket(q) && WgType(q) == WG_TYPE_HANDSHAKE_RESP && Brings(e, Opposite(from), q) && now - since <= HANDSHAKE_TIMEOUT
    requires ComesToEntry(cfg, s, now, e, k)
    ensures GoesThrough(cfg, s, now, e)
    ensures var after := Step(cfg, s, now, e).state; FindSock(after.conns, k).Some? && EntryOf(after, k).handshaked
  {
    hide Carries, Step, WgType, Unique, AllPaired, FindSock, EntryOf, IsObfuscated, Brings;
    PlainArrives(cfg, s, Opposite(from), now, e, q);
    ResponseGoes(cfg, s, now, e, k, from, since);
    Noted(cfg, s, now, e);
  }

  lemma MaskedResponse(cfg: Config, s: State, k: nat, since: int, from: Dir, now: int, e: Event, q: seq<byte>, maxData: nat, dice: Dice,
                       id: Txid)
    requires Ready(cfg, cfg.key, s, Opposite(from), e) && Awaits(s, Opposite(from), k, since, from)
    requires WgPacket(q) && WgType(q) == WG_TYPE_HANDSHAKE_RESP && |Encode(cfg.key, q, 1, maxData, dice)| <= BUFFER_SIZE
    requires Brings(e, Opposite(from), Wrap(Encode(cfg.key, q, 1, maxData, dice), id)) && now - since <= HANDSHAKE_TIMEOUT
    requires ComesToEntry(cfg, s, now, e, k)
    ensures GoesThrough(cfg, s, now, e)
    ensures var after := Step(cfg, s, now, e).state; FindSock(after.conns, k).Some? && EntryOf(after, k).handshaked
  {
    hide Carries, Step, WgType, Unique, AllPaired, FindSock, EntryOf, IsObfuscated, Brings, Encode, Wrap;
    MaskedArrives(cfg, s, Opposite(from), now, e, q, maxData, dice, id);
    ResponseGoes(cfg, s, now, e, k, from, since);
    Noted(cfg, s, now, e);
  }

  /** A request at the near and at the far relay: it comes out as it went in, and both wait for the response. */
  lemma RequestCrosses(cfg1: Config, cfg2: Config, s1: State, s2: State, from: Dir, p: seq<byte>, t1: int, e1: Event, t2: int, e2: Event)
    requires WgPacket(p) && WgType(p) == WG_TYPE_HANDSHAKE
    requires Ready(cfg1, cfg1.key, s1, Opposite(from), e1) && Brings(e1, from, p) && GoesThrough(cfg1, s1, t1, e1)
    requires Ready(cfg2, cfg1.key, s2, from, e2) && GoesThrough(cfg2, s2, t2, e2)
    requires var x1 := Step(cfg1, s1, t1, e1).forwarded; x1.Some? ==> Brings(e2, from, x1.value.bytes)
    ensures Awaits(Step(cfg1, s1, t1, e1).state, Opposite(from), Carries(cfg1, s1, t1, e1).value.Entry().sock, t1, from)
    ensures Awaits(Step(cfg2, s2, t2, e2).state, from, Carries(cfg2, s2, t2, e2).value.Entry().sock, t2, from)
    ensures var x2 := Step(cfg2, s2, t2, e2).forwarded; x2.Some? && SideOf(x2.value) == Opposite(from) && x2.value.bytes == p
  {
    hide Carries, Step, WgType, Unique, AllPaired, IsObfuscated, Brings, Encode, Wrap, Awaits, ComesAs;
    PlainArrives(cfg1, s1, from, t1, e1, p);
    PlainGoes(cfg1, s1, from, t1, e1, p);
    AfterRequest(cfg1, s1, Opposite(from), t1, e1, p, from);
    var luck := Carries(cfg1, s1, t1, e1).value.luck;
    MaskedArrives(cfg2, s2, from, t2, e2, p, cfg1.maxDummyData, luck.dice, luck.wrapId);
    MaskedGoes(cfg2, s2, from, t2, e2, p, cfg1.maxDummyData, luck.dice, luck.wrapId);
    AfterRequest(cfg2, s2, from, t2, e2, p, from);
  }

  /**
   * The response, brought to both entries that wait for it within 5000 ms, comes out as it went in, and both entries are
   * handshaked after it. With `RequestCrosses` this is the whole handshake, of either peer with the other.
   */
  lemma ResponseCrosses(cfg1: Config, cfg2: Config, s1: State, s2: State, k1: nat, k2: nat, from: Dir, q: seq<byte>,
                        t1: int, t2: int, t3: int, e3: Event, t4: int, e4: Event)
    requires WgPacket(q) && WgType(q) == WG_TYPE_HANDSHAKE_RESP && cfg2.key == cfg1.key
    requires Ready(cfg2, cfg2.key, s2, from, e3) && Awaits(s2, from, k2, t2, from) && t3 - t2 <= HANDSHAKE_TIMEOUT
    requires Brings(e3, Opposite(from), q) && ComesToEntry(cfg2, s2, t3, e3, k2)
    requires Ready(cfg1, cfg1.key, s1, Opposite(from), e4) && Awaits(s1, Opposite(from), k1, t1, from) && t4 - t1 <= HANDSHAKE_TIMEOUT
    requires var x3 := Step(cfg2, s2, t3, e3).forwarded; x3.Some? ==> Brings(e4, Opposite(from), x3.value.bytes)
    requires ComesToEntry(cfg1, s1, t4, e4, k1)
    ensures var out3, out4 := Step(cfg2, s2, t3, e3), Step(cfg1, s1, t4, e4);
      && out4.forwarded.Some? && SideOf(out4.forwarded.value) == from && out4.forwarded.value.bytes == q
      && FindSock(out3.state.conns, k2).Some? && EntryOf(out3.state, k2).handshaked
      && FindSock(out4.state.conns, k1).Some? && EntryOf(out4.state, k1).handshaked
  {
    hide Carries, Step, WgType, Unique, AllPaired, IsObfuscated, Brings, Encode, Wrap, Awaits, FindSock, EntryOf;
    PlainResponse(cfg2, s2, k2, t2, from, t3, e3, q);
    PlainGoes(cfg2, s2, Opposite(from), t3, e3, q);
    var luck := Carries(cfg2, s2, t3, e3).value.luck;
    MaskedResponse(cfg1, s1, k1, t1, from, t4, e4, q, cfg2.maxDummyData, luck.dice, luck.wrapId);
    MaskedGoes(cfg1, s1, Opposite(from), t4, e4, q, cfg2.maxDummyData, luck.dice, luck.wrapId);
  }
}
