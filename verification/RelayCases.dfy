/** The steps of the state machine, case by case. */
module RelayCases {
  import opened Bytes
  import opened Net
  import opened Keystream
  import opened Codec
  import opened Stun
  import opened Masking
  import opened RelaySpec

  // ----- what one entry makes of a packet

  /** The gates leave alone who the entry is, and the version never rises above that of the packet. */
  lemma AcceptSame(cfg: Config, c: Conn, now: int, kind: nat, obfuscated: bool, version: nat, from: Dir)
    ensures var r := Accept(cfg, c, now, kind, obfuscated, version, from);
      r.Some? ==> SameEnds(c, r.value) && r.value.version <= version
  {
    hide ClientGate, ServerGate, SameEnds;
    ClientGateSame(cfg, c, now, kind, obfuscated);
    ServerGateSame(c, now, kind, obfuscated);
    var g := Gate(cfg, c, now, kind, obfuscated, from);
    if g.Some? { DowngradedSame(c, g.value, version); }
  }

  ghost predicate SameEnds(c: Conn, d: Conn) {
    d.sock == c.sock && d.addr == c.addr && d.peer == c.peer && d.isStatic == c.isStatic && d.named == c.named
  }

  lemma ClientGateSame(cfg: Config, c: Conn, now: int, kind: nat, obfuscated: bool)
    ensures var r := ClientGate(cfg, c, now, kind, obfuscated); r.Some? ==> SameEnds(c, r.value)
  {
    hide RequestFromClient;
    RequestSame(cfg, c, now, obfuscated);
  }

  lemma RequestSame(cfg: Config, c: Conn, now: int, obfuscated: bool)
    ensures SameEnds(c, RequestFromClient(cfg, c, now, obfuscated))
  {
  }

  /** Sending leaves its mark on nothing that decides what is sent. */
  lemma TouchedSame(c: Conn, now: int, sent: bool, from: Dir)
    ensures var d := Touched(c, now, sent, from);
      SameEnds(c, d) && d.version == c.version && d.mask == c.mask && d.clean == c.clean
  {
  }

  lemma ServerGateSame(c: Conn, now: int, kind: nat, obfuscated: bool)
    ensures var r := ServerGate(c, now, kind, obfuscated); r.Some? ==> SameEnds(c, r.value)
  {
  }

  lemma DowngradedSame(c: Conn, d: Conn, version: nat)
    requires SameEnds(c, d)
    ensures SameEnds(c, Downgraded(d, version)) && Downgraded(d, version).version <= version
  {
  }

  /** What one entry makes of a packet: the entry afterwards, and what is sent. */
  ghost function Passed(cfg: Config, c: Conn, from: Dir, now: int, packet: seq<byte>, obfuscated: bool, version: nat, luck: Luck)
    : (Conn, seq<Send>, Option<Send>)
    requires ValidConfig(cfg) && 4 <= |packet| <= BUFFER_SIZE
  {
    match Accept(cfg, c, now, WgType(packet), obfuscated, version, from)
    case None => (c, [], None)
    case Some(d) =>
      (Touched(d, now, luck.sent, from),
       Directed(d, from, Probes(d, packet, obfuscated, luck)),
       if luck.sent then Some(SendOn(d, from, Outgoing(cfg, d, packet, obfuscated, luck))) else None)
  }

  function SendOn(c: Conn, from: Dir, bytes: seq<byte>): Send
  {
    if from == C2S then ToServer(c.sock, bytes) else ToClient(c.addr, bytes)
  }

  function Directed(c: Conn, from: Dir, messages: seq<seq<byte>>): seq<Send>
  {
    if from == C2S then ToServers(c.sock, messages) else ToClients(c.addr, messages)
  }

  ghost function Forward(cfg: Config, s: State, i: nat, from: Dir, now: int, packet: seq<byte>, obfuscated: bool, version: nat, luck: Luck): Outcome
    requires ValidConfig(cfg) && i < |s.conns| && 4 <= |packet| <= BUFFER_SIZE
  {
    if from == C2S then ClientForward(cfg, s, i, now, packet, obfuscated, version, luck)
    else ServerForward(cfg, s, i, now, packet, obfuscated, version, luck)
  }

  /** A packet that reached an entry changes nothing but that entry. */
  lemma ForwardIsPassed(cfg: Config, s: State, i: nat, from: Dir, now: int, packet: seq<byte>, obfuscated: bool, version: nat, luck: Luck)
    requires ValidConfig(cfg) && i < |s.conns| && 4 <= |packet| <= BUFFER_SIZE
    ensures var (c, controls, forwarded) := Passed(cfg, s.conns[i], from, now, packet, obfuscated, version, luck);
      Forward(cfg, s, i, from, now, packet, obfuscated, version, luck) == Outcome(s.(conns := s.conns[i := c]), controls, forwarded)
  {
    hide Accept, Probes, Outgoing, WgType, ToServers, ToClients;
    assert s.conns[i := s.conns[i]] == s.conns;
  }

  // ----- from an event to an entry

  ghost function Lookup(conns: seq<Conn>, a: Addr): Option<Conn>
  {
    var i := FindAddr(conns, a);
    if i.Some? then Some(conns[i.value]) else None
  }

  /** The entry for a sender's packet, and the state with it. */
  ghost function WithEntry(cfg: Config, s: State, now: int, sender: Addr, handshake: bool, mask: Mask, luck: Luck): (r: Option<(State, nat)>)
    ensures r.Some? ==> r.value.1 < |r.value.0.conns|
  {
    var i := FindAddr(s.conns, sender);
    if i.Some? then Some((s, i.value))
    else if handshake && |s.conns| < cfg.maxClients && luck.sock.Some? then
      Some((s.(conns := s.conns + [NewConn(sender, luck.sock.value, s.target, luck.connected, mask, now)]), |s.conns|))
    else None
  }

  /** What `ClientStep` does with a packet that came through. */
  ghost function ClientAccepted(cfg: Config, s: State, now: int, sender: Addr, packet: seq<byte>, obfuscated: bool, version: nat,
                                mask: Mask, luck: Luck): Outcome
    requires ValidConfig(cfg) && 4 <= |packet| <= BUFFER_SIZE
  {
    match WithEntry(cfg, s, now, sender, WgType(packet) == WG_TYPE_HANDSHAKE, mask, luck)
    case None => Outcome(s, [], None)
    case Some((t, i)) => Forward(cfg, t, i, C2S, now, packet, obfuscated, version, luck)
  }

  lemma ClientStepCases(cfg: Config, s: State, now: int, sender: Addr, view: seq<byte>, len: nat, luck: Luck)
    requires ValidConfig(cfg) && |view| == BUFFER_SIZE
    ensures len > BUFFER_SIZE ==> ClientStep(cfg, s, now, sender, view, len, luck) == Outcome(s, [], None)
    ensures len <= BUFFER_SIZE ==>
      match ClientIngress(cfg, Lookup(s.conns, sender), view, len, sender)
      case Dropped(replies) => ClientStep(cfg, s, now, sender, view, len, luck) == Outcome(s, ToClients(sender, replies), None)
      case Accepted(packet, obfuscated, version, mask) =>
        && 4 <= |packet| <= BUFFER_SIZE
        && ClientStep(cfg, s, now, sender, view, len, luck) == ClientAccepted(cfg, s, now, sender, packet, obfuscated, version, mask, luck)
  {
    hide ClientIngress, ClientForward, ServerForward, FindAddr, WgType;
    if len <= BUFFER_SIZE {
      ClientIngressFits(cfg, Lookup(s.conns, sender), view, len, sender);
    }
  }

  lemma ServerStepCases(cfg: Config, s: State, now: int, sock: nat, i: nat, view: seq<byte>, len: nat, luck: Luck)
    requires ValidConfig(cfg) && |view| == BUFFER_SIZE && FindSock(s.conns, sock) == Some(i)
    ensures i < |s.conns|
    ensures len > BUFFER_SIZE ==> ServerStep(cfg, s, now, sock, view, len, luck) == Outcome(s, [], None)
    ensures len <= BUFFER_SIZE ==>
      match ServerIngress(cfg, s.conns[i], view, len, s.target)
      case Dropped(replies) => ServerStep(cfg, s, now, sock, view, len, luck) == Outcome(s, ToServers(sock, replies), None)
      case Accepted(packet, obfuscated, version, mask) =>
        && 4 <= |packet| <= BUFFER_SIZE
        && ServerStep(cfg, s, now, sock, view, len, luck) == Forward(cfg, s, i, S2C, now, packet, obfuscated, version, luck)
  {
    hide ServerIngress, ClientForward, ServerForward, WgType;
    if len <= BUFFER_SIZE {
      ServerIngressFits(cfg, s.conns[i], view, len, s.target);
    }
  }

  /** A packet on its way to the `i`-th entry of `t`, which is the table with the entry it may have made. */
  datatype Carried = Carried(t: State, i: nat, from: Dir, packet: seq<byte>, obfuscated: bool, version: nat, luck: Luck)
  {
    ghost predicate Valid() { i < |t.conns| && 4 <= |packet| <= BUFFER_SIZE }

    ghost function Entry(): Conn
      requires Valid()
    {
      t.conns[i]
    }

    /** The gate of the entry lets it through. */
    ghost predicate Passes(cfg: Config, now: int)
      requires Valid()
    {
      Accept(cfg, Entry(), now, WgType(packet), obfuscated, version, from).Some?
    }
  }

  /** The packet that an event brings to an entry, unmasked and decoded, if it brings one. */
  ghost function Carries(cfg: Config, s: State, now: int, e: Event): (r: Option<Carried>)
    requires ValidConfig(cfg) && ValidEvent(s, e)
    ensures r.Some? ==> r.value.Valid()
  {
    match e
    case FromClient(sender, view, len, luck) =>
      if len > BUFFER_SIZE then None
      else
        ClientIngressFits(cfg, Lookup(s.conns, sender), view, len, sender);
        var g := ClientIngress(cfg, Lookup(s.conns, sender), view, len, sender);
        if g.Dropped? then None
        else
          var r := WithEntry(cfg, s, now, sender, WgType(g.packet) == WG_TYPE_HANDSHAKE, g.mask, luck);
          if r.None? then None
          else Some(Carried(r.value.0, r.value.1, C2S, g.packet, g.obfuscated, g.version, luck))
    case FromServer(sock, view, len, luck) =>
      var i := FindSock(s.conns, sock);
      if len > BUFFER_SIZE || i.None? then None
      else
        ServerIngressFits(cfg, s.conns[i.value], view, len, s.target);
        var g := ServerIngress(cfg, s.conns[i.value], view, len, s.target);
        if g.Dropped? then None
        else Some(Carried(s, i.value, S2C, g.packet, g.obfuscated, g.version, luck))
    case _ => None
  }

  /** An event that brings a packet to an entry does what that entry makes of it; any other forwards nothing. */
  lemma StepCases(cfg: Config, s: State, now: int, e: Event)
    requires ValidConfig(cfg) && ValidEvent(s, e)
    ensures var r, out := Carries(cfg, s, now, e), Step(cfg, s, now, e);
      match r
      case None => out.forwarded == None && (e.FromClient? || e.FromServer? ==> out.state == s)
      case Some(a) =>
        var (c, controls, forwarded) := Passed(cfg, a.Entry(), a.from, now, a.packet, a.obfuscated, a.version, a.luck);
        out == Outcome(a.t.(conns := a.t.conns[a.i := c]), controls, forwarded)
  {
    hide ClientIngress, ServerIngress, Passed, Forward, FindAddr, FindSock, ClientStep, ServerStep, CleanupStep, WgType, WithEntry;
    match e {
      case FromClient(sender, view, len, luck) => ClientStepCases(cfg, s, now, sender, view, len, luck);
      case FromServer(sock, view, len, luck) =>
        if FindSock(s.conns, sock).Some? {
          ServerStepCases(cfg, s, now, sock, FindSock(s.conns, sock).value, view, len, luck);
        } else {
          NoEntryNoStep(cfg, s, now, sock, view, len, luck);
        }
      case Resolved(_, _) =>
      case Tick(ids) => CleanupForwardsNothing(cfg, s, now, ids);
    }
    var r := Carries(cfg, s, now, e);
    if r.Some? {
      var a := r.value;
      ForwardIsPassed(cfg, a.t, a.i, a.from, now, a.packet, a.obfuscated, a.version, a.luck);
    }
  }

  lemma CleanupForwardsNothing(cfg: Config, s: State, now: int, ids: nat -> Txid)
    ensures CleanupStep(cfg, s, now, ids).forwarded == None
  {
  }

  lemma NoEntryNoStep(cfg: Config, s: State, now: int, sock: nat, view: seq<byte>, len: nat, luck: Luck)
    requires ValidConfig(cfg) && |view| == BUFFER_SIZE && FindSock(s.conns, sock).None?
    ensures ServerStep(cfg, s, now, sock, view, len, luck) == Outcome(s, [], None)
  {
  }

  // ----- named bindings

  lemma {:induction false} NamedSnoc(conns: seq<Conn>, c: Conn)
    ensures NamedSocks(conns + [c]) == NamedSocks(conns) + if c.isStatic && c.named then [c.sock] else []
    decreases |conns|
  {
    if conns == [] {
      assert conns + [c] == [c] && [c][1..] == [];
    } else {
      assert (conns + [c])[1..] == conns[1..] + [c];
      NamedSnoc(conns[1..], c);
    }
  }
}
