/** The relay as a state machine over values: what each event does to the table and what is sent. */
module RelaySpec {
  import opened Bytes
  import opened Net
  import opened Keystream
  import opened Codec
  import opened Stun
  import opened Masking

  const HANDSHAKE_TIMEOUT: int := 5000
  const ITERATE_INTERVAL: int := 1000
  const RESOLVE_TAG_TARGET: int := -1

  datatype Dir = C2S | S2C

  datatype Config = Config(
    key: seq<byte>,
    maxClients: nat,
    idleTimeout: int,
    inTimeout: int,
    maxDummyData: nat,
    mask: Mask,
    maskSet: bool,
    allowClean: bool
  )

  /** What the option parser guarantees. */
  ghost predicate ValidConfig(cfg: Config) {
    && ValidKey(cfg.key)
    && cfg.maxClients > 0 && cfg.idleTimeout > 0 && cfg.inTimeout >= 0
    && cfg.maxDummyData <= MAX_DUMMY_LENGTH_TOTAL
    && (!cfg.maskSet ==> cfg.mask == NoMask)
  }

  /** One entry of the table; `sock` is the socket towards the target, connected to `peer`. */
  datatype Conn = Conn(
    addr: Addr,
    sock: nat,
    peer: Option<Addr>,
    version: nat,
    mask: Mask,
    handshaked: bool,
    dir: Dir,
    clientObf: bool,
    serverObf: bool,
    clean: bool,
    isStatic: bool,
    named: bool,
    lastActivity: int,
    lastIncoming: int,
    lastRequest: int,
    lastHandshake: int,
    lastTimer: int
  )

  /** Entries in insertion order; `bindings` lists the sockets of the static entries that have a host name. */
  datatype State = State(conns: seq<Conn>, target: Addr, lastCleanup: int, bindings: seq<nat>)

  /** The answers of `rand`, `socket`, `connect` and `send` while one packet is handled. */
  datatype Luck = Luck(dice: Dice, wrapId: Txid, probeId: Txid, sock: Option<nat>, connected: bool, sent: bool)

  datatype Send = ToClient(to: Addr, bytes: seq<byte>) | ToServer(sock: nat, bytes: seq<byte>)

  /** `controls` are messages of the masking layer, sent before the packet itself. */
  datatype Outcome = Outcome(state: State, controls: seq<Send>, forwarded: Option<Send>)

  function OnWire(controls: seq<Send>, forwarded: Option<Send>): seq<Send>
  {
    controls + if forwarded.Some? then [forwarded.value] else []
  }

  // ----- from the wire to a packet

  datatype Ingress = Dropped(replies: seq<seq<byte>>) | Accepted(packet: seq<byte>, obfuscated: bool, version: nat, mask: Mask)

  function Open(cfg: Config, v: Verdict, mask: Mask, version0: nat): Ingress
    requires ValidConfig(cfg)
  {
    match v
    case Rejected => Dropped([])
    case Consumed(replies) => Dropped(replies)
    case Payload(b) =>
      if |b| < 4 then Dropped([])
      else
        var d := Decode(cfg.key, b, version0);
        if d.Usable() then Accepted(d.bytes[..d.length], true, d.version, mask) else Dropped([])
  }

  function ClientIngress(cfg: Config, known: Option<Conn>, view: seq<byte>, len: nat, sender: Addr): Ingress
    requires ValidConfig(cfg) && len <= |view| == BUFFER_SIZE
  {
    var version0 := if known.Some? then known.value.version else OBFUSCATION_VERSION;
    if len < 4 then Dropped([])
    else if IsObfuscated(view[..len]) then
      var (v, mask) := UnwrapFromClient(if known.Some? then Some(known.value.mask) else None, cfg.mask, cfg.maskSet, view, len, sender);
      Open(cfg, v, mask, version0)
    else
      Accepted(view[..len], false, version0, cfg.mask)
  }

  function ServerIngress(cfg: Config, c: Conn, view: seq<byte>, len: nat, target: Addr): Ingress
    requires ValidConfig(cfg) && len <= |view| == BUFFER_SIZE
  {
    if len < 4 then Dropped([])
    else if IsObfuscated(view[..len]) then Open(cfg, Handle(c.mask, view, len, target), c.mask, c.version)
    else Accepted(view[..len], false, c.version, c.mask)
  }

  // ----- from a packet to the wire

  function Outgoing(cfg: Config, c: Conn, packet: seq<byte>, obfuscated: bool, luck: Luck): seq<byte>
    requires ValidConfig(cfg) && 4 <= |packet| <= BUFFER_SIZE
  {
    if !obfuscated && !c.clean then
      EncodedLength(cfg.key, packet, c.version, cfg.maxDummyData, luck.dice);
      WrapData(c.mask, Encode(cfg.key, packet, c.version, cfg.maxDummyData, luck.dice), luck.wrapId)
    else
      packet
  }

  // ----- what a packet does to its entry, or None if the entry does not let it pass

  function Downgraded(c: Conn, version: nat): Conn
  {
    if version < c.version then c.(version := version) else c
  }

  function RequestFromClient(cfg: Config, c: Conn, now: int, obfuscated: bool): Conn
  {
    var c1 := if cfg.allowClean then c.(clean := !obfuscated, mask := if !obfuscated then NoMask else c.mask) else c;
    c1.(dir := C2S, lastRequest := now)
  }

  /** The gates and state changes before the version check. */
  function ClientGate(cfg: Config, c: Conn, now: int, kind: nat, obfuscated: bool): Option<Conn>
  {
    if kind == WG_TYPE_HANDSHAKE then
      Some(RequestFromClient(cfg, c, now, obfuscated))
    else if kind == WG_TYPE_HANDSHAKE_RESP then
      if now - c.lastRequest > HANDSHAKE_TIMEOUT || c.dir != S2C then None
      else Some(c.(handshaked := true, clientObf := obfuscated, serverObf := !obfuscated, lastHandshake := now))
    else if c.handshaked then Some(c)
    else None
  }

  function ServerGate(c: Conn, now: int, kind: nat, obfuscated: bool): Option<Conn>
  {
    if kind == WG_TYPE_HANDSHAKE then
      Some(c.(dir := S2C, lastRequest := now))
    else if kind == WG_TYPE_HANDSHAKE_RESP then
      if now - c.lastRequest > HANDSHAKE_TIMEOUT || c.dir != C2S then None
      else Some(c.(handshaked := true, clientObf := !obfuscated && !c.clean, serverObf := obfuscated, lastHandshake := now))
    else if c.handshaked then Some(c)
    else None
  }

  function Gate(cfg: Config, c: Conn, now: int, kind: nat, obfuscated: bool, from: Dir): Option<Conn>
  {
    if from == C2S then ClientGate(cfg, c, now, kind, obfuscated) else ServerGate(c, now, kind, obfuscated)
  }

  function Accept(cfg: Config, c: Conn, now: int, kind: nat, obfuscated: bool, version: nat, from: Dir): Option<Conn>
  {
    var r := Gate(cfg, c, now, kind, obfuscated, from);
    if r.Some? then Some(Downgraded(r.value, version)) else None
  }

  // ----- the table

  function FindAddr(conns: seq<Conn>, a: Addr): Option<nat>
  {
    FindAddrFrom(conns, a, 0)
  }

  function FindAddrFrom(conns: seq<Conn>, a: Addr, i: nat): (r: Option<nat>)
    requires i <= |conns|
    ensures r.Some? ==> i <= r.value < |conns| && conns[r.value].addr == a && forall k :: i <= k < r.value ==> conns[k].addr != a
    ensures r.None? ==> forall k :: i <= k < |conns| ==> conns[k].addr != a
    decreases |conns| - i
  {
    if i == |conns| then None
    else if conns[i].addr == a then Some(i)
    else FindAddrFrom(conns, a, i + 1)
  }

  function FindSock(conns: seq<Conn>, k: nat): Option<nat>
  {
    FindSockFrom(conns, k, 0)
  }

  function FindSockFrom(conns: seq<Conn>, k: nat, i: nat): (r: Option<nat>)
    requires i <= |conns|
    ensures r.Some? ==> i <= r.value < |conns| && conns[r.value].sock == k && forall j :: i <= j < r.value ==> conns[j].sock != k
    ensures r.None? ==> forall j :: i <= j < |conns| ==> conns[j].sock != k
    decreases |conns| - i
  {
    if i == |conns| then None
    else if conns[i].sock == k then Some(i)
    else FindSockFrom(conns, k, i + 1)
  }

  function Connected(target: Addr, ok: bool): Option<Addr> { if ok then Some(target) else None }

  function NewConn(sender: Addr, sock: nat, target: Addr, connected: bool, mask: Mask, now: int): Conn
  {
    Conn(sender, sock, Connected(target, connected), OBFUSCATION_VERSION, mask, false, C2S, false, false, false, false, false,
         now, 0, 0, 0, 0)
  }

  function NewStaticConn(cfg: Config, addr: Addr, sock: nat, target: Addr, connected: bool, named: bool): Conn
  {
    Conn(addr, sock, Connected(target, connected), OBFUSCATION_VERSION, cfg.mask, false, C2S, false, false, false, true, named,
         0, 0, 0, 0, 0)
  }

  // ----- a packet from a client

  function ToClients(to: Addr, messages: seq<seq<byte>>): (s: seq<Send>)
    ensures |s| == |messages|
  {
    seq(|messages|, i requires 0 <= i < |messages| => ToClient(to, messages[i]))
  }

  function ToServers(sock: nat, messages: seq<seq<byte>>): (s: seq<Send>)
    ensures |s| == |messages|
  {
    seq(|messages|, i requires 0 <= i < |messages| => ToServer(sock, messages[i]))
  }

  function Probes(c: Conn, packet: seq<byte>, obfuscated: bool, luck: Luck): seq<seq<byte>>
    requires |packet| >= 4
  {
    if WgType(packet) == WG_TYPE_HANDSHAKE && !obfuscated && !c.clean then HandshakeProbe(c.mask, luck.probeId) else []
  }

  /** The entry once the packet was sent, or not. */
  function Touched(c: Conn, now: int, sent: bool, from: Dir): Conn
  {
    if !sent then c
    else if from == C2S then c.(lastActivity := now)
    else c.(lastActivity := now, lastIncoming := now)
  }

  function ClientForward(cfg: Config, s: State, i: nat, now: int, packet: seq<byte>, obfuscated: bool, version: nat, luck: Luck): Outcome
    requires ValidConfig(cfg) && i < |s.conns| && 4 <= |packet| <= BUFFER_SIZE
  {
    match Accept(cfg, s.conns[i], now, WgType(packet), obfuscated, version, C2S)
    case None => Outcome(s, [], None)
    case Some(c) =>
      Outcome(
        s.(conns := s.conns[i := if luck.sent then c.(lastActivity := now) else c]),
        ToServers(c.sock, Probes(c, packet, obfuscated, luck)),
        if luck.sent then Some(ToServer(c.sock, Outgoing(cfg, c, packet, obfuscated, luck))) else None)
  }

  lemma AcceptedFits(cfg: Config, v: Verdict, mask: Mask, version0: nat)
    requires ValidConfig(cfg) && (v.Payload? ==> |v.bytes| <= BUFFER_SIZE)
    ensures var g := Open(cfg, v, mask, version0); g.Accepted? ==> 4 <= |g.packet| <= BUFFER_SIZE
  {
    hide Xor, Ks, U16;
  }

  lemma HandleFits(mask: Mask, view: seq<byte>, len: nat, src: Addr)
    requires len <= |view| == BUFFER_SIZE
    ensures var v := Handle(mask, view, len, src); v.Payload? ==> |v.bytes| <= BUFFER_SIZE
  {
  }

  lemma ClientIngressFits(cfg: Config, known: Option<Conn>, view: seq<byte>, len: nat, sender: Addr)
    requires ValidConfig(cfg) && len <= |view| == BUFFER_SIZE
    ensures var g := ClientIngress(cfg, known, view, len, sender); g.Accepted? ==> 4 <= |g.packet| <= BUFFER_SIZE
  {
    var version0 := if known.Some? then known.value.version else OBFUSCATION_VERSION;
    var km := if known.Some? then Some(known.value.mask) else None;
    var (v, mask) := UnwrapFromClient(km, cfg.mask, cfg.maskSet, view, len, sender);
    AutodetectsStun(cfg.mask, view, len, sender);
    HandleFits(StunMask, view, len, sender);
    HandleFits(if known.Some? then known.value.mask else cfg.mask, view, len, sender);
    assert v.Payload? ==> |v.bytes| <= BUFFER_SIZE;
    AcceptedFits(cfg, v, mask, version0);
  }

  lemma ServerIngressFits(cfg: Config, c: Conn, view: seq<byte>, len: nat, target: Addr)
    requires ValidConfig(cfg) && len <= |view| == BUFFER_SIZE
    ensures var g := ServerIngress(cfg, c, view, len, target); g.Accepted? ==> 4 <= |g.packet| <= BUFFER_SIZE
  {
    HandleFits(c.mask, view, len, target);
    AcceptedFits(cfg, Handle(c.mask, view, len, target), c.mask, c.version);
  }

  /** Only a handshake makes an entry, if there is room for one and a socket can be had. */
  predicate Admitted(cfg: Config, s: State, packet: seq<byte>, luck: Luck)
    requires |packet| >= 4
  {
    WgType(packet) == WG_TYPE_HANDSHAKE && |s.conns| < cfg.maxClients && luck.sock.Some?
  }

  function ClientStep(cfg: Config, s: State, now: int, sender: Addr, view: seq<byte>, len: nat, luck: Luck): Outcome
    requires ValidConfig(cfg) && |view| == BUFFER_SIZE
  {
    if len > BUFFER_SIZE then Outcome(s, [], None)
    else
      var i := FindAddr(s.conns, sender);
      var known := if i.Some? then Some(s.conns[i.value]) else None;
      ClientIngressFits(cfg, known, view, len, sender);
      match ClientIngress(cfg, known, view, len, sender)
      case Dropped(replies) => Outcome(s, ToClients(sender, replies), None)
      case Accepted(packet, obfuscated, version, mask) =>
        if i.Some? then
          ClientForward(cfg, s, i.value, now, packet, obfuscated, version, luck)
        else if Admitted(cfg, s, packet, luck) then
          var c := NewConn(sender, luck.sock.value, s.target, luck.connected, mask, now);
          ClientForward(cfg, s.(conns := s.conns + [c]), |s.conns|, now, packet, obfuscated, version, luck)
        else
          Outcome(s, [], None)
  }

  // ----- a packet from the target

  function ServerForward(cfg: Config, s: State, i: nat, now: int, packet: seq<byte>, obfuscated: bool, version: nat, luck: Luck): Outcome
    requires ValidConfig(cfg) && i < |s.conns| && 4 <= |packet| <= BUFFER_SIZE
  {
    match Accept(cfg, s.conns[i], now, WgType(packet), obfuscated, version, S2C)
    case None => Outcome(s, [], None)
    case Some(c) =>
      Outcome(
        s.(conns := s.conns[i := if luck.sent then c.(lastActivity := now, lastIncoming := now) else c]),
        ToClients(c.addr, Probes(c, packet, obfuscated, luck)),
        if luck.sent then Some(ToClient(c.addr, Outgoing(cfg, c, packet, obfuscated, luck))) else None)
  }

  function ServerStep(cfg: Config, s: State, now: int, sock: nat, view: seq<byte>, len: nat, luck: Luck): Outcome
    requires ValidConfig(cfg) && |view| == BUFFER_SIZE
  {
    var i := FindSock(s.conns, sock);
    if len > BUFFER_SIZE || i.None? then Outcome(s, [], None)
    else
      ServerIngressFits(cfg, s.conns[i.value], view, len, s.target);
      match ServerIngress(cfg, s.conns[i.value], view, len, s.target)
      case Dropped(replies) => Outcome(s, ToServers(sock, replies), None)
      case Accepted(packet, obfuscated, version, _) =>
        ServerForward(cfg, s, i.value, now, packet, obfuscated, version, luck)
  }

  // ----- a resolver result

  datatype ResolveResult = ResolveResult(tag: int, err: int, ip: Ip)

  /** The target's new address goes to every socket whose `connect` is not refused. */
  function Reconnected(conns: seq<Conn>, target: Addr, refused: set<nat>): (r: seq<Conn>)
    ensures |r| == |conns|
  {
    seq(|conns|, i requires 0 <= i < |conns| =>
      if conns[i].sock in refused then conns[i] else conns[i].(peer := Some(target)))
  }

  /** Deleted, and added again under another address. */
  function Rekeyed(conns: seq<Conn>, i: nat, addr: Addr): (r: seq<Conn>)
    requires i < |conns|
    ensures |r| == |conns|
  {
    conns[..i] + conns[i + 1..] + [conns[i].(addr := addr)]
  }

  function ResolveStep(s: State, r: ResolveResult, refused: set<nat>): State
  {
    if r.err != 0 then s
    else if r.tag == RESOLVE_TAG_TARGET then
      if s.target.ip == r.ip then s
      else
        var target := s.target.(ip := r.ip);
        s.(target := target, conns := Reconnected(s.conns, target, refused))
    else if r.tag < 0 || r.tag >= |s.bindings| then s
    else
      var i := FindSock(s.conns, s.bindings[r.tag]);
      if i.None? || !s.conns[i.value].isStatic || s.conns[i.value].addr.ip == r.ip then s
      else
        var c := s.conns[i.value];
        var addr := c.addr.(ip := r.ip);
        if FindAddr(s.conns, addr).Some? then s
        else s.(conns := Rekeyed(s.conns, i.value, addr))
  }

  datatype Resolution = Resolution(result: ResolveResult, refused: set<nat>)

  /** The whole queue the resolver thread has filled. */
  ghost function Drained(s: State, queue: seq<Resolution>): State
    decreases |queue|
  {
    if queue == [] then s else Drained(ResolveStep(s, queue[0].result, queue[0].refused), queue[1..])
  }

  // ----- the cleanup pass

  predicate Expired(cfg: Config, c: Conn, now: int)
  {
    && !c.isStatic
    && (|| now - c.lastActivity >= cfg.idleTimeout
        || (cfg.inTimeout > 0 && now - c.lastIncoming >= cfg.inTimeout)
        || (!c.handshaked && now - c.lastActivity >= HANDSHAKE_TIMEOUT))
  }

  predicate TimerDue(c: Conn, now: int)
  {
    c.mask != NoMask && now - c.lastTimer >= STUN_TIMER_INTERVAL_MS
  }

  function Ticked(c: Conn, now: int): Conn
  {
    if TimerDue(c, now) then c.(lastTimer := now) else c
  }

  /** One Binding Request, built once, to each obfuscated side. */
  function TimerSends(c: Conn, now: int, id: Txid): seq<Send>
  {
    if !TimerDue(c, now) then []
    else
      (if c.clientObf then [ToClient(c.addr, BindingRequest(id))] else [])
      + (if c.serverObf then [ToServer(c.sock, BindingRequest(id))] else [])
  }

  function Swept(cfg: Config, conns: seq<Conn>, now: int): seq<Conn>
  {
    if conns == [] then []
    else (if Expired(cfg, conns[0], now) then [] else [Ticked(conns[0], now)]) + Swept(cfg, conns[1..], now)
  }

  function SweepSends(cfg: Config, conns: seq<Conn>, now: int, ids: nat -> Txid): seq<Send>
  {
    if conns == [] then []
    else
      (if Expired(cfg, conns[0], now) then [] else TimerSends(conns[0], now, ids(conns[0].sock)))
      + SweepSends(cfg, conns[1..], now, ids)
  }

  function CleanupStep(cfg: Config, s: State, now: int, ids: nat -> Txid): Outcome
  {
    if now - s.lastCleanup >= ITERATE_INTERVAL then
      Outcome(s.(conns := Swept(cfg, s.conns, now), lastCleanup := now), SweepSends(cfg, s.conns, now, ids), None)
    else
      Outcome(s, [], None)
  }

  // ----- all events

  datatype Event =
    | FromClient(sender: Addr, view: seq<byte>, len: nat, luck: Luck)
    | FromServer(sock: nat, view: seq<byte>, len: nat, luck: Luck)
    | Resolved(result: ResolveResult, refused: set<nat>)
    | Tick(ids: nat -> Txid)

  /** The buffer has its size, and a new socket is none of those in use. */
  ghost predicate ValidEvent(s: State, e: Event)
  {
    match e
    case FromClient(_, view, _, luck) => |view| == BUFFER_SIZE && (luck.sock.Some? ==> FindSock(s.conns, luck.sock.value).None?)
    case FromServer(_, view, _, luck) => |view| == BUFFER_SIZE
    case _ => true
  }

  ghost function Step(cfg: Config, s: State, now: int, e: Event): Outcome
    requires ValidConfig(cfg) && ValidEvent(s, e)
  {
    match e
    case FromClient(sender, view, len, luck) => ClientStep(cfg, s, now, sender, view, len, luck)
    case FromServer(sock, view, len, luck) => ServerStep(cfg, s, now, sock, view, len, luck)
    case Resolved(result, refused) => Outcome(ResolveStep(s, result, refused), [], None)
    case Tick(ids) => CleanupStep(cfg, s, now, ids)
  }

  // ----- start-up

  /** A static binding from the configuration; creation fails when the table is full or the address is taken. */
  datatype Binding = Binding(addr: Addr, sock: nat, connected: bool, named: bool)

  function NewStatic(cfg: Config, s: State, b: Binding): Option<State>
  {
    if |s.conns| >= cfg.maxClients || FindAddr(s.conns, b.addr).Some? then None
    else Some(s.(conns := s.conns + [NewStaticConn(cfg, b.addr, b.sock, s.target, b.connected, b.named)]))
  }

  function BootConns(cfg: Config, target: Addr, bs: seq<Binding>): Option<State>
  {
    if bs == [] then Some(State([], target, 0, []))
    else
      match BootConns(cfg, target, bs[..|bs| - 1])
      case None => None
      case Some(s) => NewStatic(cfg, s, bs[|bs| - 1])
  }

  /** The sockets of the entries that keep a host name, in insertion order. */
  function NamedSocks(conns: seq<Conn>): seq<nat>
  {
    if conns == [] then []
    else (if conns[0].isStatic && conns[0].named then [conns[0].sock] else []) + NamedSocks(conns[1..])
  }

  /** `allow-clean` together with static bindings is refused. */
  function Boot(cfg: Config, target: Addr, bs: seq<Binding>): Option<State>
  {
    if cfg.allowClean && bs != [] then None
    else
      match BootConns(cfg, target, bs)
      case None => None
      case Some(s) => Some(s.(bindings := NamedSocks(s.conns)))
  }
}
