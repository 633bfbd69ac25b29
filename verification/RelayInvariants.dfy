/** What holds of the relay in every state of every run. */
module RelayInvariants {
  import opened Bytes
  import opened Net
  import opened Codec
  import opened Stun
  import opened Masking
  import opened RelaySpec

  // ----- the history of an entry

  /** What happened to an entry; `from` is the side a packet came from, `plain` whether it came without obfuscation. */
  datatype Obs =
    | Created(at: int)
    | Request(from: Dir, at: int, plain: bool)
    | Response(from: Dir, at: int, plain: bool)
    | Sent(from: Dir, at: int)

  datatype Topic = Requests | ClientRequests | Signs | TargetSigns

  /** Signs of life are the creation and every packet sent on. */
  predicate About(o: Obs, topic: Topic)
  {
    match topic
    case Requests => o.Request?
    case ClientRequests => o.Request? && o.from == C2S
    case Signs => o.Sent? || o.Created?
    case TargetSigns => o.Sent? && o.from == S2C
  }

  ghost function Latest(log: seq<Obs>, topic: Topic): (r: Option<Obs>)
    ensures r.Some? ==> About(r.value, topic)
  {
    if log == [] then None
    else if About(log[|log| - 1], topic) then Some(log[|log| - 1])
    else Latest(log[..|log| - 1], topic)
  }

  /** A response answers a request from the other side that is at most 5000 ms old. */
  ghost predicate Answers(request: Option<Obs>, o: Obs)
  {
    request.Some? && request.value.Request? && o.Response?
    && request.value.from != o.from && o.at - request.value.at <= 5000
  }

  /** Some response answered what was then the latest request. */
  ghost predicate Justified(log: seq<Obs>) {
    exists j :: 0 <= j < |log| && AnsweredAt(log, j)
  }

  ghost predicate AnsweredAt(log: seq<Obs>, j: nat) {
    j < |log| && Answers(Latest(log[..j], Requests), log[j])
  }

  /** The last such response. */
  ghost function LastAnswer(log: seq<Obs>): (r: Option<nat>)
    ensures r.Some? ==> r.value < |log|
    decreases |log|
  {
    if log == [] then None
    else if AnsweredAt(log, |log| - 1) then Some(|log| - 1)
    else LastAnswer(log[..|log| - 1])
  }

  lemma {:induction false} LastAnswerExactly(log: seq<Obs>)
    ensures LastAnswer(log).Some? <==> Justified(log)
    ensures LastAnswer(log).Some? ==> AnsweredAt(log, LastAnswer(log).value)
    ensures forall j :: 0 <= j < |log| && AnsweredAt(log, j) ==> LastAnswer(log).Some? && j <= LastAnswer(log).value
    decreases |log|
  {
    if log != [] {
      var n := |log| - 1;
      LastAnswerExactly(log[..n]);
      forall j | 0 <= j < n ensures AnsweredAt(log, j) <==> AnsweredAt(log[..n], j) {
        assert log[..n][..j] == log[..j];
      }
    }
  }

  /** The client's latest handshake came in plain, and that is allowed. */
  ghost predicate CleanBy(cfg: Config, log: seq<Obs>) {
    cfg.allowClean && Latest(log, ClientRequests).Some? && Latest(log, ClientRequests).value.plain
  }

  /** Which sides are obfuscated, and since when the entry is handshaked, by the `j`-th observation. */
  ghost predicate SidesBy(cfg: Config, log: seq<Obs>, j: nat, c: Conn)
    requires j < |log| && log[j].Response?
  {
    && c.lastHandshake == log[j].at
    && if log[j].from == C2S then c.clientObf == !log[j].plain && c.serverObf == log[j].plain
       else c.clientObf == (log[j].plain && !CleanBy(cfg, log[..j])) && c.serverObf == !log[j].plain
  }

  lemma LatestNext(log: seq<Obs>, o: Obs, topic: Topic)
    ensures Latest(log + [o], topic) == if About(o, topic) then Some(o) else Latest(log, topic)
  {
    assert (log + [o])[..|log|] == log;
  }

  lemma LastAnswerNext(log: seq<Obs>, o: Obs)
    ensures LastAnswer(log + [o]) == if Answers(Latest(log, Requests), o) then Some(|log|) else LastAnswer(log)
  {
    assert (log + [o])[..|log|] == log;
  }

  /** How one observation changes whether a handshake is justified. */
  lemma JustifiedNext(log: seq<Obs>, o: Obs)
    ensures Justified(log + [o]) <==> Justified(log) || Answers(Latest(log, Requests), o)
  {
    hide Justified, AnsweredAt, LastAnswer;
    LastAnswerNext(log, o);
    LastAnswerExactly(log);
    LastAnswerExactly(log + [o]);
  }

  /** The observation a packet of a known entry gives rise to. */
  ghost function Seen(packet: seq<byte>, obfuscated: bool, from: Dir, now: int): seq<Obs>
    requires |packet| >= 4
  {
    if WgType(packet) == 1 then [Request(from, now, !obfuscated)]
    else if WgType(packet) == 2 then [Response(from, now, !obfuscated)]
    else []
  }

  /** And what is sent on. */
  ghost function Trail(from: Dir, now: int, forwarded: bool): seq<Obs>
  {
    if forwarded then [Sent(from, now)] else []
  }

  /** The table together with the history of each of its entries, by socket. */
  datatype Traced = Traced(s: State, logs: map<nat, seq<Obs>>)

  datatype Moment = Moment(now: int, event: Event)

  ghost function Extended(logs: map<nat, seq<Obs>>, sock: nat, more: seq<Obs>): map<nat, seq<Obs>>
  {
    logs[sock := (if sock in logs then logs[sock] else []) + more]
  }

  ghost function NextLogs(cfg: Config, t: Traced, m: Moment): map<nat, seq<Obs>>
    requires ValidConfig(cfg) && ValidEvent(t.s, m.event)
  {
    var sent := Step(cfg, t.s, m.now, m.event).forwarded.Some?;
    match m.event
    case FromClient(sender, view, len, luck) =>
      if len > BUFFER_SIZE then t.logs
      else
        var i := FindAddr(t.s.conns, sender);
        var known := if i.Some? then Some(t.s.conns[i.value]) else None;
        ClientIngressFits(cfg, known, view, len, sender);
        var g := ClientIngress(cfg, known, view, len, sender);
        if g.Dropped? then t.logs
        else if i.Some? then Extended(t.logs, t.s.conns[i.value].sock, Seen(g.packet, g.obfuscated, C2S, m.now) + Trail(C2S, m.now, sent))
        else if Admitted(cfg, t.s, g.packet, luck) then
          t.logs[luck.sock.value := [Created(m.now)] + [Request(C2S, m.now, !g.obfuscated)] + Trail(C2S, m.now, sent)]
        else t.logs
    case FromServer(sock, view, len, luck) =>
      var i := FindSock(t.s.conns, sock);
      if len > BUFFER_SIZE || i.None? then t.logs
      else
        ServerIngressFits(cfg, t.s.conns[i.value], view, len, t.s.target);
        var g := ServerIngress(cfg, t.s.conns[i.value], view, len, t.s.target);
        if g.Dropped? then t.logs
        else Extended(t.logs, sock, Seen(g.packet, g.obfuscated, S2C, m.now) + Trail(S2C, m.now, sent))
    case _ => t.logs
  }

  ghost function Next(cfg: Config, t: Traced, m: Moment): Traced
    requires ValidConfig(cfg) && ValidEvent(t.s, m.event)
  {
    Traced(Step(cfg, t.s, m.now, m.event).state, NextLogs(cfg, t, m))
  }

  // ----- the invariant

  ghost predicate Unique(conns: seq<Conn>) {
    && (forall i, j :: 0 <= i < j < |conns| ==> conns[i].addr != conns[j].addr)
    && (forall i, j :: 0 <= i < j < |conns| ==> conns[i].sock != conns[j].sock)
  }

  ghost predicate FlagsOk(cfg: Config, c: Conn) {
    && !(c.clientObf && c.serverObf)
    && (!c.handshaked ==> !c.clientObf && !c.serverObf)
    && (c.handshaked && !cfg.allowClean ==> c.clientObf != c.serverObf)
    && (c.clean ==> cfg.allowClean && !c.isStatic && c.mask == NoMask)
    && (c.isStatic ==> !cfg.allowClean)
    && c.version <= OBFUSCATION_VERSION
  }

  ghost predicate TimesOk(c: Conn, now: int) {
    && 0 <= c.lastActivity <= now && 0 <= c.lastIncoming <= now && 0 <= c.lastRequest <= now
    && 0 <= c.lastHandshake <= now && 0 <= c.lastTimer <= now
  }

  /** A static entry behaves as if a request had come from its client at time 0. */
  ghost predicate LogOk(cfg: Config, c: Conn, log: seq<Obs>) {
    Rooted(log) && Asked(c, log) && Agreed(cfg, c, log) && Clocked(c, log) && (c.clean <==> CleanBy(cfg, log))
  }

  ghost predicate Rooted(log: seq<Obs>) { log != [] && log[0].Created? }

  ghost predicate Asked(c: Conn, log: seq<Obs>) {
    var r := Latest(log, Requests);
    r.Some? && r.value.from == c.dir && r.value.at == c.lastRequest
  }

  ghost predicate Agreed(cfg: Config, c: Conn, log: seq<Obs>) {
    var j := LastAnswer(log);
    && (c.handshaked <==> j.Some?)
    && if j.Some? then log[j.value].Response? && SidesBy(cfg, log, j.value, c)
       else c.lastHandshake == 0 && !c.clientObf && !c.serverObf
  }

  ghost predicate Clocked(c: Conn, log: seq<Obs>) {
    && Latest(log, Signs).Some? && c.lastActivity == Latest(log, Signs).value.at
    && c.lastIncoming == if Latest(log, TargetSigns).Some? then Latest(log, TargetSigns).value.at else 0
  }

  /** No dynamic entry had timed out at the last cleanup. */
  ghost predicate FreshOk(cfg: Config, c: Conn, log: seq<Obs>, lastCleanup: int)
    requires log != [] && log[0].Created?
  {
    !c.isStatic ==>
      && lastCleanup - c.lastActivity < cfg.idleTimeout
      && (!c.handshaked ==> lastCleanup - c.lastActivity < HANDSHAKE_TIMEOUT)
      && (cfg.inTimeout > 0 ==> lastCleanup - c.lastIncoming < cfg.inTimeout || log[0].at >= lastCleanup)
  }

  ghost predicate ConnOk(cfg: Config, c: Conn, logs: map<nat, seq<Obs>>, lastCleanup: int, now: int) {
    && FlagsOk(cfg, c) && TimesOk(c, now)
    && c.sock in logs && LogOk(cfg, c, logs[c.sock]) && FreshOk(cfg, c, logs[c.sock], lastCleanup)
  }

  ghost predicate StaticAt(conns: seq<Conn>, sock: nat, i: nat) {
    i < |conns| && conns[i].sock == sock && conns[i].isStatic
  }

  ghost predicate StaticSock(conns: seq<Conn>, sock: nat) {
    exists i :: StaticAt(conns, sock, i)
  }

  /** Every resolver binding points to a live static entry. */
  ghost predicate BindingsOk(conns: seq<Conn>, bindings: seq<nat>) {
    forall b :: 0 <= b < |bindings| ==> StaticSock(conns, bindings[b])
  }

  ghost predicate Inv(cfg: Config, t: Traced, now: int) {
    && 0 <= t.s.lastCleanup <= now
    && |t.s.conns| <= cfg.maxClients
    && Unique(t.s.conns)
    && BindingsOk(t.s.conns, t.s.bindings)
    && forall i :: 0 <= i < |t.s.conns| ==> ConnOk(cfg, t.s.conns[i], t.logs, t.s.lastCleanup, now)
  }

  // ----- one packet

  /** What one step can do to a live entry. */
  ghost predicate Evolves(c: Conn, d: Conn) {
    && d.sock == c.sock && d.isStatic == c.isStatic && d.named == c.named && (d.addr == c.addr || c.isStatic)
    && (c.handshaked ==> d.handshaked)
    && d.version <= c.version
    && c.lastActivity <= d.lastActivity && c.lastIncoming <= d.lastIncoming && c.lastRequest <= d.lastRequest
  }

  /** A step takes the mask away only from a client it finds to be clean. */
  ghost predicate MaskKept(c: Conn, d: Conn) {
    d.mask == c.mask || (d.mask == NoMask && d.clean)
  }

  /** `d` is a legitimate successor of `c` at time `now`. */
  ghost predicate Sound(cfg: Config, c: Conn, d: Conn, now: int) {
    FlagsOk(cfg, d) && TimesOk(d, now) && Evolves(c, d) && MaskKept(c, d) && d.addr == c.addr
  }

  lemma RequestSound(cfg: Config, c: Conn, now: int, obfuscated: bool)
    requires FlagsOk(cfg, c) && TimesOk(c, now)
    ensures Sound(cfg, c, c, now)
    ensures Sound(cfg, c, c.(dir := S2C, lastRequest := now), now)
    ensures Sound(cfg, c, RequestFromClient(cfg, c, now, obfuscated), now)
  {
  }

  lemma ResponseSound(cfg: Config, c: Conn, now: int, obfuscated: bool)
    requires FlagsOk(cfg, c) && TimesOk(c, now)
    ensures Sound(cfg, c, c.(handshaked := true, clientObf := obfuscated, serverObf := !obfuscated, lastHandshake := now), now)
    ensures Sound(cfg, c, c.(handshaked := true, clientObf := !obfuscated && !c.clean, serverObf := obfuscated, lastHandshake := now), now)
  {
  }

  lemma DowngradedSound(cfg: Config, c: Conn, d: Conn, version: nat, now: int)
    requires Sound(cfg, c, d, now)
    ensures Sound(cfg, c, Downgraded(d, version), now)
  {
  }

  lemma AcceptSound(cfg: Config, c: Conn, now: int, kind: nat, obfuscated: bool, version: nat, from: Dir)
    requires FlagsOk(cfg, c) && TimesOk(c, now)
    ensures var r := Accept(cfg, c, now, kind, obfuscated, version, from); r.Some? ==> Sound(cfg, c, r.value, now)
  {
    hide FlagsOk, TimesOk, Sound, Downgraded, RequestFromClient;
    RequestSound(cfg, c, now, obfuscated);
    ResponseSound(cfg, c, now, obfuscated);
    var g := Gate(cfg, c, now, kind, obfuscated, from);
    if g.Some? { DowngradedSound(cfg, c, g.value, version, now); }
  }

  /** A request, from either side. */
  lemma RequestKeepsLog(cfg: Config, c: Conn, log: seq<Obs>, now: int, obfuscated: bool, from: Dir)
    requires LogOk(cfg, c, log)
    ensures var d := if from == C2S then RequestFromClient(cfg, c, now, obfuscated) else c.(dir := S2C, lastRequest := now);
      LogOk(cfg, d, log + [Request(from, now, !obfuscated)])
  {
    hide Latest, LastAnswer;
    LogNext(log, Request(from, now, !obfuscated));
    PrefixKept(log, Request(from, now, !obfuscated));
  }

  lemma ResponseKeepsLog(cfg: Config, c: Conn, log: seq<Obs>, now: int, obfuscated: bool, from: Dir)
    requires LogOk(cfg, c, log)
    ensures var r := Gate(cfg, c, now, WG_TYPE_HANDSHAKE_RESP, obfuscated, from);
      LogOk(cfg, if r.Some? then r.value else c, log + [Response(from, now, !obfuscated)])
  {
    hide Latest, LastAnswer, RequestFromClient;
    LogNext(log, Response(from, now, !obfuscated));
    PrefixKept(log, Response(from, now, !obfuscated));
  }

  lemma LogNext(log: seq<Obs>, o: Obs)
    ensures forall topic :: Latest(log + [o], topic) == if About(o, topic) then Some(o) else Latest(log, topic)
    ensures LastAnswer(log + [o]) == if Answers(Latest(log, Requests), o) then Some(|log|) else LastAnswer(log)
  {
    forall topic ensures Latest(log + [o], topic) == if About(o, topic) then Some(o) else Latest(log, topic) {
      LatestNext(log, o, topic);
    }
    LastAnswerNext(log, o);
  }

  lemma PrefixKept(log: seq<Obs>, o: Obs)
    ensures forall j :: 0 <= j < |log| ==> (log + [o])[j] == log[j] && (log + [o])[..j] == log[..j]
    ensures (log + [o])[|log|] == o && (log + [o])[..|log|] == log
  {
  }

  lemma GateKeepsLog(cfg: Config, c: Conn, log: seq<Obs>, now: int, packet: seq<byte>, obfuscated: bool, from: Dir)
    requires LogOk(cfg, c, log) && |packet| >= 4
    ensures var r := Gate(cfg, c, now, WgType(packet), obfuscated, from);
      LogOk(cfg, if r.Some? then r.value else c, log + Seen(packet, obfuscated, from, now))
  {
    hide WgType, LogOk, RequestFromClient;
    if WgType(packet) == 1 {
      RequestKeepsLog(cfg, c, log, now, obfuscated, from);
    } else if WgType(packet) == 2 {
      ResponseKeepsLog(cfg, c, log, now, obfuscated, from);
    } else {
      assert log + Seen(packet, obfuscated, from, now) == log;
    }
  }

  // ----- one entry changes

  lemma FreshSound(cfg: Config, c: Conn, d: Conn, log: seq<Obs>, more: seq<Obs>, lastCleanup: int, now: int)
    requires log != [] && log[0].Created? && FreshOk(cfg, c, log, lastCleanup) && Sound(cfg, c, d, now)
    ensures (log + more)[0] == log[0] && FreshOk(cfg, d, log + more, lastCleanup)
  {
    hide FlagsOk, TimesOk;
  }

  lemma BindingsUpdate(conns: seq<Conn>, bindings: seq<nat>, i: nat, d: Conn)
    requires BindingsOk(conns, bindings) && i < |conns| && d.sock == conns[i].sock && d.isStatic == conns[i].isStatic
    ensures BindingsOk(conns[i := d], bindings)
  {
    var after := conns[i := d];
    forall b | 0 <= b < |bindings| ensures StaticSock(after, bindings[b]) {
      assert StaticSock(conns, bindings[b]);
      var j :| StaticAt(conns, bindings[b], j);
      assert StaticAt(after, bindings[b], j);
    }
  }

  lemma BindingsAppend(conns: seq<Conn>, bindings: seq<nat>, d: Conn)
    requires BindingsOk(conns, bindings)
    ensures BindingsOk(conns + [d], bindings)
  {
    var after := conns + [d];
    forall b | 0 <= b < |bindings| ensures StaticSock(after, bindings[b]) {
      assert StaticSock(conns, bindings[b]);
      var j :| StaticAt(conns, bindings[b], j);
      assert StaticAt(after, bindings[b], j);
    }
  }

  lemma ConnLater(cfg: Config, c: Conn, logs: map<nat, seq<Obs>>, logs': map<nat, seq<Obs>>, lastCleanup: int, now: int, later: int)
    requires ConnOk(cfg, c, logs, lastCleanup, now) && now <= later
    requires c.sock in logs' && logs'[c.sock] == logs[c.sock]
    ensures ConnOk(cfg, c, logs', lastCleanup, later)
  {
    hide FlagsOk, LogOk, FreshOk;
  }

  lemma UpdateKeeps(cfg: Config, t: Traced, i: nat, d: Conn, log: seq<Obs>, now: int, later: int)
    requires Inv(cfg, t, now) && now <= later && i < |t.s.conns|
    requires d.sock == t.s.conns[i].sock && d.addr == t.s.conns[i].addr && d.isStatic == t.s.conns[i].isStatic
    requires ConnOk(cfg, d, t.logs[d.sock := log], t.s.lastCleanup, later)
    ensures Inv(cfg, Traced(t.s.(conns := t.s.conns[i := d]), t.logs[d.sock := log]), later)
  {
    hide ConnOk, BindingsOk;
    BindingsUpdate(t.s.conns, t.s.bindings, i, d);
    forall j | 0 <= j < |t.s.conns| && j != i ensures ConnOk(cfg, t.s.conns[j], t.logs[d.sock := log], t.s.lastCleanup, later) {
      assert ConnOk(cfg, t.s.conns[j], t.logs, t.s.lastCleanup, now);
      SockLogged(cfg, t, j, now);
      ConnLater(cfg, t.s.conns[j], t.logs, t.logs[d.sock := log], t.s.lastCleanup, now, later);
    }
  }

  lemma SockLogged(cfg: Config, t: Traced, j: nat, now: int)
    requires Inv(cfg, t, now) && j < |t.s.conns|
    ensures t.s.conns[j].sock in t.logs
    ensures var log := t.logs[t.s.conns[j].sock]; log != [] && log[0].Created?
  {
    assert ConnOk(cfg, t.s.conns[j], t.logs, t.s.lastCleanup, now);
  }

  lemma AppendKeeps(cfg: Config, t: Traced, d: Conn, log: seq<Obs>, now: int, later: int)
    requires Inv(cfg, t, now) && now <= later && |t.s.conns| < cfg.maxClients
    requires forall j :: 0 <= j < |t.s.conns| ==> t.s.conns[j].addr != d.addr && t.s.conns[j].sock != d.sock
    requires ConnOk(cfg, d, t.logs[d.sock := log], t.s.lastCleanup, later)
    ensures Inv(cfg, Traced(t.s.(conns := t.s.conns + [d]), t.logs[d.sock := log]), later)
  {
    hide ConnOk, BindingsOk;
    BindingsAppend(t.s.conns, t.s.bindings, d);
    forall j | 0 <= j < |t.s.conns| ensures ConnOk(cfg, t.s.conns[j], t.logs[d.sock := log], t.s.lastCleanup, later) {
      assert ConnOk(cfg, t.s.conns[j], t.logs, t.s.lastCleanup, now);
      SockLogged(cfg, t, j, now);
      ConnLater(cfg, t.s.conns[j], t.logs, t.logs[d.sock := log], t.s.lastCleanup, now, later);
    }
  }

  lemma InvLater(cfg: Config, t: Traced, now: int, later: int)
    requires Inv(cfg, t, now) && now <= later
    ensures Inv(cfg, t, later)
  {
    hide ConnOk, BindingsOk, Unique;
    forall j | 0 <= j < |t.s.conns| ensures ConnOk(cfg, t.s.conns[j], t.logs, t.s.lastCleanup, later) {
      SockLogged(cfg, t, j, now);
      ConnLater(cfg, t.s.conns[j], t.logs, t.logs, t.s.lastCleanup, now, later);
    }
  }

  // ----- a packet on a known entry

  lemma TouchedSound(cfg: Config, c: Conn, d: Conn, now: int, sent: bool, from: Dir)
    requires Sound(cfg, c, d, now)
    ensures Sound(cfg, c, Touched(d, now, sent, from), now)
  {
  }

  lemma TouchedLog(cfg: Config, d: Conn, log: seq<Obs>, now: int, sent: bool, from: Dir)
    requires LogOk(cfg, d, log)
    ensures LogOk(cfg, Touched(d, now, sent, from), log + Trail(from, now, sent))
  {
    hide Latest, LastAnswer;
    if sent {
      LogNext(log, Sent(from, now));
      PrefixKept(log, Sent(from, now));
    } else {
      assert log + Trail(from, now, sent) == log;
    }
  }

  lemma DowngradedLog(cfg: Config, d: Conn, log: seq<Obs>, version: nat)
    requires LogOk(cfg, d, log)
    ensures LogOk(cfg, Downgraded(d, version), log)
  {
    hide Latest, LastAnswer;
  }

  lemma PacketKeeps(cfg: Config, t: Traced, i: nat, now: int, later: int, packet: seq<byte>, obfuscated: bool, version: nat,
                    sent: bool, from: Dir)
    requires Inv(cfg, t, now) && now <= later && i < |t.s.conns| && |packet| >= 4
    ensures var c, r := t.s.conns[i], Accept(cfg, t.s.conns[i], later, WgType(packet), obfuscated, version, from);
      var d := if r.Some? then Touched(r.value, later, sent, from) else c;
      var more := Seen(packet, obfuscated, from, later) + Trail(from, later, r.Some? && sent);
      Inv(cfg, Traced(t.s.(conns := t.s.conns[i := d]), Extended(t.logs, c.sock, more)), later)
  {
    hide FlagsOk, Inv, WgType, Sound, FreshOk, LogOk, Touched, Accept, Seen, Trail;
    var c, r := t.s.conns[i], Accept(cfg, t.s.conns[i], later, WgType(packet), obfuscated, version, from);
    var d := if r.Some? then Touched(r.value, later, sent, from) else c;
    InvLater(cfg, t, now, later);
    ConnOf(cfg, t, i, later);
    var log, more := t.logs[c.sock], Seen(packet, obfuscated, from, later) + Trail(from, later, r.Some? && sent);
    PacketOnConn(cfg, c, log, t.s.lastCleanup, later, packet, obfuscated, version, sent, from);
    assert Extended(t.logs, c.sock, more) == t.logs[c.sock := log + more];
    UpdateKeeps(cfg, t, i, d, log + more, now, later);
  }

  lemma ConnOf(cfg: Config, t: Traced, i: nat, now: int)
    requires Inv(cfg, t, now) && i < |t.s.conns|
    ensures ConnOk(cfg, t.s.conns[i], t.logs, t.s.lastCleanup, now)
  {
  }

  lemma PacketOnConn(cfg: Config, c: Conn, log: seq<Obs>, lastCleanup: int, now: int, packet: seq<byte>, obfuscated: bool,
                     version: nat, sent: bool, from: Dir)
    requires FlagsOk(cfg, c) && TimesOk(c, now) && LogOk(cfg, c, log) && FreshOk(cfg, c, log, lastCleanup) && |packet| >= 4
    ensures var r := Accept(cfg, c, now, WgType(packet), obfuscated, version, from);
      var d := if r.Some? then Touched(r.value, now, sent, from) else c;
      var log' := log + (Seen(packet, obfuscated, from, now) + Trail(from, now, r.Some? && sent));
      && FlagsOk(cfg, d) && TimesOk(d, now) && LogOk(cfg, d, log') && FreshOk(cfg, d, log', lastCleanup) && Sound(cfg, c, d, now)
      && d.sock == c.sock && d.addr == c.addr && d.isStatic == c.isStatic
  {
    hide WgType, FlagsOk, TimesOk, Touched, FreshOk, Gate, RequestFromClient, LogOk, Seen, Downgraded;
    var g := Gate(cfg, c, now, WgType(packet), obfuscated, from);
    var r := Accept(cfg, c, now, WgType(packet), obfuscated, version, from);
    var d := if r.Some? then Touched(r.value, now, sent, from) else c;
    var seen, trail := Seen(packet, obfuscated, from, now), Trail(from, now, r.Some? && sent);
    assert log + (seen + trail) == (log + seen) + trail;
    RequestSound(cfg, c, now, obfuscated);
    AcceptSound(cfg, c, now, WgType(packet), obfuscated, version, from);
    GateKeepsLog(cfg, c, log, now, packet, obfuscated, from);
    if r.Some? {
      TouchedSound(cfg, c, r.value, now, sent, from);
      DowngradedLog(cfg, g.value, log + seen, version);
      TouchedLog(cfg, r.value, log + seen, now, sent, from);
    } else {
      assert (log + seen) + trail == log + seen;
    }
    RootKept(cfg, c, log);
    FreshSound(cfg, c, d, log, seen + trail, lastCleanup, now);
  }

  lemma RootKept(cfg: Config, c: Conn, log: seq<Obs>)
    requires LogOk(cfg, c, log)
    ensures log != [] && log[0].Created?
  {
  }

  // ----- every event keeps the invariant

  lemma NewConnOk(cfg: Config, sender: Addr, sock: nat, target: Addr, connected: bool, mask: Mask, lastCleanup: int, now: int,
                  obfuscated: bool, version: nat, sent: bool)
    requires ValidConfig(cfg) && 0 <= lastCleanup <= now
    ensures var c := NewConn(sender, sock, target, connected, mask, now);
      var d := Touched(Downgraded(RequestFromClient(cfg, c, now, obfuscated), version), now, sent, C2S);
      var log := [Created(now)] + [Request(C2S, now, !obfuscated)] + Trail(C2S, now, sent);
      FlagsOk(cfg, d) && TimesOk(d, now) && LogOk(cfg, d, log) && FreshOk(cfg, d, log, lastCleanup) && d.sock == sock && d.addr == sender
  {
    var c := NewConn(sender, sock, target, connected, mask, now);
    RequestSound(cfg, c, now, obfuscated);
    DowngradedSound(cfg, c, RequestFromClient(cfg, c, now, obfuscated), version, now);
    TouchedSound(cfg, c, Downgraded(RequestFromClient(cfg, c, now, obfuscated), version), now, sent, C2S);
    NewConnLog(cfg, c, now, obfuscated);
    var log := [Created(now)] + [Request(C2S, now, !obfuscated)];
    DowngradedLog(cfg, RequestFromClient(cfg, c, now, obfuscated), log, version);
    TouchedLog(cfg, Downgraded(RequestFromClient(cfg, c, now, obfuscated), version), log, now, sent, C2S);
    hide FlagsOk, TimesOk, LogOk;
  }

  lemma NewConnLog(cfg: Config, c: Conn, now: int, obfuscated: bool)
    requires c == NewConn(c.addr, c.sock, c.addr, false, c.mask, now).(peer := c.peer)
    ensures LogOk(cfg, RequestFromClient(cfg, c, now, obfuscated), [Created(now)] + [Request(C2S, now, !obfuscated)])
  {
    FirstRequest(now, !obfuscated);
    hide Latest, LastAnswer;
  }

  lemma FirstRequest(now: int, plain: bool)
    ensures var log := [Created(now)] + [Request(C2S, now, plain)];
      && LastAnswer(log) == None
      && Latest(log, Requests) == Latest(log, ClientRequests) == Some(Request(C2S, now, plain))
      && Latest(log, Signs) == Some(Created(now)) && Latest(log, TargetSigns) == None
  {
    var log: seq<Obs> := [];
    assert [Created(now)] == log + [Created(now)];
    LogNext(log, Created(now));
    LogNext([Created(now)], Request(C2S, now, plain));
  }

  lemma ClientKeeps(cfg: Config, t: Traced, now: int, later: int, sender: Addr, view: seq<byte>, len: nat, luck: Luck)
    requires ValidConfig(cfg) && Inv(cfg, t, now) && now <= later && ValidEvent(t.s, FromClient(sender, view, len, luck))
    ensures Inv(cfg, Next(cfg, t, Moment(later, FromClient(sender, view, len, luck))), later)
  {
    hide Inv, ClientIngress, Accept, WgType, Outgoing, Seen, Extended;
    InvLater(cfg, t, now, later);
    if len <= BUFFER_SIZE {
      var i := FindAddr(t.s.conns, sender);
      var known := if i.Some? then Some(t.s.conns[i.value]) else None;
      ClientIngressFits(cfg, known, view, len, sender);
      var g := ClientIngress(cfg, known, view, len, sender);
      if g.Accepted? {
        if i.Some? {
          PacketKeeps(cfg, t, i.value, now, later, g.packet, g.obfuscated, g.version, luck.sent, C2S);
          assert t.s.conns[i.value := t.s.conns[i.value]] == t.s.conns;
          assert t.s.(conns := t.s.conns) == t.s;
        } else if Admitted(cfg, t.s, g.packet, luck) {
          CreationKeeps(cfg, t, now, later, sender, g, luck);
          RequestPasses(cfg, NewConn(sender, luck.sock.value, t.s.target, luck.connected, g.mask, later), later, g.obfuscated, g.version);
        }
      }
    }
  }

  lemma RequestPasses(cfg: Config, c: Conn, now: int, obfuscated: bool, version: nat)
    ensures Accept(cfg, c, now, WG_TYPE_HANDSHAKE, obfuscated, version, C2S).Some?
  {
  }

  lemma CreationKeeps(cfg: Config, t: Traced, now: int, later: int, sender: Addr, g: Ingress, luck: Luck)
    requires ValidConfig(cfg) && Inv(cfg, t, now) && now <= later
    requires g.Accepted? && 4 <= |g.packet| <= BUFFER_SIZE && Admitted(cfg, t.s, g.packet, luck)
    requires FindAddr(t.s.conns, sender).None? && FindSock(t.s.conns, luck.sock.value).None?
    ensures var c := NewConn(sender, luck.sock.value, t.s.target, luck.connected, g.mask, later);
      var s' := ClientForward(cfg, t.s.(conns := t.s.conns + [c]), |t.s.conns|, later, g.packet, g.obfuscated, g.version, luck).state;
      var log := [Created(later)] + [Request(C2S, later, !g.obfuscated)] + Trail(C2S, later, luck.sent);
      Inv(cfg, Traced(s', t.logs[luck.sock.value := log]), later)
  {
    hide WgType, Outgoing, Inv, FlagsOk, TimesOk, LogOk, FreshOk, RequestFromClient, Downgraded;
    CleanupBound(cfg, t, now);
    var k := luck.sock.value;
    NewConnOk(cfg, sender, k, t.s.target, luck.connected, g.mask, t.s.lastCleanup, later, g.obfuscated, g.version, luck.sent);
    var c := NewConn(sender, k, t.s.target, luck.connected, g.mask, later);
    var d := Touched(Downgraded(RequestFromClient(cfg, c, later, g.obfuscated), g.version), later, luck.sent, C2S);
    AppendKeeps(cfg, t, d, [Created(later)] + [Request(C2S, later, !g.obfuscated)] + Trail(C2S, later, luck.sent), now, later);
    assert (t.s.conns + [c])[|t.s.conns| := d] == t.s.conns + [d];
  }

  lemma CleanupBound(cfg: Config, t: Traced, now: int)
    requires Inv(cfg, t, now)
    ensures 0 <= t.s.lastCleanup <= now
  {
  }

  lemma ServerKeeps(cfg: Config, t: Traced, now: int, later: int, sock: nat, view: seq<byte>, len: nat, luck: Luck)
    requires ValidConfig(cfg) && Inv(cfg, t, now) && now <= later && ValidEvent(t.s, FromServer(sock, view, len, luck))
    ensures Inv(cfg, Next(cfg, t, Moment(later, FromServer(sock, view, len, luck))), later)
  {
    hide Inv, ServerIngress, Accept, WgType, Outgoing, Seen, Extended;
    InvLater(cfg, t, now, later);
    var i := FindSock(t.s.conns, sock);
    if len <= BUFFER_SIZE && i.Some? {
      ServerIngressFits(cfg, t.s.conns[i.value], view, len, t.s.target);
      var g := ServerIngress(cfg, t.s.conns[i.value], view, len, t.s.target);
      if g.Accepted? {
        PacketKeeps(cfg, t, i.value, now, later, g.packet, g.obfuscated, g.version, luck.sent, S2C);
        assert t.s.conns[i.value := t.s.conns[i.value]] == t.s.conns;
        assert t.s.(conns := t.s.conns) == t.s;
      }
    }
  }

  lemma PeerAddrIrrelevant(cfg: Config, c: Conn, d: Conn, logs: map<nat, seq<Obs>>, lastCleanup: int, now: int)
    requires ConnOk(cfg, c, logs, lastCleanup, now)
    requires d == c.(peer := d.peer, addr := d.addr)
    ensures ConnOk(cfg, d, logs, lastCleanup, now)
  {
    hide Latest, LastAnswer;
  }

  lemma ReconnectKeeps(cfg: Config, t: Traced, now: int, target: Addr, refused: set<nat>)
    requires Inv(cfg, t, now)
    ensures Inv(cfg, Traced(t.s.(target := target, conns := Reconnected(t.s.conns, target, refused)), t.logs), now)
  {
    hide ConnOk, StaticSock;
    var conns := Reconnected(t.s.conns, target, refused);
    forall i | 0 <= i < |conns| ensures ConnOk(cfg, conns[i], t.logs, t.s.lastCleanup, now) {
      PeerAddrIrrelevant(cfg, t.s.conns[i], conns[i], t.logs, t.s.lastCleanup, now);
    }
    forall b | 0 <= b < |t.s.bindings| ensures StaticSock(conns, t.s.bindings[b]) {
      SameSockets(t.s.conns, conns, t.s.bindings[b]);
    }
  }

  lemma SameSockets(before: seq<Conn>, after: seq<Conn>, k: nat)
    requires StaticSock(before, k) && |after| == |before|
    requires forall i :: 0 <= i < |before| ==> after[i].sock == before[i].sock && after[i].isStatic == before[i].isStatic
    ensures StaticSock(after, k)
  {
    var i :| StaticAt(before, k, i);
    assert StaticAt(after, k, i);
  }

  /** Where the element now at `j` was before. */
  ghost function CameFrom(n: nat, i: nat, j: nat): (k: nat)
    requires i < n && j < n
    ensures k < n
  {
    if j < i then j else if j < n - 1 then j + 1 else i
  }

  lemma RekeyedAt(conns: seq<Conn>, i: nat, addr: Addr, j: nat)
    requires i < |conns| && j < |conns|
    ensures var k := CameFrom(|conns|, i, j);
      Rekeyed(conns, i, addr)[j] == if k == i then conns[i].(addr := addr) else conns[k]
  {
  }

  lemma RekeyKeeps(cfg: Config, t: Traced, now: int, i: nat, addr: Addr)
    requires Inv(cfg, t, now) && i < |t.s.conns| && FindAddr(t.s.conns, addr).None?
    ensures Inv(cfg, Traced(t.s.(conns := Rekeyed(t.s.conns, i, addr)), t.logs), now)
  {
    hide ConnOk, StaticSock, Rekeyed;
    var before, after := t.s.conns, Rekeyed(t.s.conns, i, addr);
    forall j | 0 <= j < |before|
      ensures after[j] == if CameFrom(|before|, i, j) == i then before[i].(addr := addr) else before[CameFrom(|before|, i, j)]
    {
      RekeyedAt(before, i, addr, j);
    }
    forall j | 0 <= j < |after| ensures ConnOk(cfg, after[j], t.logs, t.s.lastCleanup, now) {
      PeerAddrIrrelevant(cfg, before[CameFrom(|before|, i, j)], after[j], t.logs, t.s.lastCleanup, now);
    }
    forall b | 0 <= b < |t.s.bindings| ensures StaticSock(after, t.s.bindings[b]) {
      RekeyedSock(before, i, addr, t.s.bindings[b]);
    }
  }

  lemma RekeyedSock(conns: seq<Conn>, i: nat, addr: Addr, k: nat)
    requires i < |conns| && StaticSock(conns, k)
    ensures StaticSock(Rekeyed(conns, i, addr), k)
  {
    var j: nat :| StaticAt(conns, k, j);
    var to: nat := if j < i then j else if j == i then |conns| - 1 else j - 1;
    RekeyedAt(conns, i, addr, to);
    assert StaticAt(Rekeyed(conns, i, addr), k, to);
  }

  lemma ResolvedKeeps(cfg: Config, t: Traced, now: int, later: int, r: ResolveResult, refused: set<nat>)
    requires Inv(cfg, t, now) && now <= later
    ensures Inv(cfg, Traced(ResolveStep(t.s, r, refused), t.logs), later)
  {
    hide Inv;
    InvLater(cfg, t, now, later);
    var s' := ResolveStep(t.s, r, refused);
    if s' != t.s {
      if r.tag == RESOLVE_TAG_TARGET {
        ReconnectKeeps(cfg, t, later, t.s.target.(ip := r.ip), refused);
      } else {
        var i := FindSock(t.s.conns, t.s.bindings[r.tag]).value;
        RekeyKeeps(cfg, t, later, i, t.s.conns[i].addr.(ip := r.ip));
      }
    }
  }

  // ----- the cleanup pass

  /** `j` is the entry that survives as the `k`-th one. */
  ghost predicate Survivor(cfg: Config, conns: seq<Conn>, now: int, k: nat, j: nat) {
    && k < |Swept(cfg, conns, now)| && j < |conns|
    && !Expired(cfg, conns[j], now)
    && Swept(cfg, conns, now)[k] == Ticked(conns[j], now)
  }

  lemma {:induction false} SweptFrom(cfg: Config, conns: seq<Conn>, now: int, k: nat) returns (j: nat)
    requires k < |Swept(cfg, conns, now)|
    ensures Survivor(cfg, conns, now, k, j)
    decreases |conns|
  {
    hide Expired, Ticked;
    if !Expired(cfg, conns[0], now) && k == 0 {
      j := 0;
    } else {
      j := SweptFrom(cfg, conns[1..], now, if Expired(cfg, conns[0], now) then k else k - 1);
      j := j + 1;
    }
  }

  lemma {:induction false} SweptTo(cfg: Config, conns: seq<Conn>, now: int, j: nat) returns (k: nat)
    requires j < |conns| && !Expired(cfg, conns[j], now)
    ensures Survivor(cfg, conns, now, k, j)
    decreases |conns|
  {
    hide Expired, Ticked;
    if j == 0 {
      k := 0;
    } else {
      k := SweptTo(cfg, conns[1..], now, j - 1);
      k := if Expired(cfg, conns[0], now) then k else k + 1;
    }
  }

  lemma {:induction false} SweptUnique(cfg: Config, conns: seq<Conn>, now: int)
    requires Unique(conns)
    ensures Unique(Swept(cfg, conns, now)) && |Swept(cfg, conns, now)| <= |conns|
    decreases |conns|
  {
    if conns != [] {
      var rest := Swept(cfg, conns[1..], now);
      SweptUnique(cfg, conns[1..], now);
      forall k | 0 <= k < |rest| ensures rest[k].addr != conns[0].addr && rest[k].sock != conns[0].sock {
        var j := SweptFrom(cfg, conns[1..], now, k);
        assert conns[1..][j] == conns[j + 1];
      }
      hide Swept, Expired;
      SweptUnfold(cfg, conns, now);
    }
  }

  lemma SweptUnfold(cfg: Config, conns: seq<Conn>, now: int)
    requires conns != []
    ensures Swept(cfg, conns, now) ==
      (if Expired(cfg, conns[0], now) then [] else [Ticked(conns[0], now)]) + Swept(cfg, conns[1..], now)
  {
  }

  lemma TickedOk(cfg: Config, c: Conn, logs: map<nat, seq<Obs>>, lastCleanup: int, now: int, later: int)
    requires ConnOk(cfg, c, logs, lastCleanup, now) && now <= later && !Expired(cfg, c, later)
    ensures ConnOk(cfg, Ticked(c, later), logs, later, later)
  {
    hide Latest, LastAnswer;
  }

  lemma CleanupKeeps(cfg: Config, t: Traced, now: int, later: int, ids: nat -> Txid)
    requires Inv(cfg, t, now) && now <= later
    ensures Inv(cfg, Traced(CleanupStep(cfg, t.s, later, ids).state, t.logs), later)
  {
    if later - t.s.lastCleanup >= ITERATE_INTERVAL {
      hide ConnOk, Swept, Expired, Ticked, Unique, StaticSock;
      var conns := Swept(cfg, t.s.conns, later);
      SweptUnique(cfg, t.s.conns, later);
      forall k | 0 <= k < |conns| ensures ConnOk(cfg, conns[k], t.logs, later, later) {
        var j := SweptFrom(cfg, t.s.conns, later, k);
        TickedOk(cfg, t.s.conns[j], t.logs, t.s.lastCleanup, now, later);
      }
      forall b | 0 <= b < |t.s.bindings| ensures StaticSock(conns, t.s.bindings[b]) {
        StaticSurvives(cfg, t.s.conns, later, t.s.bindings[b]);
      }
    } else {
      InvLater(cfg, t, now, later);
    }
  }

  lemma StaticSurvives(cfg: Config, conns: seq<Conn>, now: int, k: nat)
    requires StaticSock(conns, k)
    ensures StaticSock(Swept(cfg, conns, now), k)
  {
    var j :| StaticAt(conns, k, j);
    var to := SweptTo(cfg, conns, now, j);
    assert StaticAt(Swept(cfg, conns, now), k, to);
  }

  // ----- every run

  lemma StepKeeps(cfg: Config, t: Traced, now: int, m: Moment)
    requires ValidConfig(cfg) && Inv(cfg, t, now) && now <= m.now && ValidEvent(t.s, m.event)
    ensures Inv(cfg, Next(cfg, t, m), m.now)
  {
    hide Inv, ClientStep, ServerStep, ResolveStep, CleanupStep;
    match m.event
    case FromClient(sender, view, len, luck) => ClientKeeps(cfg, t, now, m.now, sender, view, len, luck);
    case FromServer(sock, view, len, luck) => ServerKeeps(cfg, t, now, m.now, sock, view, len, luck);
    case Resolved(result, refused) => ResolvedKeeps(cfg, t, now, m.now, result, refused);
    case Tick(ids) => CleanupKeeps(cfg, t, now, m.now, ids);
  }

  // ----- start-up

  /** The table and the histories after a successful start: every entry is static. */
  ghost predicate Started(cfg: Config, t: Traced, target: Addr, bs: seq<Binding>) {
    && (forall i, j :: 0 <= i < j < |bs| ==> bs[i].sock != bs[j].sock)
    && Boot(cfg, target, bs) == Some(t.s)
    && t.logs == map k | 0 <= k < |bs| :: bs[k].sock := [Created(0)] + [Request(C2S, 0, false)]
  }

  lemma {:induction false} BootedConns(cfg: Config, target: Addr, bs: seq<Binding>)
    requires forall i, j :: 0 <= i < j < |bs| ==> bs[i].sock != bs[j].sock
    requires BootConns(cfg, target, bs).Some?
    ensures var s := BootConns(cfg, target, bs).value;
      && |s.conns| == |bs| <= cfg.maxClients && s.target == target && s.lastCleanup == 0
      && Unique(s.conns)
      && (forall i :: 0 <= i < |bs| ==>
            s.conns[i] == NewStaticConn(cfg, bs[i].addr, bs[i].sock, target, bs[i].connected, bs[i].named))
    decreases |bs|
  {
    if bs != [] {
      BootedConns(cfg, target, bs[..|bs| - 1]);
    }
  }

  lemma {:induction false} NamedAreStatic(conns: seq<Conn>, b: nat)
    requires b < |NamedSocks(conns)|
    ensures StaticSock(conns, NamedSocks(conns)[b])
    decreases |conns|
  {
    if conns[0].isStatic && conns[0].named && b == 0 {
      assert StaticAt(conns, conns[0].sock, 0);
    } else {
      var k := NamedSocks(conns)[b];
      NamedAreStatic(conns[1..], if conns[0].isStatic && conns[0].named then b - 1 else b);
      var i: nat :| StaticAt(conns[1..], k, i);
      assert StaticAt(conns, k, i + 1);
    }
  }

  lemma StaticConnOk(cfg: Config, b: Binding, target: Addr, logs: map<nat, seq<Obs>>)
    requires ValidConfig(cfg) && !cfg.allowClean && b.sock in logs && logs[b.sock] == [Created(0)] + [Request(C2S, 0, false)]
    ensures ConnOk(cfg, NewStaticConn(cfg, b.addr, b.sock, target, b.connected, b.named), logs, 0, 0)
  {
    FirstRequest(0, false);
    hide Latest, LastAnswer;
  }

  lemma StartHolds(cfg: Config, t: Traced, target: Addr, bs: seq<Binding>)
    requires ValidConfig(cfg) && Started(cfg, t, target, bs)
    ensures Inv(cfg, t, 0)
  {
    hide ConnOk, NewStaticConn, BootConns;
    BootedConns(cfg, target, bs);
    forall i | 0 <= i < |t.s.conns| ensures ConnOk(cfg, t.s.conns[i], t.logs, 0, 0) {
      assert bs[i].sock in t.logs;
      StaticConnOk(cfg, bs[i], target, t.logs);
    }
    forall b | 0 <= b < |t.s.bindings| ensures StaticSock(t.s.conns, t.s.bindings[b]) {
      NamedAreStatic(t.s.conns, b);
    }
  }

  // ----- every run

  ghost predicate IsRun(cfg: Config, ts: seq<Traced>, ms: seq<Moment>)
    requires ValidConfig(cfg)
  {
    && |ts| == |ms| + 1
    && (exists target, bs :: Started(cfg, ts[0], target, bs))
    && (forall i, j :: 0 <= i <= j < |ms| ==> 0 <= ms[i].now <= ms[j].now)
    && (forall i :: 0 <= i < |ms| ==> ValidEvent(ts[i].s, ms[i].event))
    && (forall i :: 0 <= i < |ms| ==> ts[i + 1] == Next(cfg, ts[i], ms[i]))
  }

  ghost function TimeAt(ms: seq<Moment>, n: nat): int
    requires n <= |ms|
  {
    if n == 0 then 0 else ms[n - 1].now
  }

  lemma {:induction false} Always(cfg: Config, ts: seq<Traced>, ms: seq<Moment>, n: nat)
    requires ValidConfig(cfg) && IsRun(cfg, ts, ms) && n <= |ms|
    ensures Inv(cfg, ts[n], TimeAt(ms, n))
  {
    hide Inv, Next, Started;
    if n == 0 {
      var target, bs :| Started(cfg, ts[0], target, bs);
      StartHolds(cfg, ts[0], target, bs);
    } else {
      Always(cfg, ts, ms, n - 1);
      StepKeeps(cfg, ts[n - 1], TimeAt(ms, n - 1), ms[n - 1]);
    }
  }
}
