/** Consequences for whole runs: handshakes, timeouts, versions, masking, clean clients, resolver results. */
module RelayTheorems {
  import opened Bytes
  import opened Net
  import opened Keystream
  import opened Codec
  import opened Stun
  import opened Masking
  import opened RelaySpec
  import opened RelayCases
  import opened RelayInvariants

  // ----- every state of every run

  /**
   * An entry counts as handshaked exactly when some response answered the latest request of its history, from the
   * other side and at most 5000 ms later. A static entry's history starts with a request that never came.
   */
  lemma HandshakeHistory(cfg: Config, ts: seq<Traced>, ms: seq<Moment>, n: nat, i: nat)
    requires ValidConfig(cfg) && IsRun(cfg, ts, ms) && n <= |ms| && i < |ts[n].s.conns|
    ensures var c, logs := ts[n].s.conns[i], ts[n].logs;
      && c.sock in logs
      && (c.handshaked <==> Justified(logs[c.sock]))
      && var r := Latest(logs[c.sock], Requests); r.Some? && r.value.from == c.dir && r.value.at == c.lastRequest
  {
    Always(cfg, ts, ms, n);
    LogAlways(cfg, ts, ms, n, i);
    LastAnswerExactly(ts[n].logs[ts[n].s.conns[i].sock]);
  }

  lemma LogAlways(cfg: Config, ts: seq<Traced>, ms: seq<Moment>, n: nat, i: nat)
    requires ValidConfig(cfg) && IsRun(cfg, ts, ms) && n <= |ms| && i < |ts[n].s.conns|
    ensures var c, logs := ts[n].s.conns[i], ts[n].logs; c.sock in logs && LogOk(cfg, c, logs[c.sock])
  {
    hide LogOk, Next, Started;
    Always(cfg, ts, ms, n);
    assert ConnOk(cfg, ts[n].s.conns[i], ts[n].logs, ts[n].s.lastCleanup, TimeAt(ms, n));
  }

  /**
   * The last response that answered says when the handshake was, and which sides are obfuscated: the client from its own
   * response, or from a plain response of the target unless the client was clean then.
   */
  lemma SidesHistory(cfg: Config, ts: seq<Traced>, ms: seq<Moment>, n: nat, i: nat, j: nat)
    requires ValidConfig(cfg) && IsRun(cfg, ts, ms) && n <= |ms| && i < |ts[n].s.conns|
    requires var c, logs := ts[n].s.conns[i], ts[n].logs;
      c.sock in logs && AnsweredAt(logs[c.sock], j) && forall k :: j < k < |logs[c.sock]| ==> !AnsweredAt(logs[c.sock], k)
    ensures var c, log := ts[n].s.conns[i], ts[n].logs[ts[n].s.conns[i].sock];
      log[j].Response? && SidesBy(cfg, log, j, c)
  {
    hide Next, Started, LastAnswer, SidesBy;
    LogAlways(cfg, ts, ms, n, i);
    var c := ts[n].s.conns[i];
    var log := ts[n].logs[c.sock];
    LastAnswerExactly(log);
    assert LastAnswer(log) == Some(j);
    assert Agreed(cfg, c, log);
  }

  /** An entry is clean if and only if that is allowed and the latest handshake of its client came in plain. */
  lemma CleanHistory(cfg: Config, ts: seq<Traced>, ms: seq<Moment>, n: nat, i: nat)
    requires ValidConfig(cfg) && IsRun(cfg, ts, ms) && n <= |ms| && i < |ts[n].s.conns|
    ensures var c, logs := ts[n].s.conns[i], ts[n].logs;
      && c.sock in logs
      && var r := Latest(logs[c.sock], ClientRequests); c.clean <==> cfg.allowClean && r.Some? && r.value.plain
  {
    hide Next, Started, Agreed;
    LogAlways(cfg, ts, ms, n, i);
  }

  /** The clocks of an entry are those of the last packet sent on, and of the last one sent on from the target. */
  lemma ClockHistory(cfg: Config, ts: seq<Traced>, ms: seq<Moment>, n: nat, i: nat)
    requires ValidConfig(cfg) && IsRun(cfg, ts, ms) && n <= |ms| && i < |ts[n].s.conns|
    ensures var c, logs := ts[n].s.conns[i], ts[n].logs;
      && c.sock in logs
      && var last, heard := Latest(logs[c.sock], Signs), Latest(logs[c.sock], TargetSigns);
      && last.Some? && (last.value.Sent? || last.value.Created?) && c.lastActivity == last.value.at
      && (heard.Some? ==> heard.value.Sent? && heard.value.from == S2C)
      && c.lastIncoming == if heard.Some? then heard.value.at else 0
  {
    hide Next, Started, Agreed;
    LogAlways(cfg, ts, ms, n, i);
  }

  lemma FlagsInEveryState(cfg: Config, ts: seq<Traced>, ms: seq<Moment>, n: nat, i: nat)
    requires ValidConfig(cfg) && IsRun(cfg, ts, ms) && n <= |ms| && i < |ts[n].s.conns|
    ensures var c, now := ts[n].s.conns[i], TimeAt(ms, n);
      && !(c.clientObf && c.serverObf)
      && (c.handshaked && !cfg.allowClean ==> c.clientObf != c.serverObf)
      && (c.clean ==> cfg.allowClean && !c.isStatic && c.mask == NoMask)
      && c.version <= OBFUSCATION_VERSION
      && 0 <= c.lastActivity <= now && 0 <= c.lastIncoming <= now && 0 <= c.lastRequest <= now
      && 0 <= c.lastHandshake <= now && 0 <= c.lastTimer <= now
  {
    Always(cfg, ts, ms, n);
    assert ConnOk(cfg, ts[n].s.conns[i], ts[n].logs, ts[n].s.lastCleanup, TimeAt(ms, n));
  }

  /** The table never outgrows its limit; addresses and sockets stay distinct; every resolver binding is alive. */
  lemma TableInEveryState(cfg: Config, ts: seq<Traced>, ms: seq<Moment>, n: nat)
    requires ValidConfig(cfg) && IsRun(cfg, ts, ms) && n <= |ms|
    ensures |ts[n].s.conns| <= cfg.maxClients
    ensures forall i, j :: 0 <= i < j < |ts[n].s.conns| ==>
      ts[n].s.conns[i].addr != ts[n].s.conns[j].addr && ts[n].s.conns[i].sock != ts[n].s.conns[j].sock
    ensures forall b :: 0 <= b < |ts[n].s.bindings| ==>
      var i := FindSock(ts[n].s.conns, ts[n].s.bindings[b]); i.Some? && ts[n].s.conns[i.value].isStatic
  {
    Always(cfg, ts, ms, n);
    forall b | 0 <= b < |ts[n].s.bindings|
      ensures var i := FindSock(ts[n].s.conns, ts[n].s.bindings[b]); i.Some? && ts[n].s.conns[i.value].isStatic
    {
      assert StaticSock(ts[n].s.conns, ts[n].s.bindings[b]);
      var j: nat :| StaticAt(ts[n].s.conns, ts[n].s.bindings[b], j);
    }
  }

  /** After a tick no dynamic entry is older than its timeout by a whole cleanup interval. */
  lemma TimelyAfterTick(cfg: Config, ts: seq<Traced>, ms: seq<Moment>, n: nat, i: nat)
    requires ValidConfig(cfg) && IsRun(cfg, ts, ms) && 0 < n <= |ms| && i < |ts[n].s.conns|
    requires ms[n - 1].event.Tick? && !ts[n].s.conns[i].isStatic
    ensures var c, now := ts[n].s.conns[i], ms[n - 1].now;
      && now - c.lastActivity < cfg.idleTimeout + ITERATE_INTERVAL
      && (!c.handshaked ==> now - c.lastActivity < HANDSHAKE_TIMEOUT + ITERATE_INTERVAL)
      && (cfg.inTimeout > 0 ==>
            || now - c.lastIncoming < cfg.inTimeout + ITERATE_INTERVAL
            || CreatedAt(ts[n], c) >= ts[n].s.lastCleanup)
  {
    Always(cfg, ts, ms, n);
    assert ConnOk(cfg, ts[n].s.conns[i], ts[n].logs, ts[n].s.lastCleanup, TimeAt(ms, n));
    LastCleanupRecent(cfg, ts[n - 1], ms[n - 1]);
  }

  ghost function CreatedAt(t: Traced, c: Conn): int {
    if c.sock in t.logs && t.logs[c.sock] != [] && t.logs[c.sock][0].Created? then t.logs[c.sock][0].at else 0
  }

  lemma LastCleanupRecent(cfg: Config, t: Traced, m: Moment)
    requires ValidConfig(cfg) && ValidEvent(t.s, m.event) && m.event.Tick?
    ensures m.now - Next(cfg, t, m).s.lastCleanup < ITERATE_INTERVAL
  {
  }

  // ----- from one state to the next

  /** A live entry keeps its identity, its handshake and its clocks; its version only falls. */
  lemma StepEvolves(cfg: Config, t: Traced, now: int, m: Moment, i: nat, j: nat)
    requires ValidConfig(cfg) && Inv(cfg, t, now) && now <= m.now && ValidEvent(t.s, m.event)
    requires i < |t.s.conns| && j < |Next(cfg, t, m).s.conns| && t.s.conns[i].sock == Next(cfg, t, m).s.conns[j].sock
    ensures Evolves(t.s.conns[i], Next(cfg, t, m).s.conns[j]) && MaskKept(t.s.conns[i], Next(cfg, t, m).s.conns[j])
  {
    hide Inv, Evolves, MaskKept, ClientStep, ServerStep, ResolveStep, CleanupStep, NextLogs;
    InvLater(cfg, t, now, m.now);
    match m.event
    case FromClient(sender, view, len, luck) =>
      ClientEvolves(cfg, t, m.now, sender, view, len, luck, i, j);
    case FromServer(sock, view, len, luck) =>
      ServerEvolves(cfg, t, m.now, sock, view, len, luck, i, j);
    case Resolved(result, refused) =>
      ResolvedEvolves(cfg, t, m.now, result, refused, i, j);
    case Tick(ids) =>
      TickEvolves(cfg, t, m.now, ids, i, j);
  }

  lemma TickEvolves(cfg: Config, t: Traced, now: int, ids: nat -> Txid, i: nat, j: nat)
    requires Inv(cfg, t, now)
    requires var after := CleanupStep(cfg, t.s, now, ids).state.conns;
      i < |t.s.conns| && j < |after| && t.s.conns[i].sock == after[j].sock
    ensures var after := CleanupStep(cfg, t.s, now, ids).state.conns;
      Evolves(t.s.conns[i], after[j]) && MaskKept(t.s.conns[i], after[j])
  {
    hide ConnOk, BindingsOk;
    if now - t.s.lastCleanup >= ITERATE_INTERVAL {
      var k := SweptFrom(cfg, t.s.conns, now, j);
      assert k == i;
    }
  }

  lemma UpdatedEvolves(cfg: Config, conns: seq<Conn>, at: nat, d: Conn, now: int, i: nat, j: nat)
    requires Unique(conns) && at < |conns| && i < |conns| && j < |conns|
    requires Sound(cfg, conns[at], d, now)
    requires conns[i].sock == conns[at := d][j].sock
    ensures Evolves(conns[i], conns[at := d][j]) && MaskKept(conns[i], conns[at := d][j])
  {
    hide FlagsOk, TimesOk;
    assert i == j;
  }

  lemma SoundAfterPacket(cfg: Config, t: Traced, now: int, i: nat, packet: seq<byte>, obfuscated: bool, version: nat, sent: bool, from: Dir)
    requires Inv(cfg, t, now) && i < |t.s.conns| && |packet| >= 4
    ensures var r := Accept(cfg, t.s.conns[i], now, WgType(packet), obfuscated, version, from);
      r.Some? ==> Sound(cfg, t.s.conns[i], Touched(r.value, now, sent, from), now)
  {
    hide Sound, Touched, WgType, Gate, Downgraded;
    ConnOf(cfg, t, i, now);
    AcceptSound(cfg, t.s.conns[i], now, WgType(packet), obfuscated, version, from);
    var r := Accept(cfg, t.s.conns[i], now, WgType(packet), obfuscated, version, from);
    if r.Some? { TouchedSound(cfg, t.s.conns[i], r.value, now, sent, from); }
  }

  lemma ClientEvolves(cfg: Config, t: Traced, now: int, sender: Addr, view: seq<byte>, len: nat, luck: Luck, i: nat, j: nat)
    requires ValidConfig(cfg) && Inv(cfg, t, now) && ValidEvent(t.s, FromClient(sender, view, len, luck))
    requires var after := ClientStep(cfg, t.s, now, sender, view, len, luck).state.conns;
      i < |t.s.conns| && j < |after| && t.s.conns[i].sock == after[j].sock
    ensures var after := ClientStep(cfg, t.s, now, sender, view, len, luck).state.conns;
      Evolves(t.s.conns[i], after[j]) && MaskKept(t.s.conns[i], after[j])
  {
    hide Sound, ClientIngress, Accept, WgType, Outgoing, ConnOk, BindingsOk;
    var at := FindAddr(t.s.conns, sender);
    var known := if at.Some? then Some(t.s.conns[at.value]) else None;
    if len <= BUFFER_SIZE {
      ClientIngressFits(cfg, known, view, len, sender);
      var g := ClientIngress(cfg, known, view, len, sender);
      if g.Accepted? && at.Some? {
        SoundAfterPacket(cfg, t, now, at.value, g.packet, g.obfuscated, g.version, luck.sent, C2S);
        var r := Accept(cfg, t.s.conns[at.value], now, WgType(g.packet), g.obfuscated, g.version, C2S);
        if r.Some? {
          UpdatedEvolves(cfg, t.s.conns, at.value, Touched(r.value, now, luck.sent, C2S), now, i, j);
        }
      } else if g.Accepted? && Admitted(cfg, t.s, g.packet, luck) {
        CreatedSock(cfg, t.s, now, sender, g, luck);
      }
    }
  }

  /** The new entry is appended; the others are as they were. */
  lemma CreatedSock(cfg: Config, s: State, now: int, sender: Addr, g: Ingress, luck: Luck)
    requires ValidConfig(cfg) && g.Accepted? && 4 <= |g.packet| <= BUFFER_SIZE && Admitted(cfg, s, g.packet, luck)
    ensures var c := NewConn(sender, luck.sock.value, s.target, luck.connected, g.mask, now);
      var after := ClientForward(cfg, s.(conns := s.conns + [c]), |s.conns|, now, g.packet, g.obfuscated, g.version, luck).state.conns;
      && |after| == |s.conns| + 1 && after[..|s.conns|] == s.conns && after[|s.conns|].sock == luck.sock.value
      && after[|s.conns|].mask == (if cfg.allowClean && !g.obfuscated then NoMask else g.mask)
      && after[|s.conns|].addr == sender
  {
    hide WgType, Outgoing;
  }

  lemma ServerEvolves(cfg: Config, t: Traced, now: int, sock: nat, view: seq<byte>, len: nat, luck: Luck, i: nat, j: nat)
    requires ValidConfig(cfg) && Inv(cfg, t, now) && ValidEvent(t.s, FromServer(sock, view, len, luck))
    requires var after := ServerStep(cfg, t.s, now, sock, view, len, luck).state.conns;
      i < |t.s.conns| && j < |after| && t.s.conns[i].sock == after[j].sock
    ensures var after := ServerStep(cfg, t.s, now, sock, view, len, luck).state.conns;
      Evolves(t.s.conns[i], after[j]) && MaskKept(t.s.conns[i], after[j])
  {
    hide Sound, ServerIngress, Accept, WgType, Outgoing, ConnOk, BindingsOk;
    var at := FindSock(t.s.conns, sock);
    if len <= BUFFER_SIZE && at.Some? {
      ServerIngressFits(cfg, t.s.conns[at.value], view, len, t.s.target);
      var g := ServerIngress(cfg, t.s.conns[at.value], view, len, t.s.target);
      if g.Accepted? {
        SoundAfterPacket(cfg, t, now, at.value, g.packet, g.obfuscated, g.version, luck.sent, S2C);
        var r := Accept(cfg, t.s.conns[at.value], now, WgType(g.packet), g.obfuscated, g.version, S2C);
        if r.Some? {
          UpdatedEvolves(cfg, t.s.conns, at.value, Touched(r.value, now, luck.sent, S2C), now, i, j);
        }
      }
    }
  }

  lemma RekeyEvolves(conns: seq<Conn>, at: nat, addr: Addr, i: nat, j: nat)
    requires Unique(conns) && at < |conns| && conns[at].isStatic && i < |conns| && j < |conns|
    requires conns[i].sock == Rekeyed(conns, at, addr)[j].sock
    ensures Evolves(conns[i], Rekeyed(conns, at, addr)[j]) && MaskKept(conns[i], Rekeyed(conns, at, addr)[j])
  {
    hide Rekeyed;
    RekeyedAt(conns, at, addr, j);
    assert CameFrom(|conns|, at, j) == i;
  }

  lemma ReconnectEvolves(conns: seq<Conn>, target: Addr, refused: set<nat>, i: nat, j: nat)
    requires Unique(conns) && i < |conns| && j < |conns| && conns[i].sock == Reconnected(conns, target, refused)[j].sock
    ensures Evolves(conns[i], Reconnected(conns, target, refused)[j]) && MaskKept(conns[i], Reconnected(conns, target, refused)[j])
  {
  }

  lemma ResolvedEvolves(cfg: Config, t: Traced, now: int, r: ResolveResult, refused: set<nat>, i: nat, j: nat)
    requires Inv(cfg, t, now)
    requires var after := ResolveStep(t.s, r, refused).conns;
      i < |t.s.conns| && j < |after| && t.s.conns[i].sock == after[j].sock
    ensures var after := ResolveStep(t.s, r, refused).conns;
      Evolves(t.s.conns[i], after[j]) && MaskKept(t.s.conns[i], after[j])
  {
    hide ConnOk, BindingsOk, Evolves, MaskKept, Reconnected;
    var s' := ResolveStep(t.s, r, refused);
    if s' == t.s {
      SelfEvolves(t.s.conns, i, j);
    } else if r.tag == RESOLVE_TAG_TARGET {
      ReconnectEvolves(t.s.conns, t.s.target.(ip := r.ip), refused, i, j);
    } else {
      var at := FindSock(t.s.conns, t.s.bindings[r.tag]).value;
      RekeyEvolves(t.s.conns, at, t.s.conns[at].addr.(ip := r.ip), i, j);
    }
  }

  lemma SelfEvolves(conns: seq<Conn>, i: nat, j: nat)
    requires Unique(conns) && i < |conns| && j < |conns| && conns[i].sock == conns[j].sock
    ensures Evolves(conns[i], conns[j]) && MaskKept(conns[i], conns[j])
  {
  }

  // ----- along a run, for as long as the entry lives

  ghost predicate LivesThrough(ts: seq<Traced>, a: nat, b: nat, sock: nat) {
    a <= b < |ts| && forall n :: a <= n <= b ==> FindSock(ts[n].s.conns, sock).Some?
  }

  ghost function EntryOf(s: State, sock: nat): (c: Conn)
    requires FindSock(s.conns, sock).Some?
    ensures c.sock == sock
  {
    s.conns[FindSock(s.conns, sock).value]
  }

  lemma EntryStep(cfg: Config, ts: seq<Traced>, ms: seq<Moment>, n: nat, sock: nat)
    requires ValidConfig(cfg) && IsRun(cfg, ts, ms) && n < |ms|
    requires FindSock(ts[n].s.conns, sock).Some? && FindSock(ts[n + 1].s.conns, sock).Some?
    ensures Evolves(EntryOf(ts[n].s, sock), EntryOf(ts[n + 1].s, sock))
    ensures MaskKept(EntryOf(ts[n].s, sock), EntryOf(ts[n + 1].s, sock))
  {
    hide Inv, Evolves, MaskKept, Next, Started;
    Always(cfg, ts, ms, n);
    StepEvolves(cfg, ts[n], TimeAt(ms, n), ms[n], FindSock(ts[n].s.conns, sock).value, FindSock(ts[n + 1].s.conns, sock).value);
  }

  /** Once handshaked always handshaked, the version never rises, and no clock runs backwards. */
  lemma {:induction false} RunEvolves(cfg: Config, ts: seq<Traced>, ms: seq<Moment>, a: nat, b: nat, sock: nat)
    requires ValidConfig(cfg) && IsRun(cfg, ts, ms) && LivesThrough(ts, a, b, sock)
    ensures Evolves(EntryOf(ts[a].s, sock), EntryOf(ts[b].s, sock))
    decreases b - a
  {
    hide IsRun;
    if a < b {
      RunEvolves(cfg, ts, ms, a, b - 1, sock);
      RunLength(cfg, ts, ms);
      EntryStep(cfg, ts, ms, b - 1, sock);
    }
  }

  lemma RunLength(cfg: Config, ts: seq<Traced>, ms: seq<Moment>)
    requires ValidConfig(cfg) && IsRun(cfg, ts, ms)
    ensures |ts| == |ms| + 1
  {
  }

  /** The mask an entry is created with stays for its life, unless its client is found to be clean. */
  lemma {:induction false} MaskStays(cfg: Config, ts: seq<Traced>, ms: seq<Moment>, a: nat, b: nat, sock: nat)
    requires ValidConfig(cfg) && IsRun(cfg, ts, ms) && LivesThrough(ts, a, b, sock)
    requires forall n :: a < n <= b ==> !EntryOf(ts[n].s, sock).clean
    ensures EntryOf(ts[b].s, sock).mask == EntryOf(ts[a].s, sock).mask
    decreases b - a
  {
    hide IsRun, Evolves;
    if a < b {
      MaskStays(cfg, ts, ms, a, b - 1, sock);
      RunLength(cfg, ts, ms);
      EntryStep(cfg, ts, ms, b - 1, sock);
    }
  }

  // ----- versions

  /** At version 0 what goes out is the bare keystream, without random byte or padding, and of unchanged length. */
  lemma BareAtVersionZero(cfg: Config, c: Conn, packet: seq<byte>, luck: Luck)
    requires ValidConfig(cfg) && 4 <= |packet| <= BUFFER_SIZE && c.version == 0 && !c.clean
    ensures |XorStream(cfg.key, packet)| == |packet|
    ensures Outgoing(cfg, c, packet, false, luck) == WrapData(c.mask, XorStream(cfg.key, packet), luck.wrapId)
  {
    hide XorStream;
  }

  /** A packet encoded under the same key opens to itself; the version of the entry changes only for version 0. */
  lemma OpensToItself(cfg: Config, p: seq<byte>, version: nat, maxData: nat, dice: Dice, mask: Mask, v0: nat)
    requires ValidConfig(cfg) && WgPacket(p)
    ensures Open(cfg, Payload(Encode(cfg.key, p, version, maxData, dice)), mask, v0)
         == Accepted(p, true, if version == 0 then 0 else v0, mask)
  {
    hide Encode, Decode;
    RoundTrip(cfg.key, p, version, maxData, dice, v0);
  }

  /** So version-1 traffic never downgrades an entry, and version-0 traffic always does. */
  lemma DowngradeExactly(cfg: Config, c: Conn, p: seq<byte>, version: nat, maxData: nat, dice: Dice)
    requires ValidConfig(cfg) && WgPacket(p)
    ensures var g := Open(cfg, Payload(Encode(cfg.key, p, version, maxData, dice)), c.mask, c.version);
      g.Accepted? && Downgraded(c, g.version) == if version == 0 then c.(version := 0) else c
  {
    hide Encode, Open;
    OpensToItself(cfg, p, version, maxData, dice, c.mask, c.version);
  }

  // ----- forwarding

  /** Besides handshakes and their responses only packets of an entry that was already handshaked are forwarded. */
  lemma ForwardedOnlyAfterHandshake(cfg: Config, s: State, now: int, e: Event)
    requires ValidConfig(cfg) && ValidEvent(s, e) && Step(cfg, s, now, e).forwarded.Some?
    ensures var r := Carries(cfg, s, now, e);
      && r.Some?
      && var a := r.value;
      && (WgType(a.packet) in {WG_TYPE_HANDSHAKE, WG_TYPE_HANDSHAKE_RESP} || a.Entry().handshaked)
      && (WgType(a.packet) != WG_TYPE_HANDSHAKE ==> a.t == s)
      && (WgType(a.packet) == WG_TYPE_HANDSHAKE_RESP ==>
            && now - a.Entry().lastRequest <= HANDSHAKE_TIMEOUT
            && a.Entry().dir == if a.from == C2S then S2C else C2S)
  {
    hide ClientIngress, ServerIngress, WgType, Outgoing, Downgraded, Step, FindAddr, FindSock, Probes;
    StepCases(cfg, s, now, e);
  }

  // ----- resolver results

  /** A binding moves exactly when the result is good, the address is new for it and no entry has it. */
  lemma RekeyExactly(s: State, r: ResolveResult, refused: set<nat>)
    requires Unique(s.conns) && 0 <= r.tag < |s.bindings|
    requires FindSock(s.conns, s.bindings[r.tag]).Some? && EntryOf(s, s.bindings[r.tag]).isStatic
    ensures var c := EntryOf(s, s.bindings[r.tag]);
      ResolveStep(s, r, refused) != s <==> r.err == 0 && c.addr.ip != r.ip && FindAddr(s.conns, c.addr.(ip := r.ip)).None?
  {
    var i := FindSock(s.conns, s.bindings[r.tag]).value;
    var c := s.conns[i];
    if r.err == 0 && c.addr.ip != r.ip && FindAddr(s.conns, c.addr.(ip := r.ip)).None? {
      var after := ResolveStep(s, r, refused).conns;
      assert after[|s.conns| - 1] == c.(addr := c.addr.(ip := r.ip));
      assert s.conns[|s.conns| - 1].addr != c.addr.(ip := r.ip);
    }
  }

  /** Everything but the address of a static entry, and the peers. */
  ghost predicate SameButAddress(c: Conn, d: Conn) {
    d == c.(peer := d.peer, addr := d.addr) && d.addr.port == c.addr.port && (!c.isStatic ==> d.addr == c.addr)
  }

  /** One result keeps the number of entries, their distinctness, and all but a static address and the peers. */
  lemma ResolveKeeps(s: State, r: ResolveResult, refused: set<nat>)
    requires Unique(s.conns)
    ensures var s' := ResolveStep(s, r, refused);
      && |s'.conns| == |s.conns| && Unique(s'.conns) && s'.bindings == s.bindings && s'.lastCleanup == s.lastCleanup
      && forall k :: FindSock(s.conns, k).Some? ==>
           FindSock(s'.conns, k).Some? && SameButAddress(EntryOf(s, k), EntryOf(s', k))
  {
    var s' := ResolveStep(s, r, refused);
    if s' != s {
      if r.tag == RESOLVE_TAG_TARGET {
        forall k | FindSock(s.conns, k).Some?
          ensures FindSock(s'.conns, k).Some? && SameButAddress(EntryOf(s, k), EntryOf(s', k))
        {
          AtSock(s'.conns, k, FindSock(s.conns, k).value);
        }
      } else {
        var i := FindSock(s.conns, s.bindings[r.tag]).value;
        var addr := s.conns[i].addr.(ip := r.ip);
        assert s'.conns == Rekeyed(s.conns, i, addr);
        RekeyKeepsTable(s.conns, i, addr);
        forall k | FindSock(s.conns, k).Some?
          ensures FindSock(s'.conns, k).Some? && SameButAddress(EntryOf(s, k), EntryOf(s', k))
        {
          RekeyedEntry(s.conns, i, addr, k);
        }
      }
    }
  }

  lemma AtSock(conns: seq<Conn>, k: nat, j: nat)
    requires Unique(conns) && j < |conns| && conns[j].sock == k
    ensures FindSock(conns, k) == Some(j)
  {
  }

  lemma RekeyKeepsTable(conns: seq<Conn>, i: nat, addr: Addr)
    requires Unique(conns) && i < |conns| && FindAddr(conns, addr).None?
    ensures Unique(Rekeyed(conns, i, addr))
  {
    hide Rekeyed;
    var after := Rekeyed(conns, i, addr);
    forall j | 0 <= j < |after|
      ensures after[j] == if CameFrom(|conns|, i, j) == i then conns[i].(addr := addr) else conns[CameFrom(|conns|, i, j)]
    {
      RekeyedAt(conns, i, addr, j);
    }
  }

  lemma RekeyedEntry(conns: seq<Conn>, i: nat, addr: Addr, k: nat)
    requires Unique(conns) && i < |conns| && FindAddr(conns, addr).None? && FindSock(conns, k).Some?
    ensures var j, after := FindSock(conns, k).value, Rekeyed(conns, i, addr);
      && FindSock(after, k).Some?
      && after[FindSock(after, k).value] == if j == i then conns[i].(addr := addr) else conns[j]
  {
    var j, after := FindSock(conns, k).value, Rekeyed(conns, i, addr);
    RekeyKeepsTable(conns, i, addr);
    var to: nat := if j < i then j else if j == i then |conns| - 1 else j - 1;
    RekeyedAt(conns, i, addr, to);
    AtSock(after, k, to);
  }

  /** A moved entry is found under its new address, and nothing is found under the old one. */
  lemma RekeyedFound(s: State, r: ResolveResult, refused: set<nat>)
    requires Unique(s.conns) && 0 <= r.tag < |s.bindings|
    requires FindSock(s.conns, s.bindings[r.tag]).Some? && ResolveStep(s, r, refused) != s
    ensures var k, s' := s.bindings[r.tag], ResolveStep(s, r, refused);
      && FindAddr(s'.conns, EntryOf(s, k).addr).None?
      && FindAddr(s'.conns, EntryOf(s, k).addr.(ip := r.ip)).Some?
      && s'.conns[FindAddr(s'.conns, EntryOf(s, k).addr.(ip := r.ip)).value].sock == k
  {
    var i := FindSock(s.conns, s.bindings[r.tag]).value;
    var addr := s.conns[i].addr.(ip := r.ip);
    var after := ResolveStep(s, r, refused).conns;
    assert after == Rekeyed(s.conns, i, addr);
    RekeyKeepsTable(s.conns, i, addr);
    RekeyedAt(s.conns, i, addr, |after| - 1);
    forall j | 0 <= j < |after| ensures after[j].addr != s.conns[i].addr { RekeyedAt(s.conns, i, addr, j); }
  }

  lemma {:induction false} DrainKeeps(s: State, queue: seq<Resolution>)
    requires Unique(s.conns)
    ensures var s' := Drained(s, queue);
      && |s'.conns| == |s.conns| && Unique(s'.conns) && s'.bindings == s.bindings && s'.lastCleanup == s.lastCleanup
      && forall k :: FindSock(s.conns, k).Some? ==>
           FindSock(s'.conns, k).Some? && SameButAddress(EntryOf(s, k), EntryOf(s', k))
    decreases |queue|
  {
    hide Unique, ResolveStep, SameButAddress, EntryOf;
    if queue == [] {
      forall k | FindSock(s.conns, k).Some? ensures SameButAddress(EntryOf(s, k), EntryOf(s, k)) { SameItself(s, k); }
    } else {
      var mid := ResolveStep(s, queue[0].result, queue[0].refused);
      ResolveKeeps(s, queue[0].result, queue[0].refused);
      DrainKeeps(mid, queue[1..]);
      var s' := Drained(s, queue);
      forall k | FindSock(s.conns, k).Some? ensures FindSock(s'.conns, k).Some? && SameButAddress(EntryOf(s, k), EntryOf(s', k)) {
        SameTransitive(EntryOf(s, k), EntryOf(mid, k), EntryOf(s', k));
      }
    }
  }

  /** Some good result of the queue was for the binding on socket `k`, and brought `ip`. */
  ghost predicate Resolves(s: State, queue: seq<Resolution>, k: nat, ip: Ip) {
    exists n :: 0 <= n < |queue| && BringsTo(s, queue[n].result, k, ip)
  }

  ghost predicate BringsTo(s: State, r: ResolveResult, k: nat, ip: Ip) {
    r.err == 0 && r.ip == ip && 0 <= r.tag < |s.bindings| && s.bindings[r.tag] == k
  }

  /** After the queue an entry has the address it had, or its own port at one that a good result brought it. */
  lemma {:induction false} DrainAddress(s: State, queue: seq<Resolution>, k: nat)
    requires Unique(s.conns) && FindSock(s.conns, k).Some?
    ensures var s' := Drained(s, queue);
      && FindSock(s'.conns, k).Some?
      && var a, b := EntryOf(s, k).addr, EntryOf(s', k).addr;
      && (b == a || (b == a.(ip := b.ip) && Resolves(s, queue, k, b.ip)))
    decreases |queue|
  {
    hide Unique, ResolveStep, EntryOf;
    if queue != [] {
      var r := queue[0];
      var mid := ResolveStep(s, r.result, r.refused);
      ResolveKeeps(s, r.result, r.refused);
      ResolveAddress(s, r.result, r.refused, k);
      DrainAddress(mid, queue[1..], k);
      var ip := EntryOf(Drained(s, queue), k).addr.ip;
      if BringsTo(s, r.result, k, ip) {
        assert BringsTo(s, queue[0].result, k, ip);
      }
      if Resolves(mid, queue[1..], k, ip) {
        var n :| 0 <= n < |queue[1..]| && BringsTo(mid, queue[1..][n].result, k, ip);
        assert BringsTo(s, queue[n + 1].result, k, ip);
      }
    }
  }

  lemma ResolveAddress(s: State, r: ResolveResult, refused: set<nat>, k: nat)
    requires Unique(s.conns) && FindSock(s.conns, k).Some?
    ensures var s' := ResolveStep(s, r, refused);
      && FindSock(s'.conns, k).Some?
      && var a, b := EntryOf(s, k).addr, EntryOf(s', k).addr;
      && (b == a || (b == a.(ip := r.ip) && BringsTo(s, r, k, r.ip)))
  {
    hide Rekeyed;
    ResolveKeeps(s, r, refused);
    if r.err == 0 && r.tag == RESOLVE_TAG_TARGET {
      var j, after := FindSock(s.conns, k).value, ResolveStep(s, r, refused).conns;
      assert after[j].sock == k && after[j].addr == s.conns[j].addr;
      AtSock(after, k, j);
      return;
    }
    var i := if 0 <= r.tag < |s.bindings| then FindSock(s.conns, s.bindings[r.tag]) else None;
    if i.Some? && FindAddr(s.conns, s.conns[i.value].addr.(ip := r.ip)).None? {
      RekeyedEntry(s.conns, i.value, s.conns[i.value].addr.(ip := r.ip), k);
    }
  }

  /** Under that address it is found, and under no other. */
  lemma FoundOnlyThere(s: State, queue: seq<Resolution>, k: nat, a: Addr)
    requires Unique(s.conns) && FindSock(s.conns, k).Some?
    ensures var s' := Drained(s, queue);
      && FindSock(s'.conns, k).Some?
      && var i := FindAddr(s'.conns, a);
      && ((i.Some? && s'.conns[i.value].sock == k) <==> a == EntryOf(s', k).addr)
  {
    hide Drained;
    DrainKeeps(s, queue);
  }

  lemma SameItself(s: State, k: nat)
    requires FindSock(s.conns, k).Some?
    ensures SameButAddress(EntryOf(s, k), EntryOf(s, k))
  {
  }

  lemma SameTransitive(c: Conn, d: Conn, e: Conn)
    requires SameButAddress(c, d) && SameButAddress(d, e)
    ensures SameButAddress(c, e)
  {
  }

  // ----- the peers follow the target

  ghost predicate PeersAtTarget(s: State) {
    forall i :: 0 <= i < |s.conns| ==> s.conns[i].peer == Some(s.target)
  }

  ghost predicate ConnectsSucceed(e: Event) {
    match e
    case FromClient(_, _, _, luck) => luck.connected
    case Resolved(_, refused) => refused == {}
    case _ => true
  }

  lemma PeersFollow(cfg: Config, s: State, now: int, e: Event)
    requires ValidConfig(cfg) && ValidEvent(s, e) && PeersAtTarget(s) && ConnectsSucceed(e)
    ensures PeersAtTarget(Step(cfg, s, now, e).state)
  {
    match e
    case FromClient(sender, view, len, luck) => ClientPeers(cfg, s, now, sender, view, len, luck);
    case FromServer(sock, view, len, luck) => ServerPeers(cfg, s, now, sock, view, len, luck);
    case Resolved(result, refused) =>
    case Tick(ids) =>
      forall k | 0 <= k < |Swept(cfg, s.conns, now)| ensures Swept(cfg, s.conns, now)[k].peer == Some(s.target) {
        var j := SweptFrom(cfg, s.conns, now, k);
      }
  }

  lemma {:induction false} BootPeers(cfg: Config, target: Addr, bs: seq<Binding>)
    requires BootConns(cfg, target, bs).Some? && forall i :: 0 <= i < |bs| ==> bs[i].connected
    ensures var s := BootConns(cfg, target, bs).value; PeersAtTarget(s) && s.target == target
    decreases |bs|
  {
    if bs != [] { BootPeers(cfg, target, bs[..|bs| - 1]); }
  }

  /** As long as `connect` succeeds, every entry's socket points at the target's current address. */
  lemma {:induction false} PeersAlways(cfg: Config, ts: seq<Traced>, ms: seq<Moment>, target: Addr, bs: seq<Binding>, n: nat)
    requires ValidConfig(cfg) && IsRun(cfg, ts, ms) && n <= |ms|
    requires Boot(cfg, target, bs) == Some(ts[0].s) && forall i :: 0 <= i < |bs| ==> bs[i].connected
    requires forall i :: 0 <= i < |ms| ==> ConnectsSucceed(ms[i].event)
    ensures forall i :: 0 <= i < |ts[n].s.conns| ==> ts[n].s.conns[i].peer == Some(ts[n].s.target)
    decreases n
  {
    hide Step, NextLogs, Started;
    if n == 0 {
      BootPeers(cfg, target, bs);
    } else {
      PeersAlways(cfg, ts, ms, target, bs, n - 1);
      PeersFollow(cfg, ts[n - 1].s, ms[n - 1].now, ms[n - 1].event);
    }
  }

  // ----- the target itself

  /** A good result for the target. */
  ghost predicate NewTarget(r: ResolveResult) { r.tag == -1 && r.err == 0 }

  /** A good result for the target gives the target its address, and a new one every entry whose `connect` succeeds. */
  lemma TargetExactly(s: State, r: ResolveResult, refused: set<nat>)
    ensures var s', changed := ResolveStep(s, r, refused), NewTarget(r) && s.target.ip != r.ip;
      && s'.target == (if NewTarget(r) then s.target.(ip := r.ip) else s.target)
      && (r.tag == -1 ==> |s'.conns| == |s.conns| && forall i :: 0 <= i < |s.conns| ==>
            s'.conns[i] == if changed && s.conns[i].sock !in refused then s.conns[i].(peer := Some(s.target.(ip := r.ip))) else s.conns[i])
      && (NewTarget(r) && refused == {} ==> (PeersAtTarget(s') <==> changed || PeersAtTarget(s)))
  {
  }

  /** Whatever a result is for, no other entry's peer moves. */
  lemma ResolvePeers(s: State, r: ResolveResult, refused: set<nat>, k: nat)
    requires Unique(s.conns) && FindSock(s.conns, k).Some?
    ensures var s', changed := ResolveStep(s, r, refused), NewTarget(r) && s.target.ip != r.ip;
      && FindSock(s'.conns, k).Some?
      && EntryOf(s', k).peer == if changed && k !in refused then Some(s.target.(ip := r.ip)) else EntryOf(s, k).peer
  {
    hide Rekeyed;
    ResolveKeeps(s, r, refused);
    var s' := ResolveStep(s, r, refused);
    if r.tag == -1 {
      TargetExactly(s, r, refused);
      AtSock(s'.conns, k, FindSock(s.conns, k).value);
    } else if s' != s {
      var i := FindSock(s.conns, s.bindings[r.tag]).value;
      RekeyedEntry(s.conns, i, s.conns[i].addr.(ip := r.ip), k);
    }
  }

  /** After a queue of results it is the last good one for the target that counts; `n` is its place, or -1. */
  lemma {:induction false} TargetDrained(s: State, queue: seq<Resolution>, n: int)
    requires -1 <= n < |queue| && (n >= 0 ==> NewTarget(queue[n].result))
    requires forall m :: n < m < |queue| ==> !NewTarget(queue[m].result)
    ensures Drained(s, queue).target == if n < 0 then s.target else s.target.(ip := queue[n].result.ip)
    decreases |queue|
  {
    hide ResolveStep;
    if queue != [] {
      TargetExactly(s, queue[0].result, queue[0].refused);
      TargetDrained(ResolveStep(s, queue[0].result, queue[0].refused), queue[1..], if n < 0 then -1 else n - 1);
    }
  }

  ghost predicate TargetEvent(e: Event) { e.Resolved? && NewTarget(e.result) }

  lemma TargetStep(cfg: Config, s: State, now: int, e: Event)
    requires ValidConfig(cfg) && ValidEvent(s, e)
    ensures Step(cfg, s, now, e).state.target == if TargetEvent(e) then s.target.(ip := e.result.ip) else s.target
  {
    hide ClientStep, ServerStep, ResolveStep;
    match e
    case Resolved(r, refused) => TargetExactly(s, r, refused);
    case Tick(_) =>
    case _ =>
      StepCases(cfg, s, now, e);
      CarriedTarget(cfg, s, now, e);
      hide Carries;
  }

  lemma CarriedTarget(cfg: Config, s: State, now: int, e: Event)
    requires ValidConfig(cfg) && ValidEvent(s, e)
    ensures var r := Carries(cfg, s, now, e); r.Some? ==> r.value.t.target == s.target
  {
    hide ClientIngress, ServerIngress, WgType, FindAddr, FindSock;
  }

  /** At any time of a run the target is what the last good result for it said; `n` is the event, or -1. */
  lemma {:induction false} TargetInRun(cfg: Config, ts: seq<Traced>, ms: seq<Moment>, b: nat, n: int)
    requires ValidConfig(cfg) && IsRun(cfg, ts, ms) && -1 <= n < b <= |ms| && (n >= 0 ==> TargetEvent(ms[n].event))
    requires forall m :: n < m < b ==> !TargetEvent(ms[m].event)
    ensures ts[b].s.target == if n < 0 then ts[0].s.target else ts[0].s.target.(ip := ms[n].event.result.ip)
    decreases b
  {
    hide Step, NextLogs, Started, ValidEvent;
    if b > 0 {
      TargetStep(cfg, ts[b - 1].s, ms[b - 1].now, ms[b - 1].event);
      if n < b - 1 { TargetInRun(cfg, ts, ms, b - 1, n); } else { TargetPort(cfg, ts, ms, b - 1); }
    }
  }

  lemma {:induction false} TargetPort(cfg: Config, ts: seq<Traced>, ms: seq<Moment>, b: nat)
    requires ValidConfig(cfg) && IsRun(cfg, ts, ms) && b <= |ms|
    ensures ts[b].s.target.port == ts[0].s.target.port
    decreases b
  {
    hide Step, NextLogs, Started, ValidEvent;
    if b > 0 {
      TargetPort(cfg, ts, ms, b - 1);
      TargetStep(cfg, ts[b - 1].s, ms[b - 1].now, ms[b - 1].event);
    }
  }

  lemma ClientPeers(cfg: Config, s: State, now: int, sender: Addr, view: seq<byte>, len: nat, luck: Luck)
    requires ValidConfig(cfg) && |view| == BUFFER_SIZE && PeersAtTarget(s) && luck.connected
    ensures PeersAtTarget(ClientStep(cfg, s, now, sender, view, len, luck).state)
  {
    hide ClientIngress, Accept, WgType, Outgoing;
    if len <= BUFFER_SIZE {
      var i := FindAddr(s.conns, sender);
      var known := if i.Some? then Some(s.conns[i.value]) else None;
      ClientIngressFits(cfg, known, view, len, sender);
      var g := ClientIngress(cfg, known, view, len, sender);
      if g.Accepted? {
        var c := if i.Some? then s.conns[i.value] else NewConn(sender, if luck.sock.Some? then luck.sock.value else 0, s.target, luck.connected, g.mask, now);
        AcceptSame(cfg, c, now, WgType(g.packet), g.obfuscated, g.version, C2S);
      }
    }
  }

  lemma ServerPeers(cfg: Config, s: State, now: int, sock: nat, view: seq<byte>, len: nat, luck: Luck)
    requires ValidConfig(cfg) && |view| == BUFFER_SIZE && PeersAtTarget(s)
    ensures PeersAtTarget(ServerStep(cfg, s, now, sock, view, len, luck).state)
  {
    hide ServerIngress, Accept, WgType, Outgoing;
    var i := FindSock(s.conns, sock);
    if len <= BUFFER_SIZE && i.Some? {
      ServerIngressFits(cfg, s.conns[i.value], view, len, s.target);
      var g := ServerIngress(cfg, s.conns[i.value], view, len, s.target);
      if g.Accepted? {
        AcceptSame(cfg, s.conns[i.value], now, WgType(g.packet), g.obfuscated, g.version, S2C);
      }
    }
  }

  // ----- start-up

  ghost predicate DistinctAddrs(bs: seq<Binding>) {
    forall i, j :: 0 <= i < j < |bs| ==> bs[i].addr != bs[j].addr
  }

  /** The program starts if and only if clean clients do not meet bindings, there is room for all, and no address comes twice. */
  lemma BootExactly(cfg: Config, target: Addr, bs: seq<Binding>)
    requires forall i, j :: 0 <= i < j < |bs| ==> bs[i].sock != bs[j].sock
    ensures Boot(cfg, target, bs).Some? <==> (bs == [] || !cfg.allowClean) && |bs| <= cfg.maxClients && DistinctAddrs(bs)
    ensures Boot(cfg, target, bs).Some? ==>
      var s := Boot(cfg, target, bs).value;
      && |s.conns| == |bs| && s.target == target && s.lastCleanup == 0
      && forall i :: 0 <= i < |bs| ==>
           var c := s.conns[i];
           && c.addr == bs[i].addr && c.sock == bs[i].sock && c.isStatic && c.named == bs[i].named && c.mask == cfg.mask
           && c.peer == (if bs[i].connected then Some(target) else None)
           && c.version == 1 && !c.handshaked && !c.clean && c.lastActivity == c.lastIncoming == c.lastRequest == c.lastTimer == 0
  {
    hide BootConns;
    BootConnsExactly(cfg, target, bs);
    if BootConns(cfg, target, bs).Some? { BootedConns(cfg, target, bs); }
  }

  lemma {:induction false} BootConnsExactly(cfg: Config, target: Addr, bs: seq<Binding>)
    requires forall i, j :: 0 <= i < j < |bs| ==> bs[i].sock != bs[j].sock
    ensures BootConns(cfg, target, bs).Some? <==> |bs| <= cfg.maxClients && DistinctAddrs(bs)
    decreases |bs|
  {
    if bs != [] {
      var n := |bs| - 1;
      BootConnsExactly(cfg, target, bs[..n]);
      if BootConns(cfg, target, bs[..n]).Some? {
        BootedConns(cfg, target, bs[..n]);
        var conns := BootConns(cfg, target, bs[..n]).value.conns;
        assert forall i :: 0 <= i < n ==> conns[i].addr == bs[i].addr;
        if FindAddr(conns, bs[n].addr).Some? {
          assert bs[FindAddr(conns, bs[n].addr).value].addr == bs[n].addr;
        }
      }
    }
  }

  /** How many of the first `i` bindings keep a host name: the tag under which the resolver will know the next. */
  ghost function NamedBefore(bs: seq<Binding>, i: nat): nat
    requires i <= |bs|
  {
    if i == 0 then 0 else NamedBefore(bs, i - 1) + if bs[i - 1].named then 1 else 0
  }

  /** The resolver's tags are the bindings with a host name, in the order of the configuration. */
  lemma TagsExactly(cfg: Config, target: Addr, bs: seq<Binding>, i: nat)
    requires (forall j, k :: 0 <= j < k < |bs| ==> bs[j].sock != bs[k].sock) && Boot(cfg, target, bs).Some?
    requires i < |bs| && bs[i].named
    ensures var tags := Boot(cfg, target, bs).value.bindings;
      |tags| == NamedBefore(bs, |bs|) && NamedBefore(bs, i) < |tags| && tags[NamedBefore(bs, i)] == bs[i].sock
  {
    hide BootConns;
    BootedConns(cfg, target, bs);
    BootConnsExactly(cfg, target, bs);
    NamedFrom(BootConns(cfg, target, bs).value.conns, bs, |bs|, i);
  }

  lemma {:induction false} NamedFrom(conns: seq<Conn>, bs: seq<Binding>, n: nat, i: nat)
    requires |conns| == n <= |bs|
    requires forall j :: 0 <= j < n ==> conns[j].isStatic && conns[j].named == bs[j].named && conns[j].sock == bs[j].sock
    ensures |NamedSocks(conns)| == NamedBefore(bs, n)
    ensures i < n && bs[i].named ==> NamedBefore(bs, i) < NamedBefore(bs, n) && NamedSocks(conns)[NamedBefore(bs, i)] == bs[i].sock
    decreases n
  {
    if n > 0 {
      assert conns == conns[..n - 1] + [conns[n - 1]];
      NamedFrom(conns[..n - 1], bs, n - 1, i);
      NamedSnoc(conns[..n - 1], conns[n - 1]);
    }
  }

  // ----- the cleanup pass

  /** A pass keeps exactly the entries that have not expired, and a static entry never expires. */
  lemma CleanupExactly(cfg: Config, s: State, now: int, ids: nat -> Txid, i: nat)
    requires Unique(s.conns) && i < |s.conns| && now - s.lastCleanup >= ITERATE_INTERVAL
    ensures var after := CleanupStep(cfg, s, now, ids).state.conns;
      && (FindSock(after, s.conns[i].sock).Some? <==> !Expired(cfg, s.conns[i], now))
      && (!Expired(cfg, s.conns[i], now) ==> after[FindSock(after, s.conns[i].sock).value] == Ticked(s.conns[i], now))
      && (s.conns[i].isStatic ==> !Expired(cfg, s.conns[i], now))
  {
    hide Swept;
    var after := CleanupStep(cfg, s, now, ids).state.conns;
    var k := s.conns[i].sock;
    SweptUnique(cfg, s.conns, now);
    if !Expired(cfg, s.conns[i], now) {
      var to := SweptTo(cfg, s.conns, now, i);
      AtSock(after, k, to);
    }
    if FindSock(after, k).Some? {
      var j := SweptFrom(cfg, s.conns, now, FindSock(after, k).value);
      assert j == i;
    }
  }

  /**
   * The documentation speaks of a session from which nothing arrived for the period. In the code a new entry counts as
   * having last heard from its target at time 0, so with an incoming timeout it has no period of grace.
   */
  lemma NoGracePeriod(cfg: Config, sender: Addr, sock: nat, target: Addr, connected: bool, mask: Mask, now: int, later: int)
    requires ValidConfig(cfg) && cfg.inTimeout > 0 && 0 <= now <= later
    requires later - now < HANDSHAKE_TIMEOUT && later - now < cfg.idleTimeout
    ensures Expired(cfg, NewConn(sender, sock, target, connected, mask, now), later) <==> later >= cfg.inTimeout
  {
  }

  /** A fresh static entry takes a response from the target that answers no request, in the first 5000 ms of the clock. */
  lemma StaticTakesEarlyResponse(cfg: Config, addr: Addr, sock: nat, target: Addr, connected: bool, named: bool, now: int, obfuscated: bool)
    requires now >= 0
    ensures var c := NewStaticConn(cfg, addr, sock, target, connected, named);
      Gate(cfg, c, now, WG_TYPE_HANDSHAKE_RESP, obfuscated, S2C).Some? <==> now <= HANDSHAKE_TIMEOUT
  {
  }

  // ----- clean clients

  /** A plain packet of a clean entry passes unchanged, and nothing else is sent for it. */
  lemma CleanFromServer(cfg: Config, s: State, now: int, sock: nat, view: seq<byte>, len: nat, luck: Luck)
    requires ValidConfig(cfg) && 4 <= len <= |view| == BUFFER_SIZE && !IsObfuscated(view[..len])
    requires FindSock(s.conns, sock).Some? && EntryOf(s, sock).clean
    ensures var out := ServerStep(cfg, s, now, sock, view, len, luck);
      out.controls == [] && (out.forwarded.Some? ==> out.forwarded.value == ToClient(EntryOf(s, sock).addr, view[..len]))
  {
    hide Encode, WgType;
    var c := EntryOf(s, sock);
    GateKeepsClean(cfg, c, now, WgType(view[..len]), false, c.version, S2C);
  }

  lemma CleanFromClient(cfg: Config, s: State, now: int, sender: Addr, view: seq<byte>, len: nat, luck: Luck)
    requires ValidConfig(cfg) && 4 <= len <= |view| == BUFFER_SIZE && !IsObfuscated(view[..len])
    requires FindAddr(s.conns, sender).Some? && s.conns[FindAddr(s.conns, sender).value].clean
    ensures var c, out := s.conns[FindAddr(s.conns, sender).value], ClientStep(cfg, s, now, sender, view, len, luck);
      out.controls == [] && (out.forwarded.Some? ==> out.forwarded.value == ToServer(c.sock, view[..len]))
  {
    hide Encode, WgType;
    var c := s.conns[FindAddr(s.conns, sender).value];
    GateKeepsClean(cfg, c, now, WgType(view[..len]), false, c.version, C2S);
  }

  /** A plain packet leaves a clean entry clean. */
  lemma GateKeepsClean(cfg: Config, c: Conn, now: int, kind: nat, obfuscated: bool, version: nat, from: Dir)
    requires c.clean && !obfuscated
    ensures var r := Accept(cfg, c, now, kind, obfuscated, version, from);
      r.Some? ==> r.value.clean && r.value.sock == c.sock && r.value.addr == c.addr
  {
  }

  /** The masking timer sends nothing for a clean entry. */
  lemma CleanNoTimer(cfg: Config, c: Conn, now: int, id: Txid)
    requires FlagsOk(cfg, c) && c.clean
    ensures TimerSends(c, now, id) == []
  {
  }

  // ----- the mask of an entry

  /** In AUTO mode an entry gets the mask its creating handshake came in. */
  lemma AutoMaskAtCreation(cfg: Config, s: State, now: int, sender: Addr, view: seq<byte>, len: nat, luck: Luck)
    requires ValidConfig(cfg) && !cfg.maskSet && 4 <= len <= |view| == BUFFER_SIZE && IsObfuscated(view[..len])
    requires FindAddr(s.conns, sender).None?
    requires |ClientStep(cfg, s, now, sender, view, len, luck).state.conns| > |s.conns|
    ensures var after := ClientStep(cfg, s, now, sender, view, len, luck).state.conns;
      && |after| == |s.conns| + 1 && after[..|s.conns|] == s.conns
      && after[|s.conns|].addr == sender && luck.sock == Some(after[|s.conns|].sock)
      && after[|s.conns|].mask == if OnDataUnwrap(view, len, sender).Payload? then StunMask else NoMask
  {
    hide WgType, Outgoing, OnDataUnwrap, Decode, IsObfuscated, Accept;
    AutodetectsStun(cfg.mask, view, len, sender);
    ClientIngressFits(cfg, None, view, len, sender);
    var g := ClientIngress(cfg, None, view, len, sender);
    assert g.Accepted? ==> g.obfuscated && g.mask == if OnDataUnwrap(view, len, sender).Payload? then StunMask else NoMask;
    if g.Accepted? && Admitted(cfg, s, g.packet, luck) {
      CreatedSock(cfg, s, now, sender, g, luck);
    }
  }

  // ----- without a mask

  /** Nobody has chosen a mask for packets of this sender. */
  ghost predicate Unmasked(cfg: Config, known: Option<Conn>) {
    if known.Some? then known.value.mask == NoMask else cfg.mask == NoMask
  }

  /**
   * An unmasked version-1 packet is opened to itself if and only if its first four bytes do not pass for a plain type and,
   * where masks are detected, STUN rejects it. One that passes for plain is taken as it stands.
   */
  lemma UnmaskedRoundTrip(cfg: Config, known: Option<Conn>, p: seq<byte>, maxData: nat, dice: Dice, view: seq<byte>, sender: Addr)
    requires ValidConfig(cfg) && WgPacket(p) && |view| == BUFFER_SIZE && Unmasked(cfg, known)
    requires Encode(cfg.key, p, 1, maxData, dice) <= view
    ensures var w, v0 := Encode(cfg.key, p, 1, maxData, dice), if known.Some? then known.value.version else OBFUSCATION_VERSION;
      var g := ClientIngress(cfg, known, view, |w|, sender);
      && (g == Accepted(p, true, v0, cfg.mask) <==>
            IsObfuscated(w) && (known.None? && !cfg.maskSet ==> OnDataUnwrap(view, |w|, sender).Rejected?))
      && (!IsObfuscated(w) ==> g == Accepted(w, false, v0, cfg.mask))
  {
    hide Encode, OnDataUnwrap, IsObfuscated, Decode;
    var w := Encode(cfg.key, p, 1, maxData, dice);
    var v0 := if known.Some? then known.value.version else OBFUSCATION_VERSION;
    assert view[..|w|] == w;
    AutodetectsStun(cfg.mask, view, |w|, sender);
    OpensToItself(cfg, p, 1, maxData, dice, cfg.mask, v0);
  }

  /** On the way back the entry says which mask there is, and nothing is detected. */
  lemma UnmaskedReply(cfg: Config, c: Conn, p: seq<byte>, maxData: nat, dice: Dice, view: seq<byte>, target: Addr)
    requires ValidConfig(cfg) && WgPacket(p) && |view| == BUFFER_SIZE && c.mask == NoMask
    requires Encode(cfg.key, p, 1, maxData, dice) <= view
    ensures var w := Encode(cfg.key, p, 1, maxData, dice);
      var g := ServerIngress(cfg, c, view, |w|, target);
      && (g == Accepted(p, true, c.version, NoMask) <==> IsObfuscated(w))
      && (!IsObfuscated(w) ==> g == Accepted(w, false, c.version, NoMask))
  {
    hide Encode, IsObfuscated, Decode;
    var w := Encode(cfg.key, p, 1, maxData, dice);
    assert view[..|w|] == w;
    OpensToItself(cfg, p, 1, maxData, dice, NoMask, c.version);
  }

  lemma NoMagicRejected(view: seq<byte>, len: nat, src: Addr)
    requires len <= |view| && BINDING_RESPONSE_SIZE <= |view| && !CheckMagic(view[..len])
    ensures OnDataUnwrap(view, len, src) == Rejected
  {
  }
}
