/** How long an entry lives, what its clocks and flags follow, and the messages the relay sends by itself. */
module RelayLife {
  import opened Bytes
  import opened Net
  import opened Keystream
  import opened Codec
  import opened Stun
  import opened Masking
  import opened RelaySpec
  import opened RelayCases
  import opened RelayInvariants
  import opened RelayTheorems
  import opened RelaySends

  // ----- which packets make an entry

  /** A plain packet is taken as it stands, whoever sends it. */
  lemma PlainTaken(cfg: Config, known: Option<Conn>, c: Conn, view: seq<byte>, len: nat, src: Addr)
    requires ValidConfig(cfg) && 4 <= len <= |view| == BUFFER_SIZE && 1 <= view[0] <= 4 && view[1] == view[2] == view[3] == 0
    ensures ClientIngress(cfg, known, view, len, src) ==
      Accepted(view[..len], false, if known.Some? then known.value.version else 1, cfg.mask)
    ensures ServerIngress(cfg, c, view, len, src) == Accepted(view[..len], false, c.version, c.mask)
  {
    PlainShape(view[..len]);
    hide OnDataUnwrap, Decode;
  }

  /** What a first handshake makes of a sender nobody knows. */
  ghost predicate MadeBy(cfg: Config, s: State, now: int, sender: Addr, g: Ingress, luck: Luck, d: Conn)
    requires g.Accepted? && luck.sock.Some?
  {
    && d.addr == sender && d.sock == luck.sock.value && d.peer == (if luck.connected then Some(s.target) else None)
    && !d.isStatic && !d.named && !d.handshaked && !d.clientObf && !d.serverObf
    && d.clean == (cfg.allowClean && !g.obfuscated) && d.mask == (if d.clean then NoMask else g.mask)
    && d.version == (if g.version == 0 then 0 else 1)
    && d.dir == C2S && d.lastRequest == d.lastActivity == now && d.lastIncoming == d.lastHandshake == d.lastTimer == 0
  }

  /** An unknown sender gets an entry if and only if it sends a handshake, there is room, and a socket can be had. */
  lemma MadeExactly(cfg: Config, s: State, now: int, sender: Addr, view: seq<byte>, len: nat, luck: Luck)
    requires ValidConfig(cfg) && len <= |view| == BUFFER_SIZE && FindAddr(s.conns, sender).None?
    ensures var g, after := ClientIngress(cfg, None, view, len, sender), ClientStep(cfg, s, now, sender, view, len, luck).state;
      if g.Accepted? && |g.packet| >= 4 && WgType(g.packet) == 1 && |s.conns| < cfg.maxClients && luck.sock.Some? then
        && |after.conns| == |s.conns| + 1 && after == s.(conns := s.conns + [after.conns[|s.conns|]])
        && MadeBy(cfg, s, now, sender, g, luck, after.conns[|s.conns|])
      else after == s
  {
    hide ClientIngress, WgType, Outgoing, Probes;
    ClientIngressFits(cfg, None, view, len, sender);
    var g := ClientIngress(cfg, None, view, len, sender);
    if g.Accepted? && luck.sock.Some? && WgType(g.packet) == 1 {
      var c := NewConn(sender, luck.sock.value, s.target, luck.connected, g.mask, now);
      FirstPassed(cfg, s, now, sender, g, luck);
      var (d, _, _) := Passed(cfg, c, C2S, now, g.packet, g.obfuscated, g.version, luck);
      ForwardIsPassed(cfg, s.(conns := s.conns + [c]), |s.conns|, C2S, now, g.packet, g.obfuscated, g.version, luck);
      assert (s.conns + [c])[|s.conns| := d] == s.conns + [d];
      hide Passed, ClientForward;
    }
  }

  lemma FirstPassed(cfg: Config, s: State, now: int, sender: Addr, g: Ingress, luck: Luck)
    requires ValidConfig(cfg) && g.Accepted? && 4 <= |g.packet| <= BUFFER_SIZE && WgType(g.packet) == 1 && luck.sock.Some?
    ensures var c := NewConn(sender, luck.sock.value, s.target, luck.connected, g.mask, now);
      var (d, _, _) := Passed(cfg, c, C2S, now, g.packet, g.obfuscated, g.version, luck);
      MadeBy(cfg, s, now, sender, g, luck, d)
  {
    hide WgType, Outgoing, Probes;
  }

  // ----- which entries go

  /** What a cleanup pass asks of an entry it keeps. */
  ghost predicate Within(cfg: Config, c: Conn, now: int) {
    || c.isStatic
    || (&& now - c.lastActivity < cfg.idleTimeout
        && (cfg.inTimeout == 0 || now - c.lastIncoming < cfg.inTimeout)
        && (c.handshaked || now - c.lastActivity < 5000))
  }

  /** A tick keeps an entry if and only if no pass is due or the entry is within its limits; only its timer may move. */
  lemma TickSpares(cfg: Config, s: State, now: int, ids: nat -> Txid, k: nat)
    requires ValidConfig(cfg) && Unique(s.conns)
    ensures var after := CleanupStep(cfg, s, now, ids).state.conns;
      && (FindSock(after, k).Some? <==> FindSock(s.conns, k).Some? && (now - s.lastCleanup < 1000 || Within(cfg, EntryOf(s, k), now)))
      && (FindSock(after, k).Some? ==>
            var c, d := EntryOf(s, k), after[FindSock(after, k).value];
            d == c.(lastTimer := if now - s.lastCleanup >= 1000 && c.mask != NoMask && now - c.lastTimer >= 10000 then now else c.lastTimer))
  {
    hide Swept, Unique;
    var i := FindSock(s.conns, k);
    if i.Some? {
      if now - s.lastCleanup >= 1000 { CleanupExactly(cfg, s, now, ids, i.value); }
    } else if now - s.lastCleanup >= 1000 {
      var after := Swept(cfg, s.conns, now);
      if FindSock(after, k).Some? {
        var j := SweptFrom(cfg, s.conns, now, FindSock(after, k).value);
      }
    }
  }

  /** No other event takes an entry away. */
  lemma OnlyTicksRemove(cfg: Config, s: State, now: int, e: Event, k: nat)
    requires ValidConfig(cfg) && ValidEvent(s, e) && Unique(s.conns) && !e.Tick? && FindSock(s.conns, k).Some?
    ensures FindSock(Step(cfg, s, now, e).state.conns, k).Some?
  {
    hide ClientStep, ServerStep, ResolveStep, Carries, Passed, Unique;
    if e.Resolved? {
      ResolveKeeps(s, e.result, e.refused);
    } else {
      StepCases(cfg, s, now, e);
      if Carries(cfg, s, now, e).Some? {
        var a := Carries(cfg, s, now, e).value;
        CarriedOf(cfg, s, now, e);
        PassedShape(cfg, a, now);
        var i := FindSock(s.conns, k).value;
        assert Step(cfg, s, now, e).state.conns[i].sock == k;
      }
    }
  }

  /** In every run: an entry goes at step `n` if and only if a pass is due then and it is over one of its limits. */
  lemma RemovedExactly(cfg: Config, ts: seq<Traced>, ms: seq<Moment>, n: nat, k: nat)
    requires ValidConfig(cfg) && IsRun(cfg, ts, ms) && n < |ms| && FindSock(ts[n].s.conns, k).Some?
    ensures FindSock(ts[n + 1].s.conns, k).None? <==>
      ms[n].event.Tick? && ms[n].now - ts[n].s.lastCleanup >= 1000 && !Within(cfg, EntryOf(ts[n].s, k), ms[n].now)
  {
    hide Inv, CleanupStep, NextLogs, Started, Within;
    Always(cfg, ts, ms, n);
    InvUnique(cfg, ts[n], TimeAt(ms, n));
    if ms[n].event.Tick? {
      TickSpares(cfg, ts[n].s, ms[n].now, ms[n].event.ids, k);
    } else {
      OnlyTicksRemove(cfg, ts[n].s, ms[n].now, ms[n].event, k);
    }
  }

  /** Passes are due a second after the last one, counted from time 0. */
  lemma PassesInRun(cfg: Config, ts: seq<Traced>, ms: seq<Moment>, n: nat)
    requires ValidConfig(cfg) && IsRun(cfg, ts, ms) && n < |ms|
    ensures ts[0].s.lastCleanup == 0
    ensures var last := ts[n].s.lastCleanup;
      ts[n + 1].s.lastCleanup == if ms[n].event.Tick? && ms[n].now - last >= 1000 then ms[n].now else last
  {
    hide Inv, ResolveStep, NextLogs, Started, Carries, ClientStep, ServerStep, Passed;
    Always(cfg, ts, ms, 0);
    ZeroAtStart(cfg, ts[0]);
    var s, e := ts[n].s, ms[n].event;
    match e
    case Tick(_) =>
    case Resolved(r, refused) => ResolvedCleanup(s, r, refused);
    case _ =>
      StepCases(cfg, s, ms[n].now, e);
      CarriedCleanup(cfg, s, ms[n].now, e);
  }

  lemma ZeroAtStart(cfg: Config, t: Traced)
    requires Inv(cfg, t, 0)
    ensures t.s.lastCleanup == 0
  {
  }

  lemma ResolvedCleanup(s: State, r: ResolveResult, refused: set<nat>)
    ensures ResolveStep(s, r, refused).lastCleanup == s.lastCleanup
  {
  }

  lemma CarriedCleanup(cfg: Config, s: State, now: int, e: Event)
    requires ValidConfig(cfg) && ValidEvent(s, e)
    ensures var r := Carries(cfg, s, now, e); r.Some? ==> r.value.t.lastCleanup == s.lastCleanup
  {
    hide ClientIngress, ServerIngress, WgType, FindAddr, FindSock;
  }

  // ----- a packet sent on keeps its entry alive

  lemma PassedMarks(cfg: Config, a: Carried, now: int)
    requires ValidConfig(cfg) && a.Valid() && a.Passes(cfg, now) && a.luck.sent
    ensures var (d, _, _) := Passed(cfg, a.Entry(), a.from, now, a.packet, a.obfuscated, a.version, a.luck);
      d.lastActivity == now && (a.from == S2C ==> d.lastIncoming == now)
  {
    hide Accept, Outgoing, Probes, WgType;
  }

  lemma SentMarks(cfg: Config, ts: seq<Traced>, ms: seq<Moment>, n: nat, k: nat)
    requires ValidConfig(cfg) && IsRun(cfg, ts, ms) && n < |ms| && ComesTo(cfg, ts, ms, n, k) && SentAt(cfg, ts, ms, n).Some?
    ensures FindSock(ts[n + 1].s.conns, k).Some?
    ensures var d := EntryOf(ts[n + 1].s, k);
      d.lastActivity == ms[n].now && (Comer(cfg, ts, ms, n, k).from == S2C ==> d.lastIncoming == ms[n].now)
  {
    hide Inv, Carries, Passed, Step, NextLogs, Started, FindSock, Unique;
    var s, now, e := ts[n].s, ms[n].now, ms[n].event;
    Always(cfg, ts, ms, n);
    InvUnique(cfg, ts[n], TimeAt(ms, n));
    var a := Carries(cfg, s, now, e).value;
    StepCases(cfg, s, now, e);
    PassedShape(cfg, a, now);
    PassedMarks(cfg, a, now);
    CarriedUnique(cfg, s, now, e);
    var (d, _, _) := Passed(cfg, a.Entry(), a.from, now, a.packet, a.obfuscated, a.version, a.luck);
    UpdateFound(a.t.conns, a.i, d);
  }

  /** Time `now` is within the limits that a packet sent on at `since` gives an entry `c`. */
  ghost predicate Lasts(cfg: Config, c: Conn, since: int, now: int) {
    && now - since < cfg.idleTimeout
    && (cfg.inTimeout == 0 || now - c.lastIncoming < cfg.inTimeout)
    && (c.handshaked || now - since < 5000)
  }

  /**
   * An entry for which a packet was sent on at step `a` lives through every later tick within those limits. Towards the
   * incoming timeout only packets of the target count.
   */
  lemma {:induction false} LivesOn(cfg: Config, ts: seq<Traced>, ms: seq<Moment>, a: nat, b: nat, k: nat)
    requires ValidConfig(cfg) && IsRun(cfg, ts, ms) && a < b <= |ms|
    requires ComesTo(cfg, ts, ms, a, k) && SentAt(cfg, ts, ms, a).Some? && FindSock(ts[a + 1].s.conns, k).Some?
    requires forall n :: a < n < b && ms[n].event.Tick? ==> Lasts(cfg, EntryOf(ts[a + 1].s, k), ms[a].now, ms[n].now)
    ensures LivesThrough(ts, a + 1, b, k)
    decreases b
  {
    hide IsRun, Carries, Step, EntryOf, FindSock, Within, Lasts;
    RunLength(cfg, ts, ms);
    if a + 1 < b {
      LivesOn(cfg, ts, ms, a, b - 1, k);
      RunEvolves(cfg, ts, ms, a + 1, b - 1, k);
      SentMarks(cfg, ts, ms, a, k);
      RemovedExactly(cfg, ts, ms, b - 1, k);
      if ms[b - 1].event.Tick? { StillWithin(cfg, EntryOf(ts[a + 1].s, k), EntryOf(ts[b - 1].s, k), ms[a].now, ms[b - 1].now); }
    }
  }

  lemma StillWithin(cfg: Config, c: Conn, d: Conn, since: int, now: int)
    requires Evolves(c, d) && c.lastActivity == since && Lasts(cfg, c, since, now)
    ensures Within(cfg, d, now)
  {
  }

  // ----- when an entry is clean

  /** The event brings a handshake of the client to its entry on socket `k`. */
  ghost predicate Greets(cfg: Config, s: State, now: int, e: Event, k: nat)
    requires ValidConfig(cfg) && ValidEvent(s, e)
  {
    var r := Carries(cfg, s, now, e);
    r.Some? && r.value.Entry().sock == k && r.value.from == C2S && WgType(r.value.packet) == 1
  }

  lemma PassedClean(cfg: Config, a: Carried, now: int)
    requires ValidConfig(cfg) && a.Valid() && (a.Entry().clean ==> cfg.allowClean)
    ensures var (d, _, _) := Passed(cfg, a.Entry(), a.from, now, a.packet, a.obfuscated, a.version, a.luck);
      d.clean == if a.from == C2S && WgType(a.packet) == 1 then cfg.allowClean && !a.obfuscated else a.Entry().clean
  {
    hide Outgoing, Probes, WgType, Accept;
    AcceptClean(cfg, a.Entry(), now, WgType(a.packet), a.obfuscated, a.version, a.from);
    hide Passed;
    PassedEntry(cfg, a, now);
    if WgType(a.packet) == 1 && a.from == C2S { RequestPasses(cfg, a.Entry(), now, a.obfuscated, a.version); }
  }

  lemma PassedEntry(cfg: Config, a: Carried, now: int)
    requires ValidConfig(cfg) && a.Valid()
    ensures var (d, _, _) := Passed(cfg, a.Entry(), a.from, now, a.packet, a.obfuscated, a.version, a.luck);
      var r := Accept(cfg, a.Entry(), now, WgType(a.packet), a.obfuscated, a.version, a.from);
      d == if r.Some? then Touched(r.value, now, a.luck.sent, a.from) else a.Entry()
  {
    hide Accept, Outgoing, Probes, WgType, Touched;
  }

  lemma AcceptClean(cfg: Config, c: Conn, now: int, kind: nat, obfuscated: bool, version: nat, from: Dir)
    requires c.clean ==> cfg.allowClean
    ensures var r := Accept(cfg, c, now, kind, obfuscated, version, from);
      r.Some? ==> r.value.clean == if from == C2S && kind == 1 then cfg.allowClean && !obfuscated else c.clean
  {
    hide RequestFromClient;
    RequestClean(cfg, c, now, obfuscated);
  }

  lemma RequestClean(cfg: Config, c: Conn, now: int, obfuscated: bool)
    requires c.clean ==> cfg.allowClean
    ensures RequestFromClient(cfg, c, now, obfuscated).clean == (cfg.allowClean && !obfuscated)
  {
  }

  /** A client's handshake says whether its entry is clean, and no other event changes it. */
  lemma CleanExactly(cfg: Config, ts: seq<Traced>, ms: seq<Moment>, n: nat, k: nat)
    requires ValidConfig(cfg) && IsRun(cfg, ts, ms) && n < |ms|
    requires FindSock(ts[n].s.conns, k).Some? && FindSock(ts[n + 1].s.conns, k).Some?
    ensures var s, now, e := ts[n].s, ms[n].now, ms[n].event;
      EntryOf(ts[n + 1].s, k).clean ==
        if Greets(cfg, s, now, e, k) then cfg.allowClean && !Carries(cfg, s, now, e).value.obfuscated else EntryOf(s, k).clean
  {
    hide Inv, NextLogs, Started, Carries, ClientStep, ServerStep, ResolveStep, CleanupStep, Passed, Unique, FlagsOk, WgType;
    var s, now, e := ts[n].s, ms[n].now, ms[n].event;
    Always(cfg, ts, ms, n);
    InvUnique(cfg, ts[n], TimeAt(ms, n));
    match e
    case Tick(ids) =>
      NoCarrier(cfg, s, now, e);
      TickSpares(cfg, s, now, ids, k);
    case Resolved(r, refused) =>
      NoCarrier(cfg, s, now, e);
      ResolveKeeps(s, r, refused);
    case _ =>
      CarriedClean(cfg, s, now, e, k);
  }

  lemma NoCarrier(cfg: Config, s: State, now: int, e: Event)
    requires ValidConfig(cfg) && ValidEvent(s, e) && (e.Tick? || e.Resolved?)
    ensures Carries(cfg, s, now, e).None?
  {
  }

  lemma CarriedClean(cfg: Config, s: State, now: int, e: Event, k: nat)
    requires ValidConfig(cfg) && ValidEvent(s, e) && Unique(s.conns) && (e.FromClient? || e.FromServer?)
    requires forall i :: 0 <= i < |s.conns| ==> FlagsOk(cfg, s.conns[i])
    requires FindSock(s.conns, k).Some? && FindSock(Step(cfg, s, now, e).state.conns, k).Some?
    ensures EntryOf(Step(cfg, s, now, e).state, k).clean ==
      if Greets(cfg, s, now, e, k) then cfg.allowClean && !Carries(cfg, s, now, e).value.obfuscated else EntryOf(s, k).clean
  {
    hide Step, Carries, Passed, Unique, WgType;
    StepCases(cfg, s, now, e);
    if Carries(cfg, s, now, e).Some? {
      var a, i := Carries(cfg, s, now, e).value, FindSock(s.conns, k).value;
      CarriedOf(cfg, s, now, e);
      CarriedUnique(cfg, s, now, e);
      PassedShape(cfg, a, now);
      var (d, _, _) := Passed(cfg, a.Entry(), a.from, now, a.packet, a.obfuscated, a.version, a.luck);
      UpdateFound(a.t.conns, a.i, d);
      AtSock(a.t.conns[a.i := d], k, i);
      if a.Entry().sock == k {
        AtSock(a.t.conns, k, i);
        AtSock(a.t.conns, k, a.i);
        PassedClean(cfg, a, now);
      }
    }
  }

  // ----- the messages of the masking layer

  /**
   * A plain handshake that passes is preceded by a Binding Request if the entry is masked in STUN; nothing else that
   * passes or does not pass is.
   */
  lemma ProbesExactly(cfg: Config, s: State, now: int, e: Event)
    requires ValidConfig(cfg) && ValidEvent(s, e) && Unique(s.conns) && Carries(cfg, s, now, e).Some?
    ensures var a, out := Carries(cfg, s, now, e).value, Step(cfg, s, now, e);
      var k := a.Entry().sock;
      && FindSock(out.state.conns, k).Some?
      && var d := EntryOf(out.state, k);
      && var probe := if a.from == C2S then ToServer(k, BindingRequest(a.luck.probeId)) else ToClient(d.addr, BindingRequest(a.luck.probeId));
      if a.Passes(cfg, now) && WgType(a.packet) == 1 && !a.obfuscated && !d.clean && d.mask == StunMask then
        && out.controls == [probe]
        && (out.forwarded.Some? ==> OnWire(out.controls, out.forwarded) == [probe, out.forwarded.value])
      else out.controls == []
  {
    hide Step, Carries, Unique, FindSock, Outgoing, WgType, BindingRequest;
    SentAsEntryStands(cfg, s, now, e);
    var a, out := Carries(cfg, s, now, e).value, Step(cfg, s, now, e);
    var d := EntryOf(out.state, a.Entry().sock);
    DirectedOne(d, a.from, BindingRequest(a.luck.probeId));
    DirectedNothing(d, a.from, []);
  }

  lemma DirectedOne(d: Conn, from: Dir, m: seq<byte>)
    ensures Directed(d, from, [m]) == [if from == C2S then ToServer(d.sock, m) else ToClient(d.addr, m)]
  {
  }

  /** What passes and can be sent leaves as it came out of its disguise, or disguised if it came in plain; never otherwise. */
  lemma SentExactly(cfg: Config, s: State, now: int, e: Event)
    requires ValidConfig(cfg) && ValidEvent(s, e) && Unique(s.conns)
    ensures var r, out := Carries(cfg, s, now, e), Step(cfg, s, now, e);
      && (out.forwarded.Some? <==> r.Some? && r.value.Passes(cfg, now) && r.value.luck.sent)
      && (out.forwarded.Some? ==>
            var a := r.value;
            && FindSock(out.state.conns, a.Entry().sock).Some?
            && var d := EntryOf(out.state, a.Entry().sock);
            && d.addr == a.Entry().addr
            && var w := Encode(cfg.key, a.packet, d.version, cfg.maxDummyData, a.luck.dice);
            && var bytes := out.forwarded.value.bytes;
            && out.forwarded.value == (if a.from == C2S then ToServer(d.sock, bytes) else ToClient(d.addr, bytes))
            && (a.obfuscated || d.clean ==> bytes == a.packet)
            && (!a.obfuscated && !d.clean ==> |w| <= BUFFER_SIZE && bytes == if d.mask == StunMask then Wrap(w, a.luck.wrapId) else w))
  {
    hide Step, Carries, Unique, FindSock, WgType, Encode, Wrap, Probes, Accept;
    StepCases(cfg, s, now, e);
    if Carries(cfg, s, now, e).Some? {
      SentAsEntryStands(cfg, s, now, e);
      var a := Carries(cfg, s, now, e).value;
      var d := EntryOf(Step(cfg, s, now, e).state, a.Entry().sock);
      EncodedLength(cfg.key, a.packet, d.version, cfg.maxDummyData, a.luck.dice);
    }
  }

  /** What the gate holds back leaves no trace. */
  lemma RefusedExactly(cfg: Config, s: State, now: int, e: Event)
    requires ValidConfig(cfg) && ValidEvent(s, e) && Carries(cfg, s, now, e).Some? && !Carries(cfg, s, now, e).value.Passes(cfg, now)
    ensures Step(cfg, s, now, e) == Outcome(s, [], None)
  {
    hide Step, Carries, Accept;
    StepCases(cfg, s, now, e);
    var a := Carries(cfg, s, now, e).value;
    assert a.t.conns[a.i := a.Entry()] == a.t.conns;
    if WgType(a.packet) == 1 && a.from == C2S { RequestPasses(cfg, a.Entry(), now, a.obfuscated, a.version); }
    CarriedTable(cfg, s, now, e);
  }

  /** Only a client's handshake comes with a new table. */
  lemma CarriedTable(cfg: Config, s: State, now: int, e: Event)
    requires ValidConfig(cfg) && ValidEvent(s, e) && Carries(cfg, s, now, e).Some?
    ensures var a := Carries(cfg, s, now, e).value; a.t == s || (a.from == C2S && WgType(a.packet) == 1)
  {
    hide ClientIngress, ServerIngress, WgType, FindAddr, FindSock;
  }

  /** A timer that is due sends a Binding Request to each obfuscated side of an entry the pass keeps. */
  ghost predicate TimerSend(cfg: Config, c: Conn, now: int, id: Txid, x: Send) {
    && Within(cfg, c, now) && c.mask == StunMask && now - c.lastTimer >= 10000
    && ((c.clientObf && x == ToClient(c.addr, BindingRequest(id))) || (c.serverObf && x == ToServer(c.sock, BindingRequest(id))))
  }

  /** A pass sends exactly these, each of them once. */
  lemma TimersExactly(cfg: Config, s: State, now: int, ids: nat -> Txid)
    requires ValidConfig(cfg) && Unique(s.conns)
    ensures var out := CleanupStep(cfg, s, now, ids);
      && (forall x :: x in out.controls <==>
            now - s.lastCleanup >= 1000 && exists i :: 0 <= i < |s.conns| && TimerSend(cfg, s.conns[i], now, ids(s.conns[i].sock), x))
      && (forall i, j :: 0 <= i < j < |out.controls| ==> out.controls[i] != out.controls[j])
  {
    hide TimerSend, SweepSends, Swept, Unique;
    SweepSendsExactly(cfg, s.conns, now, ids);
  }

  ghost predicate Once(xs: seq<Send>) { forall i, j :: 0 <= i < j < |xs| ==> xs[i] != xs[j] }

  lemma {:induction false} SweepSendsExactly(cfg: Config, conns: seq<Conn>, now: int, ids: nat -> Txid)
    requires ValidConfig(cfg) && Unique(conns)
    ensures var xs := SweepSends(cfg, conns, now, ids);
      && (forall x :: x in xs <==> exists i :: 0 <= i < |conns| && TimerSend(cfg, conns[i], now, ids(conns[i].sock), x))
      && Once(xs)
    decreases |conns|
  {
    hide TimerSends, Expired, TimerSend, Once;
    if conns == [] {
      assert SweepSends(cfg, conns, now, ids) == [];
      OnceNothing();
    } else {
      var c := conns[0];
      var first := if Expired(cfg, c, now) then [] else TimerSends(c, now, ids(c.sock));
      var rest := SweepSends(cfg, conns[1..], now, ids);
      SweepSendsExactly(cfg, conns[1..], now, ids);
      TimerSendsExactly(cfg, c, now, ids(c.sock));
      forall x | x in first ensures x !in rest {
        if x in rest {
          var i :| 0 <= i < |conns[1..]| && TimerSend(cfg, conns[1..][i], now, ids(conns[1..][i].sock), x);
          TimerSendTo(cfg, c, conns[i + 1], now, ids(c.sock), ids(conns[i + 1].sock), x);
        }
      }
      OnceJoin(first, rest);
      forall x ensures x in first + rest <==> exists i :: 0 <= i < |conns| && TimerSend(cfg, conns[i], now, ids(conns[i].sock), x) {
        if x in rest {
          var i :| 0 <= i < |conns[1..]| && TimerSend(cfg, conns[1..][i], now, ids(conns[1..][i].sock), x);
          assert TimerSend(cfg, conns[i + 1], now, ids(conns[i + 1].sock), x);
        }
        if i :| 0 <= i < |conns| && TimerSend(cfg, conns[i], now, ids(conns[i].sock), x) {
          if i > 0 { assert conns[1..][i - 1] == conns[i]; }
        }
      }
    }
  }

  lemma TimerSendTo(cfg: Config, c: Conn, d: Conn, now: int, id: Txid, id': Txid, x: Send)
    requires TimerSend(cfg, c, now, id, x) && TimerSend(cfg, d, now, id', x)
    ensures c.addr == d.addr || c.sock == d.sock
  {
    hide BindingRequest;
  }

  lemma TimerSendsExactly(cfg: Config, c: Conn, now: int, id: Txid)
    requires ValidConfig(cfg)
    ensures var xs := if Expired(cfg, c, now) then [] else TimerSends(c, now, id);
      Once(xs) && forall x :: x in xs <==> TimerSend(cfg, c, now, id, x)
  {
    hide BindingRequest;
  }

  lemma OnceJoin(a: seq<Send>, b: seq<Send>)
    requires Once(a) && Once(b) && forall x :: x in a ==> x !in b
    ensures Once(a + b)
  {
    forall i, j | 0 <= i < j < |a + b| ensures (a + b)[i] != (a + b)[j] {
      if i < |a| <= j { assert a[i] in a && b[j - |a|] in b; }
    }
  }

  lemma OnceNothing()
    ensures Once([])
  {
  }

  // ----- Binding Requests between relays

  /** The event is a packet for an entry that expects STUN, or for a relay that does when it knows no entry. */
  ghost predicate ExpectsStun(cfg: Config, s: State, e: Event) {
    match e
    case FromClient(sender, view, len, _) =>
      var i := FindAddr(s.conns, sender);
      && len <= |view| == BUFFER_SIZE
      && if i.Some? then s.conns[i.value].mask == StunMask else cfg.maskSet ==> cfg.mask == StunMask
    case FromServer(sock, view, len, _) =>
      var i := FindSock(s.conns, sock);
      len <= |view| == BUFFER_SIZE && i.Some? && s.conns[i.value].mask == StunMask
    case _ => false
  }

  ghost predicate BringsStun(cfg: Config, s: State, e: Event, hi: byte, lo: byte) {
    ExpectsStun(cfg, s, e) && Typed(e.view, e.len, hi, lo)
  }

  /** What goes back to where the event came from. */
  ghost function Back(s: State, e: Event, m: seq<byte>): Send
    requires e.FromClient? || e.FromServer?
  {
    if e.FromClient? then ToClient(e.sender, m) else ToServer(e.sock, m)
  }

  /** A Binding Request is answered once, to its sender and with its transaction id. */
  lemma RequestAnswered(cfg: Config, s: State, now: int, e: Event)
    requires ValidConfig(cfg) && ValidEvent(s, e) && BringsStun(cfg, s, e, 0x00, 0x01)
    ensures var out := Step(cfg, s, now, e);
      && out.state == s && out.forwarded == None
      && exists m :: out.controls == [Back(s, e, m)] && IsAnswer(m, e.view[8..20], if e.FromClient? then e.sender else s.target)
  {
    StunConsumed(cfg, s, now, e, 0x00, 0x01);
    hide OnDataUnwrap, Step, IsAnswer;
    var m := Reply(e, if e.FromClient? then e.sender else s.target);
    assert Step(cfg, s, now, e).controls == [Back(s, e, m)];
  }

  /** A Binding Success rests. */
  lemma SuccessRests(cfg: Config, s: State, now: int, e: Event)
    requires ValidConfig(cfg) && ValidEvent(s, e) && BringsStun(cfg, s, e, 0x01, 0x01)
    ensures Step(cfg, s, now, e) == Outcome(s, [], None)
  {
    StunConsumed(cfg, s, now, e, 0x01, 0x01);
    hide OnDataUnwrap, Step;
    BindingVerdicts(e.view, e.len, if e.FromClient? then e.sender else s.target);
  }

  lemma Reply(e: Event, src: Addr) returns (m: seq<byte>)
    requires (e.FromClient? || e.FromServer?) && e.len <= |e.view| && 40 <= |e.view| && Typed(e.view, e.len, 0x00, 0x01)
    ensures OnDataUnwrap(e.view, e.len, src) == Consumed([m]) && IsAnswer(m, e.view[8..20], src)
  {
    hide BindingSuccess, IsAnswer;
    BindingVerdicts(e.view, e.len, src);
    AnswerShape(e.view[8..20], src);
    m := BindingSuccess(e.view[8..20], src);
  }

  lemma StunConsumed(cfg: Config, s: State, now: int, e: Event, hi: byte, lo: byte)
    requires ValidConfig(cfg) && ValidEvent(s, e) && BringsStun(cfg, s, e, hi, lo) && (hi, lo) in {(0x00, 0x01), (0x01, 0x01)}
    ensures var src := if e.FromClient? then e.sender else s.target;
      && OnDataUnwrap(e.view, e.len, src).Consumed?
      && var replies := OnDataUnwrap(e.view, e.len, src).replies;
      Step(cfg, s, now, e) == Outcome(s, if e.FromClient? then ToClients(e.sender, replies) else ToServers(e.sock, replies), None)
  {
    hide BindingSuccess, OnDataUnwrap, FindAddr, FindSock;
    var src := if e.FromClient? then e.sender else s.target;
    BindingVerdicts(e.view, e.len, src);
    assert e.view[..e.len][0] == hi && e.view[..e.len][1] == lo;
    assert IsObfuscated(e.view[..e.len]);
    AutodetectsStun(cfg.mask, e.view, e.len, src);
  }

  /** So between two relays a Binding Request draws one answer, and the answer draws nothing. */
  lemma RequestRests(cfg: Config, s: State, now: int, e: Event, cfg': Config, s': State, now': int, e': Event)
    requires ValidConfig(cfg) && ValidEvent(s, e) && BringsStun(cfg, s, e, 0x00, 0x01)
    requires ValidConfig(cfg') && ValidEvent(s', e') && ExpectsStun(cfg', s', e')
    ensures var answers := Step(cfg, s, now, e).controls;
      && |answers| == 1
      && (e'.len == |answers[0].bytes| && answers[0].bytes <= e'.view ==> Step(cfg', s', now', e') == Outcome(s', [], None))
  {
    hide Step, Back, IsAnswer;
    RequestAnswered(cfg, s, now, e);
    var m :| Step(cfg, s, now, e).controls == [Back(s, e, m)] && IsAnswer(m, e.view[8..20], if e.FromClient? then e.sender else s.target);
    BackBytes(s, e, m);
    if e'.len == |m| && m <= e'.view {
      AnswerTyped(m, e.view[8..20], if e.FromClient? then e.sender else s.target, e'.view);
      SuccessRests(cfg', s', now', e');
    }
  }

  lemma BackBytes(s: State, e: Event, m: seq<byte>)
    requires e.FromClient? || e.FromServer?
    ensures Back(s, e, m).bytes == m
  {
  }

  lemma AnswerTyped(m: seq<byte>, txid: seq<byte>, to: Addr, view: seq<byte>)
    requires IsAnswer(m, txid, to) && m <= view
    ensures Typed(view, |m|, 0x01, 0x01)
  {
    assert m[0..2] == m[0..8][0..2] && m[4..8] == m[0..8][4..8];
    TypedField(m, 0x01, 0x01, view);
  }
}
