/** Start-up begins a run of the state machine, and every iteration of the main loop carries the run on. */
module MainLoop {
  import opened Bytes
  import opened Net
  import opened Stun
  import opened RelaySpec
  import opened RelayCases
  import opened RelayInvariants
  import opened RelayTheorems
  import opened EndToEnd
  import opened Relay

  lemma ReactionKeeps(cfg: Config, t: Traced, before: int, now: int, a: Arrival, view: seq<byte>) returns (t': Traced)
    requires ValidConfig(cfg) && |view| == BUFFER_SIZE && Inv(cfg, t, before) && before <= now
    requires forall k :: a.Opens(k) ==> Lacks(t.s.conns, k)
    ensures t'.s == Reaction(cfg, t.s, now, a, view).state && Inv(cfg, t', now)
  {
    hide Inv, ClientStep, ServerStep, FindSock, NextLogs, Lacks;
    match a
    case FromListen(pkt, sender, luck, _, _) =>
      if luck.sock.Some? {
        assert a.Opens(luck.sock.value);
        LacksNone(t.s.conns, luck.sock.value);
      }
      var m := Moment(now, FromClient(sender, view, |pkt|, luck));
      StepKeeps(cfg, t, before, m);
      t' := Next(cfg, t, m);
    case FromSocket(fd, pkt, luck, _, _) =>
      var m := Moment(now, FromServer(fd, view, |pkt|, luck));
      StepKeeps(cfg, t, before, m);
      t' := Next(cfg, t, m);
    case FromResolver(queue) =>
      InvLater(cfg, t, before, now);
      t' := DrainKeepsInv(cfg, t, now, queue);
  }

  lemma {:induction false} DrainKeepsInv(cfg: Config, t: Traced, now: int, queue: seq<Resolution>) returns (t': Traced)
    requires ValidConfig(cfg) && Inv(cfg, t, now)
    ensures t'.s == Drained(t.s, queue) && Inv(cfg, t', now)
    decreases |queue|
  {
    hide Inv, ResolveStep, NextLogs;
    if queue == [] {
      t' := t;
    } else {
      var m := Moment(now, Resolved(queue[0].result, queue[0].refused));
      StepKeeps(cfg, t, now, m);
      t' := DrainKeepsInv(cfg, Next(cfg, t, m), now, queue[1..]);
    }
  }

  lemma {:induction false} BatchKeeps(cfg: Config, t: Traced, before: int, now: int, batch: seq<Arrival>, views: seq<seq<byte>>)
    returns (t': Traced)
    requires ValidConfig(cfg) && Views(batch, views)
    requires Inv(cfg, t, before) && before <= now && NewSockets(t.s.conns, batch)
    ensures t'.s == Batch(cfg, t.s, now, batch, views).0 && Inv(cfg, t', now)
    decreases |batch|
  {
    hide Inv, Reaction, Lacks;
    if batch == [] {
      InvLater(cfg, t, before, now);
      t' := t;
    } else {
      var n := |batch| - 1;
      var mid := BatchKeeps(cfg, t, before, now, batch[..n], views[..n]);
      BatchLacks(cfg, t.s, now, batch[..n], views[..n], batch);
      t' := ReactionKeeps(cfg, mid, now, now, batch[n], views[n]);
    }
  }

  /** What is new to the table before the arrivals is new to it after them. */
  lemma {:induction false} BatchLacks(cfg: Config, s: State, now: int, first: seq<Arrival>, views: seq<seq<byte>>, batch: seq<Arrival>)
    requires ValidConfig(cfg) && Views(first, views)
    requires first <= batch && NewSockets(s.conns, batch)
    ensures forall n, k :: |first| <= n < |batch| && batch[n].Opens(k) ==> Lacks(Batch(cfg, s, now, first, views).0.conns, k)
    decreases |first|
  {
    hide Reaction, Lacks;
    if first != [] {
      var m := |first| - 1;
      BatchLacks(cfg, s, now, first[..m], views[..m], batch);
      var (t, _) := Batch(cfg, s, now, first[..m], views[..m]);
      forall n, k | |first| <= n < |batch| && batch[n].Opens(k) ensures Lacks(Batch(cfg, s, now, first, views).0.conns, k) {
        assert !batch[m].Opens(k);
        ReactionSockets(cfg, t, now, first[m], views[m], k);
      }
    }
  }

  /** Whatever arrives, the invariant of the state machine holds again at the end of the iteration. */
  lemma IterationKeeps(cfg: Config, t: Traced, before: int, now: int, batch: seq<Arrival>, views: seq<seq<byte>>, ids: nat -> Txid)
    returns (t': Traced)
    requires ValidConfig(cfg) && Views(batch, views)
    requires Inv(cfg, t, before) && before <= now && NewSockets(t.s.conns, batch)
    ensures t'.s == Iteration(cfg, t.s, now, batch, views, ids).0 && Inv(cfg, t', now)
  {
    hide Inv, Batch, CleanupStep, NextLogs, NewSockets;
    var mid := BatchKeeps(cfg, t, before, now, batch, views);
    var m := Moment(now, Tick(ids));
    StepKeeps(cfg, mid, now, m);
    t' := Next(cfg, mid, m);
  }

  // ----- an iteration is a piece of a run

  /** The events are possible one after the other, all at the same time. */
  ghost predicate Playable(cfg: Config, s: State, now: int, es: seq<Event>)
    requires ValidConfig(cfg)
    decreases |es|, 0
  {
    es == [] || (Playable(cfg, s, now, es[..|es| - 1]) && ValidEvent(Played(cfg, s, now, es[..|es| - 1]).0, es[|es| - 1]))
  }

  /** The state they lead to, and everything that is sent on the way. */
  ghost function Played(cfg: Config, s: State, now: int, es: seq<Event>): (State, seq<Send>)
    requires ValidConfig(cfg) && Playable(cfg, s, now, es)
    decreases |es|, 1
  {
    if es == [] then (s, [])
    else
      var (t, sent) := Played(cfg, s, now, es[..|es| - 1]);
      var out := Step(cfg, t, now, es[|es| - 1]);
      (out.state, sent + OnWire(out.controls, out.forwarded))
  }

  lemma PlayedNext(cfg: Config, s: State, now: int, es: seq<Event>, e: Event)
    requires ValidConfig(cfg) && Playable(cfg, s, now, es) && ValidEvent(Played(cfg, s, now, es).0, e)
    ensures Playable(cfg, s, now, es + [e])
    ensures var (t, sent) := Played(cfg, s, now, es);
      var out := Step(cfg, t, now, e);
      Played(cfg, s, now, es + [e]) == (out.state, sent + OnWire(out.controls, out.forwarded))
  {
    hide Step, ValidEvent;
    assert (es + [e])[..|es|] == es;
  }

  lemma PlayedBefore(cfg: Config, s: State, now: int, es: seq<Event>)
    requires ValidConfig(cfg) && Playable(cfg, s, now, es)
    ensures es == [] ==> Played(cfg, s, now, es) == (s, [])
    ensures es != [] ==> Playable(cfg, s, now, es[..|es| - 1]) && ValidEvent(Played(cfg, s, now, es[..|es| - 1]).0, es[|es| - 1])
  {
    hide Step, ValidEvent;
  }

  lemma NothingPlayed(cfg: Config, s: State, now: int)
    requires ValidConfig(cfg)
    ensures Playable(cfg, s, now, []) && Played(cfg, s, now, []) == (s, [])
  {
  }

  lemma {:induction false} PlayedOn(cfg: Config, s: State, now: int, es: seq<Event>, fs: seq<Event>)
    requires ValidConfig(cfg) && Playable(cfg, s, now, es) && Playable(cfg, Played(cfg, s, now, es).0, now, fs)
    ensures Playable(cfg, s, now, es + fs)
    ensures var (t, sent) := Played(cfg, s, now, es);
      var (u, more) := Played(cfg, t, now, fs);
      Played(cfg, s, now, es + fs) == (u, sent + more)
    decreases |fs|
  {
    hide Step, ValidEvent, Playable, Played, OnWire;
    PlayedBefore(cfg, Played(cfg, s, now, es).0, now, fs);
    if fs == [] {
      assert es + fs == es;
      assert Played(cfg, s, now, es).1 + [] == Played(cfg, s, now, es).1;
    } else {
      var n := |fs| - 1;
      PlayedOn(cfg, s, now, es, fs[..n]);
      assert fs[..n] + [fs[n]] == fs && (es + fs[..n]) + [fs[n]] == es + fs;
      PlayedNext(cfg, s, now, es + fs[..n], fs[n]);
      var (t, sent) := Played(cfg, s, now, es);
      PlayedNext(cfg, t, now, fs[..n], fs[n]);
      var (u, more) := Played(cfg, t, now, fs[..n]);
      var out := Step(cfg, u, now, fs[n]);
      assert sent + (more + OnWire(out.controls, out.forwarded)) == (sent + more) + OnWire(out.controls, out.forwarded);
    }
  }

  /** The events of one arrival; each resolver result is one of its own. */
  ghost function EventsOf(a: Arrival, view: seq<byte>): seq<Event>
  {
    match a
    case FromListen(pkt, sender, luck, _, _) => [FromClient(sender, view, |pkt|, luck)]
    case FromSocket(fd, pkt, luck, _, _) => [FromServer(fd, view, |pkt|, luck)]
    case FromResolver(queue) => QueueEvents(queue)
  }

  ghost function QueueEvents(queue: seq<Resolution>): seq<Event>
  {
    seq(|queue|, i requires 0 <= i < |queue| => Resolved(queue[i].result, queue[i].refused))
  }

  lemma {:induction false} DrainedNext(s: State, queue: seq<Resolution>, r: Resolution)
    ensures Drained(s, queue + [r]) == ResolveStep(Drained(s, queue), r.result, r.refused)
    decreases |queue|
  {
    hide ResolveStep;
    if queue == [] {
      assert queue + [r] == [r] && [r][1..] == [];
    } else {
      assert (queue + [r])[1..] == queue[1..] + [r];
      DrainedNext(ResolveStep(s, queue[0].result, queue[0].refused), queue[1..], r);
    }
  }

  lemma NothingDrained(s: State, queue: seq<Resolution>)
    requires queue == []
    ensures Drained(s, queue) == s
  {
  }

  lemma {:induction false} QueuePlayed(cfg: Config, s: State, now: int, queue: seq<Resolution>)
    requires ValidConfig(cfg)
    ensures Playable(cfg, s, now, QueueEvents(queue)) && Played(cfg, s, now, QueueEvents(queue)) == (Drained(s, queue), [])
    decreases |queue|
  {
    hide ResolveStep, Playable, Played, Drained;
    if queue == [] {
      NothingPlayed(cfg, s, now);
      NothingDrained(s, queue);
      assert QueueEvents(queue) == [];
    } else {
      var n := |queue| - 1;
      NothingBefore([]);
      QueuePlayed(cfg, s, now, queue[..n]);
      DrainedNext(s, queue[..n], queue[n]);
      assert queue[..n] + [queue[n]] == queue;
      assert QueueEvents(queue) == QueueEvents(queue[..n]) + [Resolved(queue[n].result, queue[n].refused)];
      PlayedNext(cfg, s, now, QueueEvents(queue[..n]), Resolved(queue[n].result, queue[n].refused));
    }
  }

  lemma NothingBefore(xs: seq<Send>)
    ensures [] + xs == xs && OnWire(xs, None) == xs
  {
  }

  lemma ReactionPlayed(cfg: Config, s: State, now: int, a: Arrival, view: seq<byte>)
    requires ValidConfig(cfg) && |view| == BUFFER_SIZE && forall k :: a.Opens(k) ==> Lacks(s.conns, k)
    ensures Playable(cfg, s, now, EventsOf(a, view))
    ensures var out := Reaction(cfg, s, now, a, view);
      Played(cfg, s, now, EventsOf(a, view)) == (out.state, OnWire(out.controls, out.forwarded))
  {
    hide ClientStep, ServerStep, FindSock, Lacks;
    match a
    case FromListen(pkt, sender, luck, _, _) =>
      if luck.sock.Some? {
        assert a.Opens(luck.sock.value);
        LacksNone(s.conns, luck.sock.value);
      }
      var e := FromClient(sender, view, |pkt|, luck);
      assert [] + [e] == [e];
      PlayedNext(cfg, s, now, [], e);
      NothingBefore(OnWire(Step(cfg, s, now, e).controls, Step(cfg, s, now, e).forwarded));
    case FromSocket(fd, pkt, luck, _, _) =>
      var e := FromServer(fd, view, |pkt|, luck);
      assert [] + [e] == [e];
      PlayedNext(cfg, s, now, [], e);
      NothingBefore(OnWire(Step(cfg, s, now, e).controls, Step(cfg, s, now, e).forwarded));
    case FromResolver(queue) =>
      QueuePlayed(cfg, s, now, queue);
      NothingBefore([]);
  }

  ghost function BatchEvents(batch: seq<Arrival>, views: seq<seq<byte>>): seq<Event>
    requires Views(batch, views)
    decreases |batch|
  {
    if batch == [] then []
    else
      var n := |batch| - 1;
      BatchEvents(batch[..n], views[..n]) + EventsOf(batch[n], views[n])
  }

  ghost function IterationEvents(batch: seq<Arrival>, views: seq<seq<byte>>, ids: nat -> Txid): seq<Event>
    requires Views(batch, views)
  {
    BatchEvents(batch, views) + [Tick(ids)]
  }

  lemma {:induction false} BatchPlayed(cfg: Config, s: State, now: int, batch: seq<Arrival>, views: seq<seq<byte>>)
    requires ValidConfig(cfg) && Views(batch, views) && NewSockets(s.conns, batch)
    ensures Playable(cfg, s, now, BatchEvents(batch, views))
    ensures Played(cfg, s, now, BatchEvents(batch, views)) == Batch(cfg, s, now, batch, views)
    decreases |batch|
  {
    hide Reaction, Lacks, EventsOf, Step;
    if batch != [] {
      var n := |batch| - 1;
      BatchPlayed(cfg, s, now, batch[..n], views[..n]);
      BatchLacks(cfg, s, now, batch[..n], views[..n], batch);
      var t := Batch(cfg, s, now, batch[..n], views[..n]).0;
      ReactionPlayed(cfg, t, now, batch[n], views[n]);
      PlayedOn(cfg, s, now, BatchEvents(batch[..n], views[..n]), EventsOf(batch[n], views[n]));
    }
  }

  /** An iteration of the main loop is its arrivals' events and then a tick. */
  lemma IterationPlayed(cfg: Config, s: State, now: int, batch: seq<Arrival>, views: seq<seq<byte>>, ids: nat -> Txid)
    requires ValidConfig(cfg) && Views(batch, views) && NewSockets(s.conns, batch)
    ensures Playable(cfg, s, now, IterationEvents(batch, views, ids))
    ensures Played(cfg, s, now, IterationEvents(batch, views, ids)) == Iteration(cfg, s, now, batch, views, ids)
  {
    hide CleanupStep, Batch, NewSockets;
    BatchPlayed(cfg, s, now, batch, views);
    PlayedNext(cfg, s, now, BatchEvents(batch, views), Tick(ids));
    var t := Batch(cfg, s, now, batch, views).0;
    CleanupForwardsNothing(cfg, t, now, ids);
    NothingBefore(CleanupStep(cfg, t, now, ids).controls);
  }

  // ----- so a run goes on with it

  /** Everything that is sent from the `a`-th to before the `b`-th event. */
  ghost function SentBetween(cfg: Config, ts: seq<Traced>, ms: seq<Moment>, a: nat, b: nat): seq<Send>
    requires ValidConfig(cfg) && IsRun(cfg, ts, ms) && a <= b <= |ms|
    decreases b
  {
    if a == b then []
    else
      var out := Step(cfg, ts[b - 1].s, ms[b - 1].now, ms[b - 1].event);
      SentBetween(cfg, ts, ms, a, b - 1) + OnWire(out.controls, out.forwarded)
  }

  lemma OneMore(cfg: Config, ts: seq<Traced>, ms: seq<Moment>, m: Moment)
    requires ValidConfig(cfg) && IsRun(cfg, ts, ms) && ValidEvent(ts[|ms|].s, m.event) && 0 <= TimeAt(ms, |ms|) <= m.now
    ensures IsRun(cfg, ts + [Next(cfg, ts[|ms|], m)], ms + [m])
  {
    hide Next, Started, ValidEvent;
    var ts', ms' := ts + [Next(cfg, ts[|ms|], m)], ms + [m];
    assert ts'[0] == ts[0];
    forall i | 0 <= i < |ms'| ensures ValidEvent(ts'[i].s, ms'[i].event) {
      if i < |ms| { assert ts'[i] == ts[i] && ms'[i] == ms[i]; }
    }
    forall i | 0 <= i < |ms'| ensures ts'[i + 1] == Next(cfg, ts'[i], ms'[i]) {
      if i < |ms| { assert ts'[i] == ts[i] && ms'[i] == ms[i] && ts'[i + 1] == ts[i + 1]; }
    }
  }

  lemma {:induction false} SentSame(cfg: Config, ts: seq<Traced>, ms: seq<Moment>, ts': seq<Traced>, ms': seq<Moment>, a: nat, b: nat)
    requires ValidConfig(cfg) && IsRun(cfg, ts, ms) && IsRun(cfg, ts', ms') && ts <= ts' && ms <= ms' && a <= b <= |ms|
    ensures SentBetween(cfg, ts', ms', a, b) == SentBetween(cfg, ts, ms, a, b)
    decreases b
  {
    hide Step, IsRun;
    RunLength(cfg, ts, ms);
    if a < b {
      SentSame(cfg, ts, ms, ts', ms', a, b - 1);
    }
  }

  /** The run with `es` played at its end. */
  lemma {:induction false} RunOn(cfg: Config, ts: seq<Traced>, ms: seq<Moment>, now: int, es: seq<Event>)
    returns (ts': seq<Traced>, ms': seq<Moment>)
    requires ValidConfig(cfg) && IsRun(cfg, ts, ms) && TimeAt(ms, |ms|) <= now && Playable(cfg, ts[|ms|].s, now, es)
    ensures IsRun(cfg, ts', ms') && ts <= ts' && ms <= ms' && |ms'| == |ms| + |es|
    ensures ts'[|ms'|].s == Played(cfg, ts[|ms|].s, now, es).0
    ensures SentBetween(cfg, ts', ms', |ms|, |ms'|) == Played(cfg, ts[|ms|].s, now, es).1
    ensures es != [] ==> ms'[|ms'| - 1] == Moment(now, es[|es| - 1])
    decreases |es|
  {
    hide Step, NextLogs, ValidEvent, IsRun, Played, Playable, SentBetween;
    RunLength(cfg, ts, ms);
    PlayedBefore(cfg, ts[|ms|].s, now, es);
    if es == [] {
      ts', ms' := ts, ms;
      NothingSent(cfg, ts, ms);
    } else {
      var n := |es| - 1;
      var us, ns := RunOn(cfg, ts, ms, now, es[..n]);
      var m := Moment(now, es[n]);
      RunLength(cfg, us, ns);
      TimeAfter(cfg, us, ns, now, es[..n], |ms|);
      OneMore(cfg, us, ns, m);
      ts', ms' := us + [Next(cfg, us[|ns|], m)], ns + [m];
      SentSame(cfg, us, ns, ts', ms', |ms|, |ns|);
      assert es[..n] + [es[n]] == es;
      PlayedNext(cfg, ts[|ms|].s, now, es[..n], es[n]);
      SentLast(cfg, ts', ms', |ms|);
    }
  }

  lemma NothingSent(cfg: Config, ts: seq<Traced>, ms: seq<Moment>)
    requires ValidConfig(cfg) && IsRun(cfg, ts, ms)
    ensures SentBetween(cfg, ts, ms, |ms|, |ms|) == []
  {
  }

  lemma SentLast(cfg: Config, ts: seq<Traced>, ms: seq<Moment>, a: nat)
    requires ValidConfig(cfg) && IsRun(cfg, ts, ms) && a < |ms|
    ensures var n := |ms| - 1;
      var out := Step(cfg, ts[n].s, ms[n].now, ms[n].event);
      SentBetween(cfg, ts, ms, a, |ms|) == SentBetween(cfg, ts, ms, a, n) + OnWire(out.controls, out.forwarded)
  {
    hide Step;
  }

  lemma TimeAfter(cfg: Config, ts: seq<Traced>, ms: seq<Moment>, now: int, es: seq<Event>, before: nat)
    requires ValidConfig(cfg) && IsRun(cfg, ts, ms) && |ms| == before + |es|
    requires if es == [] then TimeAt(ms, |ms|) <= now else ms[|ms| - 1].now == now
    ensures 0 <= TimeAt(ms, |ms|) <= now
  {
  }

  /**
   * Whatever run has led to the state of a relay, an iteration of its main loop carries the run on: it ends in the state
   * of the iteration, at its time, with a tick, having sent what the iteration sent.
   */
  lemma IterationRunsOn(cfg: Config, ts: seq<Traced>, ms: seq<Moment>, now: int, batch: seq<Arrival>, views: seq<seq<byte>>, ids: nat -> Txid)
    returns (ts': seq<Traced>, ms': seq<Moment>)
    requires ValidConfig(cfg) && IsRun(cfg, ts, ms) && TimeAt(ms, |ms|) <= now
    requires Views(batch, views) && NewSockets(ts[|ms|].s.conns, batch)
    ensures IsRun(cfg, ts', ms') && ts <= ts' && ms < ms' && ms'[|ms'| - 1] == Moment(now, Tick(ids))
    ensures (ts'[|ms'|].s, SentBetween(cfg, ts', ms', |ms|, |ms'|)) == Iteration(cfg, ts[|ms|].s, now, batch, views, ids)
  {
    hide IsRun, NewSockets, Iteration, Played, Playable, SentBetween;
    RunLength(cfg, ts, ms);
    IterationPlayed(cfg, ts[|ms|].s, now, batch, views, ids);
    ts', ms' := RunOn(cfg, ts, ms, now, IterationEvents(batch, views, ids));
    RunLength(cfg, ts', ms');
  }

  // ----- and a history of two relays goes on with an iteration of either

  ghost predicate AllDeliverable(es: seq<Event>, clientSide: Packets, targetSide: Packets) {
    forall i :: 0 <= i < |es| ==> Brought(es[i], clientSide, targetSide)
  }

  ghost function WithA(w: World, now: int, played: (State, seq<Send>)): World
  {
    w.(a := played.0, netAB := w.netAB + BytesTo(S2C, played.1), gotA := w.gotA + BytesTo(C2S, played.1))
  }

  ghost function WithB(w: World, now: int, played: (State, seq<Send>)): World
  {
    w.(b := played.0, netBA := w.netBA + BytesTo(C2S, played.1), gotB := w.gotB + BytesTo(S2C, played.1))
  }

  lemma BytesJoin(side: Dir, xs: seq<Send>, ys: seq<Send>)
    ensures BytesTo(side, xs + ys) == BytesTo(side, xs) + BytesTo(side, ys)
    ensures BytesTo(side, []) == {}
  {
    forall b | b in BytesTo(side, xs) + BytesTo(side, ys) ensures b in BytesTo(side, xs + ys) {
      var x :| (x in xs || x in ys) && SideOf(x) == side && x.bytes == b;
      assert x in xs + ys;
    }
  }

  lemma OneMoreMove(cfgA: Config, cfgB: Config, ws: seq<World>, moves: seq<Move>, move: Move)
    requires ValidConfig(cfgA) && ValidConfig(cfgB) && IsHistory(cfgA, cfgB, ws, moves) && Possible(ws[|moves|], move)
    ensures IsHistory(cfgA, cfgB, ws + [After(cfgA, cfgB, ws[|moves|], move)], moves + [move])
  {
    hide After, Possible, Fresh;
    var ws', moves' := ws + [After(cfgA, cfgB, ws[|moves|], move)], moves + [move];
    assert ws'[0] == ws[0];
    forall i | 0 <= i < |moves'| ensures Possible(ws'[i], moves'[i]) {
      if i < |moves| { assert ws'[i] == ws[i] && moves'[i] == moves[i]; }
    }
    forall i | 0 <= i < |moves'| ensures ws'[i + 1] == After(cfgA, cfgB, ws'[i], moves'[i]) {
      if i < |moves| { assert ws'[i] == ws[i] && moves'[i] == moves[i] && ws'[i + 1] == ws[i + 1]; }
    }
  }

  lemma {:induction false} HistoryOnA(cfgA: Config, cfgB: Config, ws: seq<World>, moves: seq<Move>, now: int, es: seq<Event>)
    returns (ws': seq<World>, moves': seq<Move>)
    requires ValidConfig(cfgA) && ValidConfig(cfgB) && IsHistory(cfgA, cfgB, ws, moves)
    requires var w := ws[|moves|]; Playable(cfgA, w.a, now, es) && AllDeliverable(es, w.sentA, w.netBA)
    ensures IsHistory(cfgA, cfgB, ws', moves') && ws <= ws' && moves <= moves'
    ensures ws'[|moves'|] == WithA(ws[|moves|], now, Played(cfgA, ws[|moves|].a, now, es))
    decreases |es|
  {
    hide Step, ValidEvent, Fresh, Brought, BytesTo;
    var w := ws[|moves|];
    if es == [] {
      ws', moves' := ws, moves;
      BytesJoin(S2C, [], []);
      BytesJoin(C2S, [], []);
    } else {
      var n := |es| - 1;
      var us, ns := HistoryOnA(cfgA, cfgB, ws, moves, now, es[..n]);
      var (s, sent) := Played(cfgA, w.a, now, es[..n]);
      var out := Step(cfgA, s, now, es[n]);
      assert Brought(es[n], w.sentA, w.netBA);
      OneMoreMove(cfgA, cfgB, us, ns, ARuns(now, es[n]));
      ws', moves' := us + [After(cfgA, cfgB, us[|ns|], ARuns(now, es[n]))], ns + [ARuns(now, es[n])];
      BytesJoin(S2C, sent, OnWire(out.controls, out.forwarded));
      BytesJoin(C2S, sent, OnWire(out.controls, out.forwarded));
    }
  }

  lemma {:induction false} HistoryOnB(cfgA: Config, cfgB: Config, ws: seq<World>, moves: seq<Move>, now: int, es: seq<Event>)
    returns (ws': seq<World>, moves': seq<Move>)
    requires ValidConfig(cfgA) && ValidConfig(cfgB) && IsHistory(cfgA, cfgB, ws, moves)
    requires var w := ws[|moves|]; Playable(cfgB, w.b, now, es) && AllDeliverable(es, w.netAB, w.sentB)
    ensures IsHistory(cfgA, cfgB, ws', moves') && ws <= ws' && moves <= moves'
    ensures ws'[|moves'|] == WithB(ws[|moves|], now, Played(cfgB, ws[|moves|].b, now, es))
    decreases |es|
  {
    hide Step, ValidEvent, Fresh, Brought, BytesTo;
    var w := ws[|moves|];
    if es == [] {
      ws', moves' := ws, moves;
      BytesJoin(S2C, [], []);
      BytesJoin(C2S, [], []);
    } else {
      var n := |es| - 1;
      var us, ns := HistoryOnB(cfgA, cfgB, ws, moves, now, es[..n]);
      var (s, sent) := Played(cfgB, w.b, now, es[..n]);
      var out := Step(cfgB, s, now, es[n]);
      assert Brought(es[n], w.netAB, w.sentB);
      OneMoreMove(cfgA, cfgB, us, ns, BRuns(now, es[n]));
      ws', moves' := us + [After(cfgA, cfgB, us[|ns|], BRuns(now, es[n]))], ns + [BRuns(now, es[n])];
      BytesJoin(S2C, sent, OnWire(out.controls, out.forwarded));
      BytesJoin(C2S, sent, OnWire(out.controls, out.forwarded));
    }
  }

  /** The network and the peer deliver only what was put there. */
  ghost predicate Delivered(batch: seq<Arrival>, clientSide: Packets, targetSide: Packets) {
    forall n :: 0 <= n < |batch| ==>
      match batch[n]
      case FromListen(pkt, _, _, _, _) => |pkt| <= BUFFER_SIZE ==> pkt in clientSide
      case FromSocket(_, pkt, _, _, _) => |pkt| <= BUFFER_SIZE ==> pkt in targetSide
      case FromResolver(_) => true
  }

  lemma {:induction false} DeliveredEvents(batch: seq<Arrival>, views: seq<seq<byte>>, clientSide: Packets, targetSide: Packets)
    requires Delivered(batch, clientSide, targetSide) && Views(batch, views)
    ensures AllDeliverable(BatchEvents(batch, views), clientSide, targetSide)
    decreases |batch|
  {
    if batch != [] {
      var n := |batch| - 1;
      DeliveredEvents(batch[..n], views[..n], clientSide, targetSide);
      DeliveredEvent(batch[n], views[n], clientSide, targetSide);
    }
  }

  lemma DeliveredEvent(a: Arrival, view: seq<byte>, clientSide: Packets, targetSide: Packets)
    requires Delivered([a], clientSide, targetSide) && a.SeenIn(view)
    ensures AllDeliverable(EventsOf(a, view), clientSide, targetSide)
  {
    assert [a][0] == a;
    if !a.FromResolver? && |a.pkt| <= BUFFER_SIZE { assert view[..|a.pkt|] == a.pkt; }
  }

  /** So `EndToEndDelivery` holds of two such programs, each going through its main loop. */
  lemma IterationInHistory(cfgA: Config, cfgB: Config, ws: seq<World>, moves: seq<Move>, atA: bool, now: int, batch: seq<Arrival>,
                           views: seq<seq<byte>>, ids: nat -> Txid)
    returns (ws': seq<World>, moves': seq<Move>)
    requires ValidConfig(cfgA) && ValidConfig(cfgB) && IsHistory(cfgA, cfgB, ws, moves) && Views(batch, views)
    requires var w := ws[|moves|];
      if atA then NewSockets(w.a.conns, batch) && Delivered(batch, w.sentA, w.netBA)
      else NewSockets(w.b.conns, batch) && Delivered(batch, w.netAB, w.sentB)
    ensures IsHistory(cfgA, cfgB, ws', moves') && ws <= ws' && moves <= moves'
    ensures var w := ws[|moves|];
      ws'[|moves'|] == if atA then WithA(w, now, Iteration(cfgA, w.a, now, batch, views, ids))
                       else WithB(w, now, Iteration(cfgB, w.b, now, batch, views, ids))
  {
    hide Iteration, NewSockets, Delivered, Played, Playable, WithA, WithB;
    var w, es := ws[|moves|], IterationEvents(batch, views, ids);
    if atA {
      IterationPlayed(cfgA, w.a, now, batch, views, ids);
      DeliveredEvents(batch, views, w.sentA, w.netBA);
      ws', moves' := HistoryOnA(cfgA, cfgB, ws, moves, now, es);
    } else {
      IterationPlayed(cfgB, w.b, now, batch, views, ids);
      DeliveredEvents(batch, views, w.netAB, w.sentB);
      ws', moves' := HistoryOnB(cfgA, cfgB, ws, moves, now, es);
    }
  }

  // ----- the program: start-up, and then one iteration after the other

  /** Start-up begins a run. */
  method Begin(cfg: Config, hash: Addr -> nat, target: Addr, bs: seq<Binding>)
    returns (server: Server, ok: bool, ghost ts: seq<Traced>)
    requires ValidConfig(cfg) && forall i, j :: 0 <= i < j < |bs| ==> bs[i].sock != bs[j].sock
    ensures server.Valid() && fresh(server.Repr()) && server.path.cfg == cfg && ok == Boot(cfg, target, bs).Some?
    ensures ok ==> IsRun(cfg, ts, []) && ts[0].s == server.Abs()
  {
    hide Server.Valid, Server.Abs, Boot;
    server := new Server(cfg, hash, target);
    StartsAt(server, target);
    ok := server.Start(bs);
    ts := [];
    if ok {
      var logs := map k | 0 <= k < |bs| :: bs[k].sock := [Created(0)] + [Request(C2S, 0, false)];
      ts := [Traced(server.Abs(), logs)];
      assert Started(cfg, ts[0], target, bs);
    }
  }

  lemma StartsAt(server: Server, target: Addr)
    requires server.Abs() == State([], target, 0, [])
    ensures server.forward == target
  {
  }

  /** One iteration, with the run it belongs to: what holds of every run holds of the relay after it. */
  method Continue(server: Server, batch: seq<Arrival>, now: int, ids: nat -> Txid, ghost ts0: seq<Traced>, ghost ms0: seq<Moment>)
    returns (sent: seq<Send>, ghost ts: seq<Traced>, ghost ms: seq<Moment>)
    requires server.Valid() && ValidConfig(server.path.cfg) && server.path.full.Length == PREBUFFER_SIZE + BUFFER_SIZE
    requires IsRun(server.path.cfg, ts0, ms0) && ts0[|ms0|].s == server.Abs() && TimeAt(ms0, |ms0|) <= now
    requires NewSockets(server.Abs().conns, batch) && Polled(server.Abs().conns, batch)
    modifies server.Repr()
    ensures server.Valid() && fresh(server.Repr() - old(server.Repr()))
    ensures IsRun(server.path.cfg, ts, ms) && ts0 <= ts && ms0 < ms && TimeAt(ms, |ms|) == now
    ensures ts[|ms|].s == server.Abs() && sent == SentBetween(server.path.cfg, ts, ms, |ms0|, |ms|)
  {
    hide Server.Valid, Server.Abs, IsRun, NewSockets, Polled, Iteration, SentBetween;
    ghost var views;
    sent, views := server.Iterate(batch, now, ids);
    ts, ms := IterationRunsOn(server.path.cfg, ts0, ms0, now, batch, views, ids);
    RunLength(server.path.cfg, ts, ms);
  }
}
