/**
 * The screen channel, over every run: loss, duplication, reordering, skipped diff jobs, server
 * resets and shutdowns included.
 */
module ScreenChannel {
  import opened Base
  import opened TerminalGrid
  import opened MirroredFrame
  import opened LocalEcho
  import opened ClientMirror
  import opened Protocol
  import opened Network
  import Srv = ServerSession
  import Cli = ClientSession

  /** The grids recorded so far and the frames applied, with the server's latest number. */
  datatype Ledger = Ledger(top: nat, recorded: map<nat, Grid>, applied: set<nat>)

  predicate LedgerOk(l: Ledger) {
    && (forall n | n in l.recorded :: 1 <= n <= l.top && Fits(l.recorded[n]))
    && (forall n | n in l.applied :: n in l.recorded)
  }

  /** An acknowledgement is never ahead of the server, and a frame it names was applied. */
  predicate AckOk(a: nat, l: Ledger) {
    a <= l.top && (a in l.recorded ==> a in l.applied)
  }

  /** The reference a frame was diffed against: none, or an applied frame at most six numbers older. */
  predicate ReferenceOk(n: nat, refSeq: nat, l: Ledger) {
    refSeq != 0 ==> refSeq in l.applied && refSeq in l.recorded && refSeq < n <= refSeq + 1 + Srv.MAX_LAG
  }

  predicate FrameOk(n: nat, u: FrameUpdate, l: Ledger)
    requires LedgerOk(l)
  {
    && n in l.recorded
    && ReferenceOk(n, u.refSeq, l)
    && u == DiffFrom(l.recorded[n], if u.refSeq == 0 then None else Some(l.recorded[u.refSeq]), u.refSeq, u.echo)
  }

  predicate PacketOk(p: ServerPacket, l: Ledger)
    requires LedgerOk(l)
  {
    && 1 <= p.seqNum <= l.top
    && (p.payload.FramePayload? <==> p.seqNum in l.recorded)
    && (p.payload.FramePayload? ==> FrameOk(p.seqNum, p.payload.update, l))
  }

  predicate SealedOnce(packets: set<ServerPacket>) {
    forall p, q | p in packets && q in packets && p.seqNum == q.seqNum :: p == q
  }

  predicate PacketsOk(packets: set<ServerPacket>, l: Ledger)
    requires LedgerOk(l)
  {
    SealedOnce(packets) && forall p | p in packets :: PacketOk(p, l)
  }

  /** Every remembered grid is the one recorded under its number. */
  predicate HistoryAgrees(history: seq<Snapshot>, recorded: map<nat, Grid>) {
    forall h | h in history :: h.seqNum in recorded && h.grid == recorded[h.seqNum]
  }

  predicate ServerSide(s: Srv.Server, packets: set<ServerPacket>, l: Ledger) {
    && LedgerOk(l) && s.seqNum == l.top && Fits(s.screen)
    && PacketsOk(packets, l)
    && HistoryAgrees(s.history, l.recorded)
    && AckOk(s.clientAck, l)
  }

  // ----- the ledger only grows -----

  ghost predicate Grows(l: Ledger, l': Ledger) {
    && LedgerOk(l) && LedgerOk(l') && l.top <= l'.top && l.applied <= l'.applied
    && (forall n | n <= l.top :: n in l'.recorded <==> n in l.recorded)
    && (forall n | n in l.recorded :: l'.recorded[n] == l.recorded[n])
  }

  lemma AckStable(a: nat, l: Ledger, l': Ledger)
    requires Grows(l, l') && AckOk(a, l)
    ensures AckOk(a, l')
  {
  }

  lemma PacketStable(p: ServerPacket, l: Ledger, l': Ledger)
    requires Grows(l, l') && PacketOk(p, l)
    ensures PacketOk(p, l')
  {
    hide DiffFrom;
  }

  lemma PacketsStable(packets: set<ServerPacket>, l: Ledger, l': Ledger)
    requires Grows(l, l') && PacketsOk(packets, l)
    ensures PacketsOk(packets, l')
  {
    hide PacketOk;
    forall p | p in packets ensures PacketOk(p, l') {
      PacketStable(p, l, l');
    }
  }

  /** Sealing one packet under the next number. */
  lemma SealKeeps(packets: set<ServerPacket>, l: Ledger, l': Ledger, p: ServerPacket)
    requires Grows(l, l') && PacketsOk(packets, l) && p.seqNum == l.top + 1 && PacketOk(p, l')
    ensures PacketsOk(packets + {p}, l')
  {
    PacketsStable(packets, l, l');
    hide PacketOk;
    assert forall q | q in packets :: q.seqNum <= l.top by {
      assert forall q | q in packets :: PacketOk(q, l);
      BelowTop(packets, l);
    }
  }

  lemma BelowTop(packets: set<ServerPacket>, l: Ledger)
    requires LedgerOk(l) && forall q | q in packets :: PacketOk(q, l)
    ensures forall q | q in packets :: q.seqNum <= l.top
  {
  }

  // ----- the server's steps -----

  function LedgerAfter(l: Ledger, s: Srv.Server, job: Option<Srv.UpdateJob>): (r: Ledger) {
    l.(top := s.seqNum, recorded := RecordJob(l.recorded, job))
  }

  /** A control packet: keepalive reply, handshake acknowledgement or shutdown. */
  lemma ControlKeeps(s: Srv.Server, packets: set<ServerPacket>, l: Ledger, ack: nat, payload: ServerPayload)
    requires ServerSide(s, packets, l) && !payload.FramePayload?
    ensures ServerSide(s.(seqNum := s.seqNum + 1), packets + {ServerPacket(s.seqNum + 1, ack, payload)},
                       l.(top := l.top + 1))
  {
    hide Fits;
    SealKeeps(packets, l, l.(top := l.top + 1), ServerPacket(s.seqNum + 1, ack, payload));
  }

  predicate JobOk(j: Srv.UpdateJob, l: Ledger)
    requires LedgerOk(l)
  {
    && Fits(j.current) && j.seqNum in l.recorded && l.recorded[j.seqNum] == j.current
    && ReferenceOk(j.seqNum, j.refSeq, l)
    && j.refState == if j.refSeq == 0 then None else Some(l.recorded[j.refSeq])
  }

  lemma JobPacketOk(j: Srv.UpdateJob, l: Ledger)
    requires LedgerOk(l) && JobOk(j, l) && 1 <= j.seqNum <= l.top && Srv.ValidJob(j)
    ensures PacketOk(Srv.RunJob(j), l)
  {
    hide ChangedRows;
  }

  lemma ReferenceIsApplied(s: Srv.Server, l: Ledger)
    requires LedgerOk(l) && s.seqNum == l.top && HistoryAgrees(s.history, l.recorded) && AckOk(s.clientAck, l)
    ensures var history := Srv.PruneHistory(s.history, s.clientAck);
            var ref := Srv.ReferenceFor(s, history);
            && HistoryAgrees(history, l.recorded)
            && (ref.Some? ==> s.clientAck in l.applied && s.clientAck in l.recorded && s.clientAck != 0
                              && ref.value == l.recorded[s.clientAck] && s.seqNum <= s.clientAck + Srv.MAX_LAG)
  {
    hide Srv.PruneHistory, Find, Fits;
    Srv.PruneIsSuffix(s.history, s.clientAck);
    FindSound(Srv.PruneHistory(s.history, s.clientAck), s.clientAck);
  }

  lemma RecordAgrees(history: seq<Snapshot>, recorded: map<nat, Grid>, n: nat, g: Grid)
    requires HistoryAgrees(history, recorded) && n !in recorded
    ensures HistoryAgrees(Record(history, Snapshot(n, g)), recorded[n := g])
  {
    assert forall h | h in Record(history, Snapshot(n, g)) :: h in history || h == Snapshot(n, g);
  }

  lemma EmitKeeps(s: Srv.Server, packets: set<ServerPacket>, l: Ledger, now: Time, echo: bool)
    requires ServerSide(s, packets, l) && Srv.ValidServer(s)
    ensures var r := Srv.Emit(s, now, echo);
            && r.job.Some? && Srv.ValidJob(r.job.value) && LedgerOk(LedgerAfter(l, r.server, r.job))
            && Grows(l, LedgerAfter(l, r.server, r.job))
            && ServerSide(r.server, packets + JobPacket(r.job), LedgerAfter(l, r.server, r.job))
  {
    hide Srv.PruneHistory, Srv.ReferenceFor, Record, Srv.RunJob, Fits, PacketsOk, PacketOk, HistoryAgrees;
    var r := Srv.Emit(s, now, echo);
    var j := r.job.value;
    var l' := LedgerAfter(l, r.server, r.job);
    Srv.EmitValid(s, now, echo);
    ReferenceIsApplied(s, l);
    assert LedgerOk(l') && Grows(l, l') && AckOk(s.clientAck, l');
    assert JobOk(j, l');
    JobPacketOk(j, l');
    RunJobNumber(j);
    SealKeeps(packets, l, l', Srv.RunJob(j));
    RecordAgrees(Srv.PruneHistory(s.history, s.clientAck), l.recorded, s.seqNum + 1, s.screen);
  }

  lemma RunJobNumber(j: Srv.UpdateJob)
    requires Srv.ValidJob(j)
    ensures Srv.RunJob(j).seqNum == j.seqNum
  {
    hide DiffFrom;
  }

  lemma SyncKeeps(s: Srv.Server, packets: set<ServerPacket>, l: Ledger, now: Time, echo: bool)
    requires ServerSide(s, packets, l) && Srv.ValidServer(s)
    ensures var r := Srv.CheckSync(s, now, echo);
            && (r.job.Some? ==> Srv.ValidJob(r.job.value)) && Grows(l, LedgerAfter(l, r.server, r.job))
            && ServerSide(r.server, packets + JobPacket(r.job), LedgerAfter(l, r.server, r.job))
  {
    hide Srv.Emit, Srv.Throttled, Fits, PacketsOk, HistoryAgrees;
    var s1 := if Since(now, s.lastPty) >= Srv.FLOOD_WINDOW then s.(ptyAcc := 0) else s;
    assert packets + {} == packets;
    EmitKeeps(s1, packets, l, now, echo);
  }

  lemma RepliedJoin(a: seq<Srv.ServerAction>, b: seq<Srv.ServerAction>)
    ensures Replied(a + b) == Replied(a) + Replied(b)
  {
    assert forall x :: x in a + b <==> x in a || x in b;
  }

  lemma ItemKeeps(s: Srv.Server, packets: set<ServerPacket>, l: Ledger, item: Srv.Item, resized: Grid)
    requires ServerSide(s, packets, l) && Fits(resized)
    ensures var q := Srv.ProcessItem(s, item, resized);
            && Grows(l, l.(top := q.server.seqNum))
            && ServerSide(q.server, packets + Replied(q.replies), l.(top := q.server.seqNum))
  {
    hide Fits, PacketsOk, HistoryAgrees;
    var q := Srv.ProcessItem(s, item, resized);
    if item.payload.KeepAlive? {
      ControlKeeps(s, packets, l, s.ackSeq, KeepAliveReply);
      var a := Srv.SendPacket(ServerPacket(s.seqNum + 1, s.ackSeq, KeepAliveReply));
      assert a in q.replies;
      assert Replied(q.replies) == {a.packet};
    } else {
      assert Replied(q.replies) == {};
      assert packets + {} == packets;
    }
  }

  lemma {:induction false} ItemsKeep(s: Srv.Server, packets: set<ServerPacket>, l: Ledger, items: seq<Srv.Item>,
                                     resized: Grid)
    requires ServerSide(s, packets, l) && Fits(resized)
    ensures var q := Srv.ProcessItems(s, items, resized);
            && Grows(l, l.(top := q.server.seqNum))
            && ServerSide(q.server, packets + Replied(q.replies), l.(top := q.server.seqNum))
    decreases |items|
  {
    hide Fits, ServerSide, Srv.ProcessItem;
    if items == [] {
      TopIs(s, packets, l);
      assert packets + Replied([]) == packets;
      assert l.(top := s.seqNum) == l;
    } else {
      ItemsKeep(s, packets, l, items[..|items| - 1], resized);
      var q := Srv.ProcessItems(s, items[..|items| - 1], resized);
      var last := items[|items| - 1];
      ItemKeeps(q.server, packets + Replied(q.replies), l.(top := q.server.seqNum), last, resized);
      var r := Srv.ProcessItem(q.server, last, resized);
      RepliedJoin(q.replies, r.replies);
      assert packets + Replied(q.replies) + Replied(r.replies) == packets + Replied(q.replies + r.replies);
    }
  }

  lemma TopIs(s: Srv.Server, packets: set<ServerPacket>, l: Ledger)
    requires ServerSide(s, packets, l)
    ensures LedgerOk(l) && l.top == s.seqNum
  {
  }

  /** The state after a whole entry point, the frame job included. */
  predicate FedKeeps(f: Srv.Fed, packets: set<ServerPacket>, l: Ledger)
    requires Srv.FedOk(f)
  {
    ServerSide(f.server, packets + Replied(f.replies) + JobPacket(f.job), LedgerAfter(l, f.server, f.job))
  }

  lemma FinishKeeps(s: Srv.Server, packets: set<ServerPacket>, l: Ledger,
                    replies: seq<Srv.ServerAction>, items: seq<Srv.Item>, now: Time, echo: bool)
    requires LedgerOk(l) && Grows(l, l.(top := s.seqNum)) && Srv.ValidServer(s)
    requires ServerSide(s, packets + Replied(replies), l.(top := s.seqNum))
    ensures var f := Srv.Finish(s, replies, items, now, echo);
            Srv.FedOk(f) && FedKeeps(f, packets, l) && Grows(l, LedgerAfter(l, f.server, f.job))
  {
    hide Srv.CheckSync, ServerSide, Srv.ValidServer, Replied;
    Srv.FinishValid(s, replies, items, now, echo);
    SyncKeeps(s, packets + Replied(replies), l.(top := s.seqNum), now, echo);
    var r := Srv.CheckSync(s, now, echo);
    assert LedgerAfter(l.(top := s.seqNum), r.server, r.job) == LedgerAfter(l, r.server, r.job);
  }

  /** An entry point that changes neither the numbering nor what is on the wire. */
  lemma IdleKeeps(s: Srv.Server, t: Srv.Server, packets: set<ServerPacket>, l: Ledger)
    requires ServerSide(s, packets, l) && Srv.ValidServer(t)
    requires t.seqNum == s.seqNum && t.screen == s.screen && t.history == s.history && t.clientAck == s.clientAck
    ensures var f := Srv.Fed(t, [], [], None);
            Srv.FedOk(f) && FedKeeps(f, packets, l) && LedgerAfter(l, t, None) == l
  {
    hide Fits, PacketsOk, HistoryAgrees;
    assert packets + Replied([]) + {} == packets;
  }

  lemma FeedHandshakeKeeps(s: Srv.Server, packets: set<ServerPacket>, l: Ledger, p: ClientPacket, now: Time,
                           env: Srv.Env)
    requires ServerSide(s, packets, l) && Srv.ValidServer(s)
    ensures var f := Srv.FeedHandshake(s, p, now, env);
            Srv.FedOk(f) && FedKeeps(f, packets, l) && Grows(l, LedgerAfter(l, f.server, f.job))
  {
    hide Fits, PacketsOk, Srv.Finish, FedKeeps, Srv.FedOk;
    IdleKeeps(s, s, packets, l);
    var cleared := s.(clientAck := 0, history := []);
    ControlKeeps(cleared, packets, l, p.seqNum, HandshakeAck(s.sessionId));
    var s1 := Srv.Reset(s, p, now);
    var a := Srv.SendPacket(ServerPacket(s1.seqNum, p.seqNum, HandshakeAck(s.sessionId)));
    assert a in [a];
    assert Replied([a]) == {a.packet};
    FinishKeeps(s1, packets, l, [a], [], now, env.echo);
  }

  lemma FeedTransientKeeps(s: Srv.Server, packets: set<ServerPacket>, l: Ledger, p: ClientPacket, now: Time,
                           env: Srv.Env)
    requires ServerSide(s, packets, l) && Srv.ValidServer(s) && AckOk(p.ack, l)
    ensures var f := Srv.FeedTransient(s, p, now, env);
            Srv.FedOk(f) && FedKeeps(f, packets, l) && Grows(l, LedgerAfter(l, f.server, f.job))
  {
    hide Fits, PacketsOk, Srv.Finish, HistoryAgrees, FedKeeps, Srv.FedOk;
    var s1 := if p.ack > s.clientAck then s.(clientAck := p.ack) else s;
    var replies := match p.payload
      case FragmentNack(frameSeq, mask) => [Srv.ResendFragments(frameSeq, mask)]
      case _ => [];
    assert Replied(replies) == {};
    assert packets + {} == packets;
    FinishKeeps(s1, packets, l, replies, [], now, env.echo);
  }

  lemma FeedInOrderKeeps(s: Srv.Server, packets: set<ServerPacket>, l: Ledger, p: ClientPacket, now: Time, env: Srv.Env)
    requires ServerSide(s, packets, l) && Srv.ValidServer(s) && AckOk(p.ack, l) && Fits(env.resized)
    ensures var f := Srv.FeedInOrder(s, p, now, env);
            Srv.FedOk(f) && FedKeeps(f, packets, l) && Grows(l, LedgerAfter(l, f.server, f.job))
  {
    hide PacketsOk, Srv.Finish, HistoryAgrees, FedKeeps, Srv.FedOk, Srv.ProcessItems, Srv.Contiguous, Srv.Remaining;
    var s1 := Srv.Advance(s, p);
    var done := Srv.ProcessItems(s1, Srv.Released(s, p), env.resized);
    ItemsKeep(s1, packets, l, Srv.Released(s, p), env.resized);
    Srv.ProcessChangesLittle(s1, Srv.Released(s, p), env.resized);
    FinishKeeps(done.server, packets, l, done.replies, Srv.Released(s, p), now, env.echo);
  }

  /** Any packet the server is fed, resets included, keeps its side of the channel. */
  lemma FeedKeeps(s: Srv.Server, packets: set<ServerPacket>, l: Ledger, p: ClientPacket, now: Time, env: Srv.Env)
    requires ServerSide(s, packets, l) && Srv.ValidServer(s) && Fits(env.resized)
    requires p.sessionId != 0 ==> AckOk(p.ack, l)
    ensures var f := Srv.Feed(s, p, now, env);
            Srv.FedOk(f) && FedKeeps(f, packets, l) && Grows(l, LedgerAfter(l, f.server, f.job))
  {
    hide Fits, PacketsOk, HistoryAgrees, FedKeeps, Srv.FedOk, Srv.FeedHandshake, Srv.FeedTransient, Srv.FeedInOrder;
    if p.sessionId == 0 {
      FeedHandshakeKeeps(s, packets, l, p, now, env);
    } else if p.sessionId != s.sessionId {
      IdleKeeps(s, s, packets, l);
    } else {
      var s1 := s.(lastRecv := now);
      if Srv.IsTransient(p) {
        FeedTransientKeeps(s1, packets, l, p, now, env);
      } else if p.seqNum < s.expected {
        IdleKeeps(s, s1, packets, l);
      } else if p.seqNum > s.expected {
        IdleKeeps(s, s1.(outOfOrder := s.outOfOrder[p.seqNum := p.payload]), packets, l);
      } else {
        FeedInOrderKeeps(s1, packets, l, p, now, env);
      }
    }
  }

  // ----- the client's side -----

  function Numbers(history: seq<Snapshot>): (r: set<nat>) {
    set h | h in history :: h.seqNum
  }

  predicate Increasing(history: seq<Snapshot>) {
    forall i, j | 0 <= i < j < |history| :: history[i].seqNum < history[j].seqNum
  }

  /** A frame leaves the history only once 200 newer ones are in it. */
  predicate Covers(history: seq<Snapshot>, applied: set<nat>) {
    && |history| <= HISTORY_MAX
    && forall q | q in applied :: q in Numbers(history) || (|history| == HISTORY_MAX && q < history[0].seqNum)
  }

  predicate ClientSide(ackSeq: nat, history: seq<Snapshot>, l: Ledger) {
    && AckOk(ackSeq, l) && (forall q | q in l.applied :: q <= ackSeq)
    && HistoryAgrees(history, l.recorded) && Increasing(history) && Covers(history, l.applied)
    && (forall h | h in history :: h.seqNum in l.applied)
  }

  lemma {:induction false} NumbersSpread(history: seq<Snapshot>, k: nat)
    requires Increasing(history) && k < |history|
    ensures history[k].seqNum >= history[0].seqNum + k
  {
    if k > 0 {
      NumbersSpread(history, k - 1);
    }
  }

  lemma HistorySpan(ackSeq: nat, history: seq<Snapshot>, l: Ledger)
    requires ClientSide(ackSeq, history, l) && |history| > 0
    ensures history[0].seqNum + |history| - 1 <= ackSeq
  {
    NumbersSpread(history, |history| - 1);
    assert history[|history| - 1] in history;
  }

  /** An applied frame at most six numbers older than the arriving one cannot have been evicted. */
  lemma ReferencePresent(ackSeq: nat, history: seq<Snapshot>, l: Ledger, n: nat, refSeq: nat)
    requires LedgerOk(l) && ClientSide(ackSeq, history, l) && ReferenceOk(n, refSeq, l) && refSeq != 0 && ackSeq < n
    ensures Find(history, refSeq) == Some(l.recorded[refSeq])
  {
    hide Fits;
    if |history| > 0 {
      HistorySpan(ackSeq, history, l);
    }
    FindSound(history, refSeq);
  }

  lemma RememberIncreasing(history: seq<Snapshot>, h: Snapshot)
    requires Increasing(history) && forall x | x in history :: x.seqNum < h.seqNum
    ensures Increasing(Record(history, h))
  {
    assert Increasing(history + [h]);
  }

  lemma RememberCovers(history: seq<Snapshot>, applied: set<nat>, h: Snapshot)
    requires Increasing(history) && Covers(history, applied) && forall x | x in history :: x.seqNum < h.seqNum
    ensures Covers(Record(history, h), applied + {h.seqNum})
  {
    var longer, r := history + [h], Record(history, h);
    assert r[|r| - 1] == h && h in r;
    assert longer == [longer[0]] + longer[1..];
    assert r == longer || r == longer[1..];
    forall q | q in applied ensures q in Numbers(r) || (|r| == HISTORY_MAX && q < r[0].seqNum) {
      if q in Numbers(history) {
        var x :| x in history && x.seqNum == q;
        assert x in longer;
        assert x in r || x == longer[0];
      }
    }
  }

  lemma RememberKeeps(ackSeq: nat, history: seq<Snapshot>, l: Ledger, n: nat)
    requires LedgerOk(l) && ClientSide(ackSeq, history, l) && ackSeq < n && n in l.recorded
    ensures ClientSide(n, Record(history, Snapshot(n, l.recorded[n])), l.(applied := l.applied + {n}))
  {
    hide Fits, Covers, Increasing, Numbers;
    var h := Snapshot(n, l.recorded[n]);
    assert forall x | x in Record(history, h) :: x in history || x == h;
    RememberIncreasing(history, h);
    RememberCovers(history, l.applied, h);
  }

  /** An arriving frame finds its reference and patches to exactly the recorded grid. */
  lemma FramePatches(c: Cli.Client, l: Ledger, n: nat, u: FrameUpdate)
    requires Cli.ValidClient(c) && LedgerOk(l) && FrameOk(n, u, l) && n > c.ackSeq && ClientSide(c.ackSeq, c.history, l)
    ensures var start := Cli.StartFor(c, u);
            start.Some? && Yields(Patch(start.value, u), l.recorded[n])
  {
    hide Patch, DiffFrom, Find, ClientSide, HistoryAgrees;
    var t := l.recorded[n];
    var reference := if u.refSeq == 0 then None else Some(l.recorded[u.refSeq]);
    DiffPatchRoundTrip(t, reference);
    if u.refSeq != 0 {
      ReferencePresent(c.ackSeq, c.history, l, n, u.refSeq);
    } else {
      DiffSize(t, reference, u.refSeq, u.echo);
    }
    assert Yields(Patch(PatchStart(t, reference), DiffFrom(t, reference, u.refSeq, u.echo)), t);
  }

  lemma DiffSize(t: Grid, reference: Option<Grid>, refSeq: nat, echo: bool)
    requires WellFormed(t) && (reference.Some? ==> WellFormed(reference.value))
    ensures var u := DiffFrom(t, reference, refSeq, echo); u.cols == t.cols && u.rows == t.rows
  {
    hide ChangedRows;
  }

  /** The client after a frame it accepts, when nothing goes wrong. */
  function Shown(c: Cli.Client, n: nat, t: Grid, echo: bool): (r: Cli.Client)
    requires Cli.ValidClient(c)
  {
    c.(echoEnabled := echo, mirror := Cli.Mirrored(c.mirror, t, n, echo), history := Record(c.history, Snapshot(n, t)))
  }

  lemma AcceptFrameExact(c: Cli.Client, l: Ledger, n: nat, u: FrameUpdate, now: Time, ackSeq: nat)
    requires Cli.ValidClient(c) && LedgerOk(l) && FrameOk(n, u, l) && n > ackSeq && c.ackSeq == n
    requires ClientSide(ackSeq, c.history, l)
    ensures Cli.AcceptFrame(c, n, u, now) == Cli.AckIfDue(Shown(c, n, l.recorded[n], u.echo), now)
  {
    hide Patch, Cli.StartFor, Cli.AckIfDue, ClientSide, Cli.Mirrored, FrameOk;
    var earlier := c.(ackSeq := ackSeq);
    FramePatches(earlier, l, n, u);
    StartIgnoresAck(c, u, ackSeq);
  }

  lemma StartIgnoresAck(c: Cli.Client, u: FrameUpdate, ackSeq: nat)
    requires Cli.ValidClient(c)
    ensures Cli.StartFor(c, u) == Cli.StartFor(c.(ackSeq := ackSeq), u)
  {
    hide Find;
  }

  // ----- the reference follows the acknowledgement -----

  /** Pruning never drops the acknowledged frame. */
  lemma {:induction false} PruneKeepsReference(history: seq<Snapshot>, clientAck: nat)
    ensures Find(Srv.PruneHistory(history, clientAck), clientAck) == Find(history, clientAck)
    decreases |history|
  {
    if |history| > Srv.HISTORY_KEEP && history[0].seqNum < clientAck {
      PruneKeepsReference(history[1..], clientAck);
    }
  }

  /**
   * A higher acknowledgement that arrives in a transient packet is what the next frame is diffed
   * against, as long as it lags by at most five and its frame is remembered; otherwise the frame is full.
   */
  lemma AcknowledgedFrameIsTheReference(s: Srv.Server, p: ClientPacket, now: Time, env: Srv.Env)
    requires p.sessionId == s.sessionId != 0 && Srv.IsTransient(p) && p.ack > s.clientAck
    ensures var job := Srv.Feed(s, p, now, env).job;
            var remembered := Find(s.history, p.ack);
            job.Some? ==>
              if s.seqNum <= p.ack + Srv.MAX_LAG && remembered.Some?
              then job.value.refSeq == p.ack && job.value.refState == remembered
              else job.value.refSeq == 0 && job.value.refState == None
  {
    hide Srv.PruneHistory, Find, Record;
    PruneKeepsReference(s.history, p.ack);
  }
}
