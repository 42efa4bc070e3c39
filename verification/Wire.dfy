/** What each entry point of the mirror session puts on the wire, and what it does to the numbering. */
module ClientWire {
  import opened Base
  import opened TerminalGrid
  import opened EscapeFilter
  import opened Protocol
  import opened ClientSession
  import opened Network

  /** The part of the client both channels depend on. */
  datatype Core = Core(sessionId: nat, seqNum: nat, ackSeq: nat, unacked: map<nat, Pending>, history: seq<Snapshot>)

  function CoreOf(c: Client): (r: Core) {
    Core(c.sessionId, c.seqNum, c.ackSeq, c.unacked, c.history)
  }

  /** An Ack or NACK numbered in the transient range, under the current acknowledgement. */
  predicate TransientFrom(q: ClientPacket, c: Client) {
    q.seqNum >= TRANSIENT_BIT && q.sessionId == c.sessionId && q.ack == c.ackSeq
        && (q.payload.Ack? || q.payload.FragmentNack?)
  }

  predicate AllTransient(packets: set<ClientPacket>, c: Client) {
    forall q | q in packets :: TransientFrom(q, c)
  }

  /** One new reliable packet was numbered and sent. */
  predicate SendsReliable(c: Client, c': Client, sent: set<ClientPacket>, payload: ClientPayload, now: Time) {
    var p := PrepareReliable(c, payload, now);
    CoreOf(c') == CoreOf(p.client) && sent == {p.packet}
  }

  predicate SendsNothing(c: Client, c': Client, sent: set<ClientPacket>) {
    CoreOf(c') == CoreOf(c) && sent == {}
  }

  lemma SentByJoin(a: seq<ClientAction>, b: seq<ClientAction>)
    ensures SentBy(a + b) == SentBy(a) + SentBy(b)
  {
    assert forall x :: x in a + b <==> x in a || x in b;
  }

  lemma CommandsSendNothing(cs: seq<EscapeCommand>)
    ensures SentBy(CommandActions(cs)) == {}
  {
    forall a | a in CommandActions(cs) ensures !a.Send? {
    }
  }

  lemma StdinWire(c: Client, buf: seq<byte>, now: Time)
    requires ValidClient(c)
    ensures var o := FeedStdin(c, buf, now);
            var f := Filter(c.escape, buf);
            && o.client.escape == f.state
            && if f.Disconnected() || f.sent == [] then SendsNothing(c, o.client, SentBy(o.actions))
               else SendsReliable(c, o.client, SentBy(o.actions), Keystrokes(f.sent), now)
  {
    hide Filter, CommandActions, LocalEcho.Predict;
    var f := Filter(c.escape, buf);
    var ran := CommandActions(f.commands);
    var q := PrepareReliable(c, Keystrokes(f.sent), now).packet;
    CommandsSendNothing(f.commands);
    SentByJoin(ran, [Paint, Send(q)]);
    SentByJoin(ran, [Send(q)]);
    assert Send(q) in [Paint, Send(q)] && Send(q) in [Send(q)];
    assert SentBy([Paint, Send(q)]) == {q} && SentBy([Send(q)]) == {q};
  }

  lemma WinchWire(c: Client, cols: u16, rows: u16, now: Time)
    requires ValidClient(c)
    ensures var o := OnWinch(c, cols, rows, now);
            o.client.escape == c.escape && SendsReliable(c, o.client, SentBy(o.actions), Resize(cols, rows), now)
  {
    hide LocalEcho.Abort;
    var q := PrepareReliable(c, Resize(cols, rows), now).packet;
    assert Send(q) in [Send(q), Paint];
    assert SentBy([Send(q), Paint]) == {q};
  }

  lemma AckWire(c: Client, now: Time)
    ensures var f := AckIfDue(c, now);
            CoreOf(f.client) == CoreOf(c) && f.client.escape == c.escape && f.outcome.Applied?
            && f.client.mirror == c.mirror && AllTransient(SentBy(f.actions), f.client)
  {
  }

  /** A received packet: acknowledged packets go, the acknowledgement rises, the history grows by applied frames. */
  lemma ReceiveWire(c: Client, p: ServerPacket, now: Time)
    requires ValidClient(c)
    ensures var f := Feed(c, p, now);
            && f.client.sessionId == c.sessionId && f.client.seqNum == c.seqNum && f.client.escape == c.escape
            && f.client.unacked == Above(c.unacked, p.ack) && f.client.ackSeq == Max(c.ackSeq, p.seqNum)
            && AllTransient(SentBy(f.actions), f.client)
            && (!f.outcome.Applied? ==> f.client.history == c.history)
            && (f.outcome.Applied? ==> p.payload.FramePayload? && p.seqNum > c.ackSeq)
  {
    hide LocalEcho.Reconcile, AcceptFrame, LossAfter, RttAfter, ClientMirror.ShowBanner;
    var c1 := Receive(c, p, now);
    if p.seqNum > c.ackSeq {
      var c2 := Heard(c1, p.seqNum, now);
      if p.payload.FramePayload? {
        AcceptFrameWire(c2, p.seqNum, p.payload.update, now);
      }
    }
  }

  lemma AcceptFrameWire(c: Client, seqNum: nat, u: FrameUpdate, now: Time)
    requires ValidClient(c)
    ensures var f := AcceptFrame(c, seqNum, u, now);
            && CoreOf(f.client) == CoreOf(c).(history := f.client.history) && f.client.escape == c.escape
            && AllTransient(SentBy(f.actions), f.client)
            && (!f.outcome.Applied? ==> f.client.history == c.history)
            && !f.outcome.Dropped? && !f.outcome.Control?
  {
    hide Patch, StartFor, Mirrored, AckIfDue;
    var start := StartFor(c, u);
    if start.Some? {
      var p := Patch(start.value, u);
      AckWire(c.(echoEnabled := u.echo, mirror := Mirrored(c.mirror, p.grid, seqNum, u.echo),
                 history := Record(c.history, Snapshot(seqNum, p.grid))), now);
    }
  }

  // ----- ticks -----

  lemma NackOneWire(c: Client, r: Report, now: Time)
    ensures var t := NackOne(c, r, now);
            CoreOf(t.client) == CoreOf(c) && AllTransient(SentBy(t.actions), c)
  {
  }

  lemma {:induction false} NackAllWire(c: Client, reports: seq<Report>, now: Time)
    ensures var t := NackAll(c, reports, now);
            CoreOf(t.client) == CoreOf(c) && AllTransient(SentBy(t.actions), c)
    decreases |reports|
  {
    hide NackOne;
    if reports != [] {
      NackAllWire(c, reports[..|reports| - 1], now);
      var t := NackAll(c, reports[..|reports| - 1], now);
      NackOneWire(t.client, reports[|reports| - 1], now);
      SentByJoin(t.actions, NackOne(t.client, reports[|reports| - 1], now).actions);
    }
  }

  lemma TickNackWire(c: Client, incomplete: seq<Report>, now: Time)
    ensures var t := TickNack(c, incomplete, now);
            CoreOf(t.client) == CoreOf(c) && AllTransient(SentBy(t.actions), c)
  {
    hide NackAll;
    NackAllWire(c.(lastNack := now), incomplete, now);
  }

  lemma KeepaliveWire(c: Client, now: Time)
    ensures var t := TickKeepalive(c, now);
            SendsNothing(c, t.client, SentBy(t.actions))
                || SendsReliable(c, t.client, SentBy(t.actions), KeepAlive, now)
  {
    var q := PrepareReliable(c, KeepAlive, now).packet;
    assert Send(q) in [Send(q)];
    assert SentBy([Send(q)]) == {q} && SentBy([]) == {};
  }

  lemma TickWire(c: Client, incomplete: seq<Report>, now: Time)
    ensures var k := Tick(c, incomplete, now);
            var t := TickKeepalive(c, now);
            && (SendsNothing(c, t.client, SentBy(k.before))
                || SendsReliable(c, t.client, SentBy(k.before), KeepAlive, now))
            && CoreOf(k.client) == CoreOf(TickArq(t.client, now)) && k.resent == Overdue(t.client, now)
            && AllTransient(SentBy(k.later), c)
  {
    hide TickKeepalive, TickArq, TickBanner, TickTelemetry, TickNack, SentBy;
    var t := TickKeepalive(c, now);
    var c2 := TickArq(t.client, now);
    var t3 := TickBanner(c2, now);
    var t4 := TickTelemetry(t3.client, now);
    var t5 := TickNack(t4.client, incomplete, now);
    KeepaliveWire(c, now);
    ArqCore(t.client, now);
    BannerWire(c2, now);
    TelemetryWire(t3.client, now);
    TickNackWire(t4.client, incomplete, now);
    SentByJoin(t3.actions + t4.actions, t5.actions);
    SentByJoin(t3.actions, t4.actions);
    TransientMoves(SentBy(t5.actions), t4.client, c);
    assert {} + {} + SentBy(t5.actions) == SentBy(t5.actions);
  }

  lemma BannerWire(c: Client, now: Time)
    ensures var t := TickBanner(c, now);
            CoreOf(t.client) == CoreOf(c) && SentBy(t.actions) == {}
  {
    hide ClientMirror.ShowBanner, Backoff;
  }

  lemma TelemetryWire(c: Client, now: Time)
    ensures var t := TickTelemetry(c, now);
            CoreOf(t.client) == CoreOf(c) && SentBy(t.actions) == {}
  {
  }

  lemma ArqCore(c: Client, now: Time)
    ensures CoreOf(TickArq(c, now)) == CoreOf(c).(unacked := TickArq(c, now).unacked)
  {
  }

  lemma TransientMoves(packets: set<ClientPacket>, c: Client, d: Client)
    requires AllTransient(packets, c) && c.sessionId == d.sessionId && c.ackSeq == d.ackSeq
    ensures AllTransient(packets, d)
  {
  }

  /** The tick's retransmissions are exactly the overdue packets, in whatever order they are sent. */
  lemma TickSends(actions: seq<ClientAction>, c: Client, incomplete: seq<Report>, now: Time)
    requires TickActions(actions, c, Tick(c, incomplete, now), now)
    ensures var k := Tick(c, incomplete, now);
            SentBy(actions) == SentBy(k.before) + ResentPackets(k.client.unacked, k.resent) + SentBy(k.later)
  {
    hide TickKeepalive, TickNack, SentBy;
    TickWire(c, incomplete, now);
    var k := Tick(c, incomplete, now);
    var unacked := TickKeepalive(c, now).client.unacked;
    var order :| Enumerates(order, k.resent) && (forall q | q in order :: q in unacked)
                 && actions == k.before + Resends(unacked, order) + k.later;
    SentByJoin(k.before + Resends(unacked, order), k.later);
    SentByJoin(k.before, Resends(unacked, order));
    ResendsArePackets(unacked, order, k.resent);
    assert ResentPackets(k.client.unacked, k.resent) == ResentPackets(unacked, k.resent);
  }

  lemma ResendsArePackets(unacked: map<nat, Pending>, order: seq<nat>, which: set<nat>)
    requires Enumerates(order, which) && forall k | k in order :: k in unacked
    ensures SentBy(Resends(unacked, order)) == ResentPackets(unacked, which)
  {
    forall k | k in which ensures unacked[k].packet in SentBy(Resends(unacked, order)) {
      var i :| 0 <= i < |order| && order[i] == k;
      assert Resends(unacked, order)[i] == Send(unacked[k].packet);
      assert Send(unacked[k].packet) in Resends(unacked, order);
    }
    forall a | a in Resends(unacked, order) ensures a.packet in ResentPackets(unacked, which) {
      var i :| 0 <= i < |order| && Resends(unacked, order)[i] == a;
      assert order[i] in order;
    }
  }

  // ----- which frames are reported missing -----

  /** Each incomplete frame appears once in a report. */
  predicate Distinct(reports: seq<Report>) {
    forall i, j | 0 <= i < j < |reports| :: reports[i].frameSeq != reports[j].frameSeq
  }

  /** The frame was not reported during the last 100 ms. */
  predicate NackDue(c: Client, r: Report, now: Time) {
    r.frameSeq !in c.nacked || Since(now, c.nacked[r.frameSeq]) >= 100
  }

  /** A NACK with exactly this frame and mask was sent. */
  predicate Nacked(sent: set<ClientPacket>, r: Report) {
    exists q :: q in sent && q.payload == FragmentNack(r.frameSeq, r.mask)
  }

  predicate AnyNack(sent: set<ClientPacket>, frameSeq: nat) {
    exists q :: q in sent && q.payload.FragmentNack? && q.payload.frameSeq == frameSeq
  }

  lemma NackOneSends(c: Client, r: Report, now: Time)
    ensures var t := NackOne(c, r, now);
            && t.client.nacked == (if NackDue(c, r, now) then c.nacked[r.frameSeq := now] else c.nacked)
            && (NackDue(c, r, now) ==> Nacked(SentBy(t.actions), r))
            && (forall f | AnyNack(SentBy(t.actions), f) :: f == r.frameSeq && NackDue(c, r, now))
  {
    if NackDue(c, r, now) {
      var p := PrepareNack(c.(nacked := c.nacked[r.frameSeq := now]), r.frameSeq, r.mask).packet;
      assert Send(p) in [Send(p)];
      assert p in SentBy([Send(p)]);
    }
  }

  lemma NackedJoin(a: set<ClientPacket>, b: set<ClientPacket>, r: Report)
    ensures Nacked(a + b, r) <==> Nacked(a, r) || Nacked(b, r)
    ensures AnyNack(a + b, r.frameSeq) <==> AnyNack(a, r.frameSeq) || AnyNack(b, r.frameSeq)
  {
  }

  /** What a pass over the reports sent for the ones seen, and did not send for the others. */
  ghost predicate NackedExactly(c: Client, t: Outgoing, reports: seq<Report>, now: Time) {
    && (forall i | 0 <= i < |reports| ::
          && (NackDue(c, reports[i], now) ==> Nacked(SentBy(t.actions), reports[i]))
          && (!NackDue(c, reports[i], now) ==> !AnyNack(SentBy(t.actions), reports[i].frameSeq)))
    && (forall f: nat | (forall i | 0 <= i < |reports| :: reports[i].frameSeq != f) ::
          !AnyNack(SentBy(t.actions), f) && (f in t.client.nacked <==> f in c.nacked)
          && (f in c.nacked ==> t.client.nacked[f] == c.nacked[f]))
  }

  lemma NackNext(c: Client, t: Outgoing, reports: seq<Report>, r: Report, now: Time)
    requires NackedExactly(c, t, reports, now) && Distinct(reports + [r])
    ensures var u := NackOne(t.client, r, now);
            NackedExactly(c, Outgoing(u.client, t.actions + u.actions), reports + [r], now)
  {
    hide SentBy, NackOne, Nacked, AnyNack;
    var u := NackOne(t.client, r, now);
    var all := reports + [r];
    NackOneSends(t.client, r, now);
    SentByJoin(t.actions, u.actions);
    assert all[|reports|] == r;
    assert forall i | 0 <= i < |reports| :: all[i] == reports[i] && reports[i].frameSeq != r.frameSeq;
    forall i | 0 <= i < |reports|
      ensures (NackDue(c, reports[i], now) ==> Nacked(SentBy(t.actions + u.actions), reports[i]))
              && (!NackDue(c, reports[i], now) ==> !AnyNack(SentBy(t.actions + u.actions), reports[i].frameSeq))
    {
      NackedJoin(SentBy(t.actions), SentBy(u.actions), reports[i]);
    }
    NackedJoin(SentBy(t.actions), SentBy(u.actions), r);
    forall f: nat | (forall i | 0 <= i < |all| :: all[i].frameSeq != f)
      ensures !AnyNack(SentBy(t.actions + u.actions), f)
    {
      NackedJoin(SentBy(t.actions), SentBy(u.actions), Report(f, []));
      assert forall i | 0 <= i < |reports| :: reports[i].frameSeq == all[i].frameSeq;
    }
  }

  lemma NackNone(c: Client, now: Time)
    ensures NackedExactly(c, NackAll(c, [], now), [], now)
  {
    assert SentBy([]) == {};
  }

  lemma NackAllNext(c: Client, before: seq<Report>, r: Report, now: Time)
    ensures var t := NackAll(c, before, now);
            var u := NackOne(t.client, r, now);
            NackAll(c, before + [r], now) == Outgoing(u.client, t.actions + u.actions)
  {
    assert (before + [r])[..|before|] == before;
  }

  lemma {:induction false} NackAllExactly(c: Client, reports: seq<Report>, now: Time)
    requires Distinct(reports)
    ensures NackedExactly(c, NackAll(c, reports, now), reports, now)
    decreases |reports|
  {
    hide NackedExactly, NackOne, NackAll;
    if reports == [] {
      NackNone(c, now);
    } else {
      var before, r := reports[..|reports| - 1], reports[|reports| - 1];
      NackAllExactly(c, before, now);
      assert before + [r] == reports;
      NackNext(c, NackAll(c, before, now), before, r, now);
      NackAllNext(c, before, r, now);
    }
  }

  /**
   * When the 40 ms check is due, a tick reports exactly the incomplete frames not reported during the
   * last 100 ms, each with its own mask, and no frame that is not incomplete.
   */
  lemma IncompleteFramesAreReported(c: Client, incomplete: seq<Report>, now: Time)
    requires Distinct(incomplete)
    ensures var sent := SentBy(TickNack(c, incomplete, now).actions);
            && (Since(now, c.lastNack) < 40 ==> sent == {})
            && (Since(now, c.lastNack) >= 40 ==>
                  && (forall i | 0 <= i < |incomplete| ::
                        NackDue(c, incomplete[i], now) ==> Nacked(sent, incomplete[i]))
                  && (forall i | 0 <= i < |incomplete| ::
                        !NackDue(c, incomplete[i], now) ==> !AnyNack(sent, incomplete[i].frameSeq))
                  && forall f: nat | (forall i | 0 <= i < |incomplete| :: incomplete[i].frameSeq != f) ::
                       !AnyNack(sent, f))
  {
    hide NackAll, Nacked, AnyNack;
    if Since(now, c.lastNack) < 40 {
      assert SentBy([]) == {};
    } else {
      NackAllExactly(c.(lastNack := now), incomplete, now);
    }
  }
}
