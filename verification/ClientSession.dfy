/** The mirror session (src/client/session.rs). */
module ClientSession {
  import opened Base
  import opened TerminalGrid
  import opened MirroredFrame
  import opened LocalEcho
  import opened ClientMirror
  import opened EscapeFilter
  import opened Protocol

  datatype Pending = Pending(packet: ClientPacket, sentAt: Time)

  datatype Client = Client(sessionId: nat, seqNum: nat, ackSeq: nat, lastRecv: Time, echoEnabled: bool,
                           sent: map<nat, Time>, unacked: map<nat, Pending>, lastArq: Time, lastKeepalive: Time,
                           keepaliveInterval: nat, lastAckSent: Time, reconnecting: bool, transientSeq: nat,
                           lastNack: Time, nacked: map<nat, Time>, expectedServer: nat, lossWindow: seq<bool>,
                           history: seq<Snapshot>, rttMs: nat, lastTelemetry: Time, mirror: Mirror, escape: EscapeState)

  datatype ClientAction = Send(packet: ClientPacket) | Paint | SuspendSelf | ShowHelp | Quit

  const OUTAGE := 5000
  const LOSS_WINDOW := 100
  const ACK_INTERVAL := 30
  const ARQ_INTERVAL := 100
  const NACK_INTERVAL := 40
  const NACK_REPEAT := 100
  const NACK_MEMORY := 2000
  const BOGUS_RTT := 5000
  const KEEPALIVE := 2000
  const TELEMETRY_INTERVAL := 1000

  predicate ValidClient(c: Client) {
    ValidFrame(c.mirror.frame) && forall h | h in c.history :: WellFormed(h.grid)
  }

  function InitClient(sessionId: nat, startServerSeq: nat, mirror: Mirror, now: Time): (r: Client) {
    Client(sessionId, 0, 0, now, true, map[], map[], now, now, KEEPALIVE, now, false, 0, now, map[], startServerSeq,
           [], [], 0, now, mirror, START)
  }

  // ----- sending -----

  datatype Prepared = Prepared(client: Client, packet: ClientPacket)

  /** Keystrokes, resizes and keepalives: numbered, and kept until acknowledged. */
  function PrepareReliable(c: Client, payload: ClientPayload, now: Time): (r: Prepared) {
    var n := c.seqNum + 1;
    var packet := ClientPacket(c.sessionId, n, c.ackSeq, payload);
    Prepared(c.(seqNum := n, sent := c.sent[n := now], unacked := c.unacked[n := Pending(packet, now)]), packet)
  }

  /** `(1 << 63) | n` for a counter below 2^63. */
  function TransientNumber(n: nat): (r: nat) {
    TRANSIENT_BIT + n
  }

  function PrepareAck(c: Client, now: Time): (r: Prepared) {
    var n := c.transientSeq + 1;
    Prepared(c.(transientSeq := n, lastAckSent := now), ClientPacket(c.sessionId, TransientNumber(n), c.ackSeq, Ack))
  }

  function PrepareNack(c: Client, frameSeq: nat, mask: seq<bv64>): (r: Prepared) {
    var n := c.transientSeq + 1;
    Prepared(c.(transientSeq := n),
             ClientPacket(c.sessionId, TransientNumber(n), c.ackSeq, FragmentNack(frameSeq, mask)))
  }

  // ----- feed_packet: acknowledgements and telemetry -----

  function LostSlots(n: nat): (r: seq<bool>) {
    seq(n, _ => false)
  }

  function Newest(w: seq<bool>): (r: seq<bool>) {
    if |w| > LOSS_WINDOW then w[|w| - LOSS_WINDOW..] else w
  }

  datatype Loss = Loss(expected: nat, window: seq<bool>)

  /** One received number: gaps push lost slots, a late packet corrects its slot. */
  function PushSlots(l: Loss, seqNum: nat): (r: Loss) {
    if l.expected == 0 then Loss(seqNum + 1, l.window)
    else if seqNum >= l.expected then Loss(seqNum + 1, l.window + LostSlots(seqNum - l.expected) + [true])
    else
      var gap := l.expected - 1 - seqNum;
      Loss(l.expected, if gap < |l.window| then l.window[|l.window| - 1 - gap := true] else l.window)
  }

  function CountLoss(l: Loss, seqNum: nat): (r: Loss) {
    var pushed := PushSlots(l, seqNum);
    Loss(pushed.expected, Newest(pushed.window))
  }

  predicate Recovering(lastRecv: Time, now: Time) {
    Since(now, lastRecv) > OUTAGE
  }

  /** After an outage the loss window starts over at the received number. */
  function LossAfter(l: Loss, lastRecv: Time, seqNum: nat, now: Time): (r: Loss) {
    CountLoss(if Recovering(lastRecv, now) then Loss(seqNum, []) else l, seqNum)
  }

  /** Smoothed round trip; the f32 weights 0.8 and 0.2 as exact tenths. */
  function RttAfter(rttMs: nat, sent: map<nat, Time>, lastRecv: Time, ack: nat, now: Time): (r: nat) {
    if ack in sent && !Recovering(lastRecv, now) && Since(now, sent[ack]) < BOGUS_RTT then
      var rtt := Since(now, sent[ack]);
      if rttMs == 0 then rtt else (8 * rttMs + 2 * rtt) / 10
    else rttMs
  }

  function Above<V>(m: map<nat, V>, ack: nat): (r: map<nat, V>) {
    map k | k in m && k > ack :: m[k]
  }

  /** The acknowledged packets go, and the round trip is counted. */
  function Pruned(c: Client, ack: nat, now: Time): (c': Client)
    ensures c' == c.(rttMs := c'.rttMs, sent := c'.sent, unacked := Above(c.unacked, ack))
  {
    c.(rttMs := RttAfter(c.rttMs, c.sent, c.lastRecv, ack, now), sent := Above(c.sent, ack),
       unacked := Above(c.unacked, ack))
  }

  /** And the losses are. */
  function Counted(c: Client, p: ServerPacket, now: Time): (c': Client)
    ensures c'.mirror == c.mirror && c'.history == c.history
  {
    var loss := LossAfter(Loss(c.expectedServer, c.lossWindow), c.lastRecv, p.seqNum, now);
    Pruned(c, p.ack, now).(expectedServer := loss.expected, lossWindow := loss.window)
  }

  /** Everything a packet does before its own number is looked at. */
  function Receive(c: Client, p: ServerPacket, now: Time): (c': Client)
    requires ValidClient(c)
    ensures ValidClient(c')
  {
    Counted(c, p, now).(mirror := Reconcile(c.mirror, p.ack))
  }

  // ----- feed_packet: payloads -----

  /** `Panicked`: the reconnecting banner goes away over a frame without rows, and the row index is out of bounds. */
  datatype Outcome = Dropped | Control | Applied | MissingReference | PatchFailed | Panicked

  datatype Fed = Fed(client: Client, actions: seq<ClientAction>, outcome: Outcome)

  /** What a frame is patched onto: nothing recorded for a nonzero reference means the branch that gives up. */
  function StartFor(c: Client, u: FrameUpdate): (g: Option<Grid>)
    requires ValidClient(c)
    ensures g.Some? ==> WellFormed(g.value)
  {
    if u.refSeq == 0 then Some(BlankGrid(u.cols, u.rows))
    else
      FindSound(c.history, u.refSeq);
      Find(c.history, u.refSeq)
  }

  /** The mirror after a frame: the grid, then pending predictions again, or none when echo is off. */
  function Mirrored(m: Mirror, g: Grid, seqNum: nat, echo: bool): (m': Mirror)
    requires ValidFrame(m.frame)
    ensures ValidFrame(m'.frame)
  {
    var applied := ApplyFrame(m, g, seqNum);
    if echo then applied else Abort(applied)
  }

  function AckIfDue(c: Client, now: Time): (r: Fed) {
    if Since(now, c.lastAckSent) >= ACK_INTERVAL then
      var a := PrepareAck(c, now);
      Fed(a.client, [Paint, Send(a.packet)], Applied)
    else Fed(c, [Paint], Applied)
  }

  function AcceptFrame(c: Client, seqNum: nat, u: FrameUpdate, now: Time): (f: Fed)
    requires ValidClient(c)
    ensures ValidClient(f.client)
  {
    var start := StartFor(c, u);
    if start.None? then
      var a := PrepareAck(c, now);
      Fed(a.client, [Send(a.packet)], MissingReference)
    else
      var p := Patch(start.value, u);
      if !p.ok then Fed(c, [], PatchFailed)
      else
        AckIfDue(c.(echoEnabled := u.echo, mirror := Mirrored(c.mirror, p.grid, seqNum, u.echo),
                    history := Record(c.history, Snapshot(seqNum, p.grid))), now)
  }

  function Dispatch(c: Client, p: ServerPacket, now: Time): (f: Fed)
    requires ValidClient(c)
    ensures ValidClient(f.client)
  {
    match p.payload
    case FramePayload(u) => AcceptFrame(c, p.seqNum, u, now)
    case KeepAliveReply => Fed(c, [], Control)
    case Shutdown => Fed(c, [Quit], Control)
    case HandshakeAck(_) => Fed(c, [], Control)
  }

  /** The client once a newer packet has arrived, before its payload is looked at. */
  function Heard(c: Client, seqNum: nat, now: Time): (c': Client)
    requires ValidClient(c)
    ensures ValidClient(c')
  {
    BannerDown(c.(lastRecv := now, ackSeq := seqNum, keepaliveInterval := KEEPALIVE))
  }

  function BannerDown(c: Client): (c': Client)
    requires ValidClient(c)
    ensures ValidClient(c')
  {
    if c.reconnecting then c.(reconnecting := false, mirror := ShowBanner(c.mirror, false)) else c
  }

  /** A packet newer than everything acknowledged. */
  function Accept(c: Client, p: ServerPacket, now: Time): (f: Fed)
    requires ValidClient(c)
    ensures ValidClient(f.client)
  {
    if c.reconnecting && c.mirror.frame.rows == 0 then Fed(Heard(c, p.seqNum, now), [], Panicked)
    else Dispatch(Heard(c, p.seqNum, now), p, now)
  }

  function Feed(c: Client, p: ServerPacket, now: Time): (f: Fed)
    requires ValidClient(c)
    ensures ValidClient(f.client)
  {
    var c1 := Receive(c, p, now);
    if p.seqNum <= c1.ackSeq then Fed(c1, [], Dropped) else Accept(c1, p, now)
  }

  /** What a payload can change beyond what every newer packet changes. */
  predicate ChangesPayload(c: Client, d: Client) {
    d == c.(echoEnabled := d.echoEnabled, mirror := d.mirror, history := d.history, transientSeq := d.transientSeq,
            lastAckSent := d.lastAckSent)
  }

  lemma AcceptFrameChangesLittle(c: Client, seqNum: nat, u: FrameUpdate, now: Time)
    requires ValidClient(c)
    ensures ChangesPayload(c, AcceptFrame(c, seqNum, u, now).client)
  {
    hide Patch, StartFor, Mirrored, Record;
  }

  lemma FeedChangesLittle(c: Client, p: ServerPacket, now: Time)
    requires ValidClient(c)
    ensures var received, d := Receive(c, p, now), Feed(c, p, now).client;
            if p.seqNum <= received.ackSeq then d == received else ChangesPayload(Heard(received, p.seqNum, now), d)
  {
    hide Receive, Heard, AcceptFrame;
    var heard := Heard(Receive(c, p, now), p.seqNum, now);
    if p.payload.FramePayload? {
      AcceptFrameChangesLittle(heard, p.seqNum, p.payload.update, now);
    }
  }

  /** A newer packet ends an outage while the mirrored frame has no rows. */
  predicate Panics(c: Client, p: ServerPacket) {
    p.seqNum > c.ackSeq && c.reconnecting && c.mirror.frame.rows == 0
  }

  lemma PanicsExactly(c: Client, p: ServerPacket, now: Time)
    requires ValidClient(c)
    ensures Feed(c, p, now).outcome.Panicked? <==> Panics(c, p)
  {
    hide Reconcile, LossAfter, RttAfter, Patch, StartFor, Mirrored, ShowBanner;
    ReconcileKeepsShape(c.mirror, p.ack);
  }

  // ----- feed_stdin and on_winch -----

  predicate Printable(bytes: seq<byte>) {
    forall b | b in bytes :: 0x20 <= b && b != 0x7f
  }

  function CommandAction(c: EscapeCommand): (r: ClientAction) {
    match c
    case Disconnect => Quit
    case Suspend => SuspendSelf
    case Help => ShowHelp
    case ToggleOverlay => Paint
  }

  function CommandActions(cs: seq<EscapeCommand>): (r: seq<ClientAction>) {
    seq(|cs|, i requires 0 <= i < |cs| => CommandAction(cs[i]))
  }

  /** Every command but the disconnect asks for a repaint. */
  predicate Dirtying(cs: seq<EscapeCommand>) {
    exists c :: c in cs && c != Disconnect
  }

  lemma DirtyingNext(cs: seq<EscapeCommand>, c: EscapeCommand)
    ensures Dirtying(cs + [c]) <==> Dirtying(cs) || c != Disconnect
  {
    assert c in cs + [c];
    assert forall x | x in cs :: x in cs + [c];
  }

  function MarkDirty(m: Mirror, dirty: bool): (r: Mirror) {
    m.(frame := m.frame.(dirty := m.frame.dirty || dirty))
  }

  lemma NothingRun(s: EscapeState, m: Mirror)
    ensures Filter(s, []) == Filtered(s, [], []) && CommandActions([]) == [] && MarkDirty(m, Dirtying([])) == m
  {
  }

  lemma MarkTwice(m: Mirror, a: bool, b: bool)
    ensures MarkDirty(MarkDirty(m, a), b) == MarkDirty(m, a || b)
            && MarkDirty(MarkDirty(m, a), false) == MarkDirty(m, a)
  {
  }

  datatype Outgoing = Outgoing(client: Client, actions: seq<ClientAction>)

  /** Filter, run commands, then send what is left; a disconnect discards the bytes of its own read. */
  function FeedStdin(c: Client, buf: seq<byte>, now: Time): (t: Outgoing)
    requires ValidClient(c)
    ensures ValidClient(t.client)
  {
    var f := Filter(c.escape, buf);
    var c1 := c.(escape := f.state, mirror := MarkDirty(c.mirror, Dirtying(f.commands)));
    var ran := CommandActions(f.commands);
    if f.Disconnected() || f.sent == [] then Outgoing(c1, ran)
    else
      var p := PrepareReliable(c1, Keystrokes(f.sent), now);
      if p.client.echoEnabled && Printable(f.sent) then
        Outgoing(p.client.(mirror := Predict(p.client.mirror, f.sent, p.client.seqNum)), ran + [Paint, Send(p.packet)])
      else Outgoing(p.client, ran + [Send(p.packet)])
  }

  function OnWinch(c: Client, cols: u16, rows: u16, now: Time): (t: Outgoing)
    requires ValidClient(c)
    ensures ValidClient(t.client)
  {
    var p := PrepareReliable(c, Resize(cols, rows), now);
    Outgoing(p.client.(mirror := MarkDirty(Abort(p.client.mirror), true)), [Send(p.packet), Paint])
  }

  // ----- on_tick -----

  function TickKeepalive(c: Client, now: Time): (r: Outgoing) {
    if Since(now, c.lastKeepalive) >= c.keepaliveInterval then
      var p := PrepareReliable(c, KeepAlive, now);
      Outgoing(p.client.(lastKeepalive := now), [Send(p.packet)])
    else Outgoing(c, [])
  }

  /** Twice the round trip, between 200 and 1000 ms. */
  function RttLimit(c: Client): (limit: nat)
    ensures 200 <= limit <= 1000
  {
    Min(Max(2 * c.rttMs, 200), 1000)
  }

  /** The packets whose last transmission is too long ago, when a retransmission check is due. */
  function Overdue(c: Client, now: Time): (r: set<nat>) {
    if Since(now, c.lastArq) < ARQ_INTERVAL then {}
    else set k | k in c.unacked && Since(now, c.unacked[k].sentAt) >= RttLimit(c)
  }

  function TickArq(c: Client, now: Time): (r: Client) {
    if Since(now, c.lastArq) < ARQ_INTERVAL then c
    else
      c.(lastArq := now, unacked := MarkSent(c.unacked, Overdue(c, now), now))
  }

  function MarkSent(unacked: map<nat, Pending>, which: set<nat>, now: Time): (r: map<nat, Pending>) {
    map k | k in unacked :: if k in which then unacked[k].(sentAt := now) else unacked[k]
  }

  function Backoff(silence: nat): (r: nat) {
    if silence < 5000 then 2000
    else if silence < 15000 then 5000
    else if silence < 60000 then 15000
    else if silence < 180000 then 60000
    else if silence < 600000 then 120000
    else 180000
  }

  function TickBanner(c: Client, now: Time): (r: Outgoing) {
    var silence := Since(now, c.lastRecv);
    if c.reconnecting != (silence > OUTAGE) then
      Outgoing(c.(reconnecting := silence > OUTAGE, keepaliveInterval := Backoff(silence),
                  mirror := ShowBanner(c.mirror, silence > OUTAGE)), [Paint])
    else Outgoing(c, [])
  }

  /** Once a second the overlay's figures are taken and a repaint asked for. */
  function TickTelemetry(c: Client, now: Time): (r: Outgoing) {
    if Since(now, c.lastTelemetry) >= TELEMETRY_INTERVAL then Outgoing(c.(lastTelemetry := now), [Paint])
    else Outgoing(c, [])
  }

  datatype Report = Report(frameSeq: nat, mask: seq<bv64>)

  function NackOne(c: Client, r: Report, now: Time): (result: Outgoing) {
    if r.frameSeq !in c.nacked || Since(now, c.nacked[r.frameSeq]) >= NACK_REPEAT then
      var p := PrepareNack(c.(nacked := c.nacked[r.frameSeq := now]), r.frameSeq, r.mask);
      Outgoing(p.client, [Send(p.packet)])
    else Outgoing(c, [])
  }

  function NackAll(c: Client, reports: seq<Report>, now: Time): (r: Outgoing) {
    if reports == [] then Outgoing(c, [])
    else
      var t := NackAll(c, reports[..|reports| - 1], now);
      var u := NackOne(t.client, reports[|reports| - 1], now);
      Outgoing(u.client, t.actions + u.actions)
  }

  function ForgetNacks(c: Client, now: Time): (r: Client) {
    c.(nacked := map k | k in c.nacked && k > c.ackSeq && Since(now, c.nacked[k]) < NACK_MEMORY :: c.nacked[k])
  }

  function TickNack(c: Client, incomplete: seq<Report>, now: Time): (r: Outgoing) {
    if Since(now, c.lastNack) < NACK_INTERVAL then Outgoing(c, [])
    else
      var t := NackAll(c.(lastNack := now), incomplete, now);
      Outgoing(ForgetNacks(t.client, now), t.actions)
  }

  /** `resent` are retransmitted between `before` and `later`, in the hash map's order. */
  datatype Ticked = Ticked(client: Client, before: seq<ClientAction>, resent: set<nat>, later: seq<ClientAction>)

  function Tick(c: Client, incomplete: seq<Report>, now: Time): (r: Ticked) {
    var t1 := TickKeepalive(c, now);
    var c2 := TickArq(t1.client, now);
    var t3 := TickBanner(c2, now);
    var t4 := TickTelemetry(t3.client, now);
    var t5 := TickNack(t4.client, incomplete, now);
    Ticked(t5.client, t1.actions, Overdue(t1.client, now), t3.actions + t4.actions + t5.actions)
  }

  lemma {:induction false} NackChangesLittle(c: Client, reports: seq<Report>, now: Time)
    ensures var t := NackAll(c, reports, now).client;
            t == c.(nacked := t.nacked, transientSeq := t.transientSeq)
    decreases |reports|
  {
    if reports != [] {
      NackChangesLittle(c, reports[..|reports| - 1], now);
    }
  }

  lemma TickNackChangesLittle(c: Client, incomplete: seq<Report>, now: Time)
    ensures var t := TickNack(c, incomplete, now).client;
            t == c.(nacked := t.nacked, transientSeq := t.transientSeq, lastNack := t.lastNack)
  {
    hide NackAll;
    NackChangesLittle(c.(lastNack := now), incomplete, now);
  }

  /** The same mirror but for the dirty marks. */
  predicate SameButMarks(m: Mirror, m': Mirror) {
    && m' == m.(frame := m.frame.(dirty := m'.frame.dirty, rowDirty := m'.frame.rowDirty))
    && |m'.frame.rowDirty| == |m.frame.rowDirty|
  }

  /** A tick leaves the screen but for its marks, the history and the acknowledgement alone. */
  lemma TickChangesLittle(c: Client, incomplete: seq<Report>, now: Time)
    ensures var t := Tick(c, incomplete, now).client;
            var u := TickArq(TickKeepalive(c, now).client, now);
            && t == u.(reconnecting := t.reconnecting, keepaliveInterval := t.keepaliveInterval, nacked := t.nacked,
                       transientSeq := t.transientSeq, lastNack := t.lastNack, lastTelemetry := t.lastTelemetry,
                       mirror := t.mirror)
            && SameButMarks(c.mirror, t.mirror)
  {
    hide TickKeepalive, TickArq, TickBanner, TickTelemetry, TickNack;
    var u := TickArq(TickKeepalive(c, now).client, now);
    SendingKeepsMirror(c, now);
    BannerChangesLittle(u, now);
    TelemetryChangesLittle(TickBanner(u, now).client, now);
    TickNackChangesLittle(TickTelemetry(TickBanner(u, now).client, now).client, incomplete, now);
  }

  lemma BannerChangesLittle(c: Client, now: Time)
    ensures var t := TickBanner(c, now).client;
            && t == c.(reconnecting := t.reconnecting, keepaliveInterval := t.keepaliveInterval, mirror := t.mirror)
            && SameButMarks(c.mirror, t.mirror)
  {
    hide Backoff, WithBanner;
  }

  lemma TelemetryChangesLittle(c: Client, now: Time)
    ensures var t := TickTelemetry(c, now).client; t == c.(lastTelemetry := t.lastTelemetry)
  {
  }

  lemma SendingKeepsMirror(c: Client, now: Time)
    ensures TickArq(TickKeepalive(c, now).client, now).mirror == c.mirror
    ensures TickArq(TickKeepalive(c, now).client, now).history == c.history
  {
    hide MarkSent, Overdue;
  }

  lemma TickValid(c: Client, incomplete: seq<Report>, now: Time)
    requires ValidClient(c)
    ensures ValidClient(Tick(c, incomplete, now).client)
  {
    hide Tick, TickArq, TickKeepalive;
    SendingKeepsMirror(c, now);
    TickChangesLittle(c, incomplete, now);
  }

  /** `order` lists the set, each element once. */
  ghost predicate Enumerates(order: seq<nat>, s: set<nat>) {
    && (forall k :: k in order <==> k in s)
    && (forall i, j | 0 <= i < j < |order| :: order[i] != order[j])
  }

  function Listed(order: seq<nat>): (s: set<nat>)
    ensures forall k :: k in s <==> k in order
  {
    set k | k in order
  }

  lemma EnumeratesAll(order: seq<nat>, s: set<nat>)
    requires Enumerates(order, s)
    ensures Listed(order) == s
  {
  }

  lemma NothingEnumerated()
    ensures Enumerates([], {})
  {
  }

  function Resends(unacked: map<nat, Pending>, order: seq<nat>): (r: seq<ClientAction>)
    requires forall k | k in order :: k in unacked
  {
    seq(|order|, i requires 0 <= i < |order| => Send(unacked[order[i]].packet))
  }

  /** The actions of a tick: the retransmissions come in some order. */
  ghost predicate TickActions(actions: seq<ClientAction>, c: Client, t: Ticked, now: Time) {
    exists order: seq<nat> ::
      && Enumerates(order, t.resent)
      && (forall k | k in order :: k in TickKeepalive(c, now).client.unacked)
      && actions == t.before + Resends(TickKeepalive(c, now).client.unacked, order) + t.later
  }

  // ----- the session object -----

  class MirrorSession {
    const sessionId: nat
    var seqNum: nat
    var ackSeq: nat
    var lastRecv: Time
    var echoEnabled: bool
    var sent: map<nat, Time>
    var unacked: map<nat, Pending>
    var lastArq: Time
    var lastKeepalive: Time
    var keepaliveInterval: nat
    var lastAckSent: Time
    var reconnecting: bool
    var transientSeq: nat
    var lastNack: Time
    var nacked: map<nat, Time>
    var expectedServer: nat
    var lossWindow: seq<bool>
    var history: seq<Snapshot>
    var rttMs: nat
    var lastTelemetry: Time
    const terminal: ClientTerminal
    const interpreter: EscapeInterpreter

    function State(): (r: Client)
      reads this, terminal.frame, terminal.echo, interpreter
    {
      Client(sessionId, seqNum, ackSeq, lastRecv, echoEnabled, sent, unacked, lastArq, lastKeepalive,
             keepaliveInterval, lastAckSent, reconnecting, transientSeq, lastNack, nacked, expectedServer, lossWindow,
             history, rttMs, lastTelemetry, terminal.Value(), interpreter.state)
    }

    constructor (sessionId: nat, startServerSeq: nat, cols: u16, rows: u16, now: Time)
      ensures ValidClient(State()) && State().mirror.queue == [] && State().mirror.epoch == 0
      ensures State() == InitClient(sessionId, startServerSeq, State().mirror, now)
    {
      this.sessionId, seqNum, ackSeq, lastRecv, echoEnabled := sessionId, 0, 0, now, true;
      sent, unacked, nacked, lossWindow, history := map[], map[], map[], [], [];
      lastArq, lastKeepalive, lastAckSent, lastNack, lastTelemetry := now, now, now, now, now;
      keepaliveInterval, reconnecting, transientSeq, expectedServer, rttMs := KEEPALIVE, false, 0, startServerSeq, 0;
      terminal := new ClientTerminal(cols, rows);
      interpreter := new EscapeInterpreter();
    }

    // -- sending --

    method SendReliable(payload: ClientPayload, now: Time) returns (packet: ClientPacket)
      modifies this`seqNum, this`sent, this`unacked
      ensures Prepared(State(), packet) == PrepareReliable(old(State()), payload, now)
    {
      seqNum := seqNum + 1;
      sent := sent[seqNum := now];
      packet := ClientPacket(sessionId, seqNum, ackSeq, payload);
      unacked := unacked[seqNum := Pending(packet, now)];
    }

    method MakeAck(now: Time) returns (packet: ClientPacket)
      modifies this`transientSeq, this`lastAckSent
      ensures Prepared(State(), packet) == PrepareAck(old(State()), now)
    {
      transientSeq := transientSeq + 1;
      lastAckSent := now;
      packet := ClientPacket(sessionId, TransientNumber(transientSeq), ackSeq, Ack);
    }

    method MakeNack(frameSeq: nat, mask: seq<bv64>) returns (packet: ClientPacket)
      modifies this`transientSeq
      ensures Prepared(State(), packet) == PrepareNack(old(State()), frameSeq, mask)
    {
      transientSeq := transientSeq + 1;
      packet := ClientPacket(sessionId, TransientNumber(transientSeq), ackSeq, FragmentNack(frameSeq, mask));
    }

    // -- feed_packet --

    method FeedPacket(p: ServerPacket, now: Time) returns (actions: seq<ClientAction>, outcome: Outcome)
      requires ValidClient(State())
      modifies this, terminal.frame, terminal.echo
      ensures Fed(State(), actions, outcome) == Feed(old(State()), p, now)
    {
      hide Receive, Accept;
      ReceiveHeader(p, now);
      if p.seqNum <= ackSeq {
        return [], Dropped;
      }
      actions, outcome := AcceptPacket(p, now);
    }

    method AcceptPacket(p: ServerPacket, now: Time) returns (actions: seq<ClientAction>, outcome: Outcome)
      requires ValidClient(State())
      modifies this, terminal.frame, terminal.echo
      ensures Fed(State(), actions, outcome) == Accept(old(State()), p, now)
    {
      hide Dispatch, Heard;
      var ok := Hear(p.seqNum, now);
      if !ok {
        return [], Panicked;
      }
      actions, outcome := HandlePayload(p, now);
    }

    /** Notes the packet and takes the banner down, which fails over a frame without rows. */
    method Hear(seqNum: nat, now: Time) returns (ok: bool)
      requires ValidClient(State())
      modifies this`lastRecv, this`ackSeq, this`keepaliveInterval, this`reconnecting, terminal.frame`dirty,
          terminal.frame`rowDirty
      ensures State() == Heard(old(State()), seqNum, now)
      ensures ok <==> !(old(reconnecting) && old(terminal.Value()).frame.rows == 0)
    {
      hide BannerDown;
      lastRecv, ackSeq, keepaliveInterval := now, seqNum, KEEPALIVE;
      ok := TakeBannerDown();
    }

    method TakeBannerDown() returns (ok: bool)
      requires ValidClient(State())
      modifies this`reconnecting, terminal.frame`dirty, terminal.frame`rowDirty
      ensures State() == BannerDown(old(State()))
      ensures ok <==> !(old(reconnecting) && old(terminal.Value()).frame.rows == 0)
    {
      ok := true;
      if reconnecting {
        reconnecting := false;
        if terminal.frame.rows == 0 {
          terminal.frame.dirty := true;
          return false;
        }
        terminal.SetReconnecting(false);
      }
    }

    method HandlePayload(p: ServerPacket, now: Time) returns (actions: seq<ClientAction>, outcome: Outcome)
      requires ValidClient(State())
      modifies this, terminal.frame, terminal.echo
      ensures Fed(State(), actions, outcome) == Dispatch(old(State()), p, now)
    {
      hide AcceptFrame;
      match p.payload {
        case FramePayload(u) =>
          actions, outcome := ReceiveFrame(p.seqNum, u, now);
        case KeepAliveReply =>
          return [], Control;
        case Shutdown =>
          return [Quit], Control;
        case HandshakeAck(_) =>
          return [], Control;
      }
    }

    /** Round trip, pruning of acknowledged packets, loss window, and the acknowledgement of predictions. */
    method ReceiveHeader(p: ServerPacket, now: Time)
      requires ValidClient(State())
      modifies this`rttMs, this`sent, this`unacked, this`expectedServer, this`lossWindow, terminal.frame, terminal.echo
      ensures State() == Receive(old(State()), p, now)
    {
      hide Reconcile, Counted;
      CountPacket(p, now);
      terminal.Acknowledge(p.ack);
    }

    method CountPacket(p: ServerPacket, now: Time)
      modifies this`rttMs, this`sent, this`unacked, this`expectedServer, this`lossWindow
      ensures State() == Counted(old(State()), p, now)
    {
      hide LossAfter, Pruned;
      PrunePending(p.ack, now);
      TrackLoss(p.seqNum, now);
    }

    method PrunePending(ack: nat, now: Time)
      modifies this`rttMs, this`sent, this`unacked
      ensures State() == Pruned(old(State()), ack, now)
    {
      hide RttAfter, Above;
      UpdateRtt(ack, now);
      DropAcknowledged(ack);
    }

    method DropAcknowledged(ack: nat)
      modifies this`sent, this`unacked
      ensures sent == Above(old(sent), ack) && unacked == Above(old(unacked), ack)
    {
      sent := map k | k in sent && k > ack :: sent[k];
      unacked := map k | k in unacked && k > ack :: unacked[k];
    }

    method TrackLoss(seqNum: nat, now: Time)
      modifies this`expectedServer, this`lossWindow
      ensures Loss(expectedServer, lossWindow)
              == LossAfter(old(Loss(expectedServer, lossWindow)), lastRecv, seqNum, now)
    {
      hide PushSlots, Newest;
      if Since(now, lastRecv) > OUTAGE {
        lossWindow := [];
        expectedServer := seqNum;
      }
      UpdateLossWindow(seqNum);
      TruncateLossWindow();
    }

    method UpdateRtt(ack: nat, now: Time)
      modifies this`rttMs
      ensures rttMs == RttAfter(old(rttMs), sent, lastRecv, ack, now)
    {
      if ack in sent && !(Since(now, lastRecv) > OUTAGE) {
        var rtt := Since(now, sent[ack]);
        if rtt < BOGUS_RTT {
          rttMs := if rttMs == 0 then rtt else (8 * rttMs + 2 * rtt) / 10;
        }
      }
    }

    method UpdateLossWindow(seqNum: nat)
      modifies this`expectedServer, this`lossWindow
      ensures Loss(expectedServer, lossWindow) == PushSlots(old(Loss(expectedServer, lossWindow)), seqNum)
    {
      if expectedServer == 0 {
        expectedServer := seqNum + 1;
      } else if seqNum > expectedServer {
        var missed := seqNum - expectedServer;
        for i := 0 to missed
          modifies this`lossWindow
          invariant lossWindow == old(lossWindow) + LostSlots(i)
        {
          assert LostSlots(i + 1) == LostSlots(i) + [false];
          lossWindow := lossWindow + [false];
        }
        lossWindow := lossWindow + [true];
        expectedServer := seqNum + 1;
      } else if seqNum == expectedServer {
        assert lossWindow + LostSlots(0) == lossWindow;
        lossWindow := lossWindow + [true];
        expectedServer := seqNum + 1;
      } else {
        var gap := expectedServer - 1 - seqNum;
        if gap < |lossWindow| {
          lossWindow := lossWindow[|lossWindow| - 1 - gap := true];
        }
      }
    }

    method TruncateLossWindow()
      modifies this`lossWindow
      ensures lossWindow == Newest(old(lossWindow))
    {
      while |lossWindow| > LOSS_WINDOW
        invariant Newest(lossWindow) == Newest(old(lossWindow))
        decreases |lossWindow|
      {
        lossWindow := lossWindow[1..];
      }
    }

    method ReceiveFrame(seqNum: nat, u: FrameUpdate, now: Time) returns (actions: seq<ClientAction>, outcome: Outcome)
      requires ValidClient(State())
      modifies this`transientSeq, this`lastAckSent, this`echoEnabled, this`history, terminal.frame, terminal.echo
      ensures Fed(State(), actions, outcome) == AcceptFrame(old(State()), seqNum, u, now)
    {
      hide Patch, BlankGrid;
      var ref: Option<Grid> := None;
      if u.refSeq != 0 {
        ref := FindInHistory(history, u.refSeq);
        if ref.None? {
          var packet := MakeAck(now);
          return [Send(packet)], MissingReference;
        }
      }
      var start := if ref.Some? then ref.value else BlankGrid(u.cols, u.rows);
      assert StartFor(old(State()), u) == Some(start);
      var grid := new GridState(start);
      var ok := grid.ApplyPatch(u);
      if !ok {
        return [], PatchFailed;
      }
      actions := ShowFrame(seqNum, grid.Value(), u.echo, now);
      outcome := Applied;
    }

    /** A patched frame reaches the mirror and the history, and is acknowledged at most every 30 ms. */
    method ShowFrame(seqNum: nat, g: Grid, echo: bool, now: Time) returns (actions: seq<ClientAction>)
      requires ValidClient(State()) && WellFormed(g)
      modifies this`transientSeq, this`lastAckSent, this`echoEnabled, this`history, terminal.frame, terminal.echo
      ensures Fed(State(), actions, Applied) ==
              AckIfDue(old(State()).(echoEnabled := echo, mirror := Mirrored(old(State()).mirror, g, seqNum, echo),
                                     history := Record(old(State()).history, Snapshot(seqNum, g))), now)
    {
      hide Mirrored, AckIfDue, Record;
      echoEnabled := echo;
      MirrorGrid(seqNum, g);
      RecordedWhat(history, Snapshot(seqNum, g));
      Remember(seqNum, g);
      actions := PaintAndAck(now);
    }

    method Remember(seqNum: nat, g: Grid)
      modifies this`history
      ensures history == Record(old(history), Snapshot(seqNum, g))
    {
      history := history + [Snapshot(seqNum, g)];
      if |history| > HISTORY_MAX {
        history := history[1..];
      }
    }

    method MirrorGrid(seqNum: nat, g: Grid)
      requires ValidClient(State())
      modifies terminal.frame, terminal.echo
      ensures terminal.Value() == Mirrored(old(terminal.Value()), g, seqNum, echoEnabled)
    {
      hide ApplyFrame, Abort;
      var _ := terminal.ApplyGrid(g, seqNum);
      if !echoEnabled {
        terminal.AbortPrediction();
      }
    }

    method PaintAndAck(now: Time) returns (actions: seq<ClientAction>)
      modifies this`transientSeq, this`lastAckSent
      requires ValidClient(State())
      ensures Fed(State(), actions, Applied) == AckIfDue(old(State()), now)
    {
      actions := [Paint];
      if Since(now, lastAckSent) >= ACK_INTERVAL {
        var packet := MakeAck(now);
        actions := actions + [Send(packet)];
      }
    }

    // -- feed_stdin and on_winch --

    method FeedInput(buf: seq<byte>, now: Time) returns (actions: seq<ClientAction>)
      requires ValidClient(State())
      modifies this`seqNum, this`sent, this`unacked, terminal.frame, terminal.echo, interpreter
      ensures Outgoing(State(), actions) == FeedStdin(old(State()), buf, now)
    {
      hide Predict;
      var toSend;
      var quit;
      toSend, actions, quit := RunFilter(buf);
      if quit || toSend == [] {
        return;
      }
      var packet := SendReliable(Keystrokes(toSend), now);
      if echoEnabled && Printable(toSend) {
        terminal.PredictInput(toSend, seqNum);
        actions := actions + [Paint];
      }
      actions := actions + [Send(packet)];
    }

    /** One byte: collected, swallowed, or a command that runs at once; every command but the disconnect repaints. */
    method Interpret(b: byte, toSend: seq<byte>, actions: seq<ClientAction>, ghost f: Filtered)
      returns (toSend': seq<byte>, actions': seq<ClientAction>, quit: bool, ghost f': Filtered)
      requires f == Filtered(interpreter.state, toSend, f.commands) && !f.Disconnected()
               && actions == CommandActions(f.commands)
      modifies terminal.frame, interpreter
      ensures f' == AddStep(f, b) && f' == Filtered(interpreter.state, toSend', f'.commands)
      ensures quit == f'.Disconnected() && actions' == CommandActions(f'.commands)
      ensures terminal.Value() == MarkDirty(old(terminal.Value()), f'.commands != f.commands && !quit)
      ensures Dirtying(f'.commands) == (Dirtying(f.commands) || (f'.commands != f.commands && !quit))
    {
      hide Dirtying;
      f' := AddStep(f, b);
      toSend', actions', quit := toSend, actions, false;
      var r := interpreter.Handle(b);
      match r {
        case SendBytes(bs) =>
          toSend' := toSend + bs;
        case Consume =>
        case Command(c) =>
          DirtyingNext(f.commands, c);
          actions' := actions + [CommandAction(c)];
          quit := c == Disconnect;
          assert f'.commands[|f'.commands| - 1] == c;
          if !quit {
            terminal.MarkDirty();
          }
      }
    }

    /** The stdin loop; a disconnect stops it. */
    method RunFilter(buf: seq<byte>) returns (toSend: seq<byte>, actions: seq<ClientAction>, quit: bool)
      modifies terminal.frame, interpreter
      ensures var f := Filter(old(interpreter.state), buf);
              && interpreter.state == f.state && toSend == f.sent && actions == CommandActions(f.commands)
              && quit == f.Disconnected()
              && terminal.Value() == MarkDirty(old(terminal.Value()), Dirtying(f.commands))
    {
      hide AddStep, Dirtying, Filter, CommandActions, MarkDirty;
      toSend, actions, quit := [], [], false;
      ghost var s0 := interpreter.state;
      ghost var f := Filtered(s0, [], []);
      NothingRun(s0, terminal.Value());
      assert buf[..0] == [];
      for i := 0 to |buf|
        invariant !quit && f == Filter(s0, buf[..i]) == Filtered(interpreter.state, toSend, f.commands)
                  && !f.Disconnected()
        invariant actions == CommandActions(f.commands)
        invariant terminal.Value() == MarkDirty(old(terminal.Value()), Dirtying(f.commands))
      {
        FilterOne(s0, buf[..i], buf[i]);
        assert buf[..i] + [buf[i]] == buf[..i + 1];
        MarkTwice(old(terminal.Value()), Dirtying(f.commands), AddStep(f, buf[i]).commands != f.commands);
        toSend, actions, quit, f := Interpret(buf[i], toSend, actions, f);
        if quit {
          NothingAfterDisconnect(s0, buf[..i + 1], buf[i + 1..]);
          assert buf[..i + 1] + buf[i + 1..] == buf;
          return;
        }
      }
      assert buf[..|buf|] == buf;
    }

    method Winch(cols: u16, rows: u16, now: Time) returns (actions: seq<ClientAction>)
      requires ValidClient(State())
      modifies this`seqNum, this`sent, this`unacked, terminal.frame, terminal.echo
      ensures Outgoing(State(), actions) == OnWinch(old(State()), cols, rows, now)
    {
      hide Abort;
      var packet := SendReliable(Resize(cols, rows), now);
      terminal.AbortPrediction();
      terminal.MarkDirty();
      actions := [Send(packet), Paint];
    }

    // -- on_tick --

    method OnTick(incomplete: seq<Report>, now: Time) returns (actions: seq<ClientAction>)
      requires ValidClient(State())
      modifies this, terminal.frame
      ensures var t := Tick(old(State()), incomplete, now);
              State() == t.client && TickActions(actions, old(State()), t, now)
    {
      hide PrepareReliable, NackAll, ForgetNacks, Backoff, TickTelemetry, TickBanner, TickArq, TickNack, TickKeepalive;
      ghost var c := State();
      var before := SendKeepalive(now);
      var c1 := State();
      var order := Retransmit(now);
      var banner := UpdateBanner(now);
      var telemetry := TakeTelemetry(now);
      var nacks := SendNacks(incomplete, now);
      actions := before + Resends(c1.unacked, order) + (banner + telemetry + nacks);
    }

    method SendKeepalive(now: Time) returns (actions: seq<ClientAction>)
      modifies this`seqNum, this`sent, this`unacked, this`lastKeepalive
      ensures Outgoing(State(), actions) == TickKeepalive(old(State()), now)
    {
      actions := [];
      if Since(now, lastKeepalive) >= keepaliveInterval {
        var packet := SendReliable(KeepAlive, now);
        lastKeepalive := now;
        actions := [Send(packet)];
      }
    }

    /** Collects the overdue packets, then marks each as sent now. */
    method Retransmit(now: Time) returns (order: seq<nat>)
      modifies this`lastArq, this`unacked
      ensures State() == TickArq(old(State()), now) && Enumerates(order, Overdue(old(State()), now))
      ensures forall k | k in order :: k in old(unacked)
    {
      hide MarkSent, Enumerates;
      order := [];
      if Since(now, lastArq) < ARQ_INTERVAL {
        assert Enumerates([], {}) by { NothingEnumerated(); }
        return;
      }
      order := CollectOverdue(now);
      EnumeratesAll(order, Overdue(State(), now));
      MarkAll(order, now);
      lastArq := now;
    }

    /** Marks each listed packet as sent now. */
    method MarkAll(order: seq<nat>, now: Time)
      requires forall k | k in order :: k in unacked
      modifies this`unacked
      ensures unacked == MarkSent(old(unacked), Listed(order), now)
    {
      ghost var pending := unacked;
      assert Listed([]) == {};
      assert MarkSent(pending, {}, now) == pending;
      for i := 0 to |order|
        invariant unacked == MarkSent(pending, Listed(order[..i]), now)
      {
        assert order[i] in order;
        assert order[..i + 1] == order[..i] + [order[i]];
        assert Listed(order[..i + 1]) == Listed(order[..i]) + {order[i]};
        unacked := unacked[order[i] := unacked[order[i]].(sentAt := now)];
      }
      assert order[..|order|] == order;
    }

    method CollectOverdue(now: Time) returns (order: seq<nat>)
      requires Since(now, lastArq) >= ARQ_INTERVAL
      ensures Enumerates(order, Overdue(State(), now))
      ensures forall k | k in order :: k in unacked
    {
      order := [];
      ghost var due := Overdue(State(), now);
      var limit := RttLimit(State());
      var todo := unacked.Keys;
      while todo != {}
        invariant todo <= unacked.Keys && Enumerates(order, due - todo)
        decreases |todo|
      {
        var k :| k in todo;
        todo := todo - {k};
        if Since(now, unacked[k].sentAt) >= limit {
          order := order + [k];
        }
      }
    }

    /** Lowering the flag here never happens, see the runs; it would need a row to mark. */
    method UpdateBanner(now: Time) returns (actions: seq<ClientAction>)
      requires ValidFrame(terminal.Value().frame)
      modifies this`reconnecting, this`keepaliveInterval, terminal.frame`dirty, terminal.frame`rowDirty
      ensures Outgoing(State(), actions) == TickBanner(old(State()), now)
    {
      actions := [];
      var silence := Since(now, lastRecv);
      var needsBanner := silence > OUTAGE;
      if reconnecting != needsBanner {
        reconnecting := needsBanner;
        if needsBanner || terminal.frame.rows > 0 {
          terminal.SetReconnecting(needsBanner);
        } else {
          terminal.frame.dirty := true;
        }
        actions := [Paint];
        keepaliveInterval := Backoff(silence);
      }
    }

    method TakeTelemetry(now: Time) returns (actions: seq<ClientAction>)
      modifies this`lastTelemetry
      ensures Outgoing(State(), actions) == TickTelemetry(old(State()), now)
    {
      actions := [];
      if Since(now, lastTelemetry) >= TELEMETRY_INTERVAL {
        lastTelemetry := now;
        actions := [Paint];
      }
    }

    method SendNack(r: Report, now: Time) returns (actions: seq<ClientAction>)
      modifies this`nacked, this`transientSeq
      ensures Outgoing(State(), actions) == NackOne(old(State()), r, now)
    {
      actions := [];
      if r.frameSeq !in nacked || Since(now, nacked[r.frameSeq]) >= NACK_REPEAT {
        nacked := nacked[r.frameSeq := now];
        var packet := MakeNack(r.frameSeq, r.mask);
        actions := [Send(packet)];
      }
    }

    method SendNacks(incomplete: seq<Report>, now: Time) returns (actions: seq<ClientAction>)
      modifies this`lastNack, this`nacked, this`transientSeq
      ensures Outgoing(State(), actions) == TickNack(old(State()), incomplete, now)
    {
      actions := [];
      if Since(now, lastNack) < NACK_INTERVAL {
        return;
      }
      hide NackOne, ForgetNacks;
      lastNack := now;
      ghost var start := State();
      for i := 0 to |incomplete|
        invariant Outgoing(State(), actions) == NackAll(start, incomplete[..i], now)
      {
        assert incomplete[..i + 1][..i] == incomplete[..i];
        var more := SendNack(incomplete[i], now);
        actions := actions + more;
      }
      assert incomplete[..|incomplete|] == incomplete;
      ForgetOldNacks(now);
    }

    method ForgetOldNacks(now: Time)
      modifies this`nacked
      ensures State() == ForgetNacks(old(State()), now)
    {
      nacked := map k | k in nacked && k > ackSeq && Since(now, nacked[k]) < NACK_MEMORY :: nacked[k];
    }
  }
}
