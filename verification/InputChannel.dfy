/** The reliable input channel at the server: ordering window, reassembled stream, PTY operations. */
module InputChannel {
  import opened Base
  import opened TerminalGrid
  import opened Protocol
  import opened Network
  import opened ServerSession

  predicate Reliable(p: ClientPayload) {
    p.Keystrokes? || p.Resize? || p.KeepAlive?
  }

  /** The client's reliable payloads; number n carries log[n - 1]. */
  predicate LogOk(log: seq<ClientPayload>) {
    |log| < TRANSIENT_BIT && forall p | p in log :: Reliable(p)
  }

  predicate Carries(q: ClientPacket, log: seq<ClientPayload>) {
    1 <= q.seqNum <= |log| && q.payload == log[q.seqNum - 1]
  }

  /** A packet of this session: transient, or one of the log under its own number. */
  predicate FromClient(q: ClientPacket, sessionId: nat, log: seq<ClientPayload>) {
    q.sessionId == sessionId
    && ((q.seqNum >= TRANSIENT_BIT && (q.payload.Ack? || q.payload.FragmentNack?)) || Carries(q, log))
  }

  /** Exactly the payloads numbered start + 1 .. expected - 1, in order, once each. */
  predicate Delivered(processed: seq<Item>, log: seq<ClientPayload>, start: nat, expected: nat) {
    && start + 1 <= expected <= Max(start, |log|) + 1 && |processed| == expected - 1 - start
    && forall i | 0 <= i < |processed| :: processed[i] == Item(start + 1 + i, log[start + i])
  }

  predicate BufferOk(buffer: map<nat, ClientPayload>, log: seq<ClientPayload>, expected: nat) {
    forall k | k in buffer :: expected < k <= |log| && buffer[k] == log[k - 1]
  }

  predicate ServerIn(s: Server, log: seq<ClientPayload>, processed: seq<Item>, start: nat) {
    && s.ackSeq == s.expected - 1 && Delivered(processed, log, start, s.expected)
    && BufferOk(s.outOfOrder, log, s.expected)
  }

  // ----- the buffer -----

  /** `items` are the buffered payloads numbered `expected`, `expected + 1`, ... */
  predicate TakenFrom(items: seq<Item>, buffer: map<nat, ClientPayload>, expected: nat) {
    forall i | 0 <= i < |items| ::
      items[i].seqNum == expected + i && expected + i in buffer && items[i].payload == buffer[expected + i]
  }

  /** `left` is the buffer without the `n` numbers from `expected` on. */
  ghost predicate LeftOf(left: map<nat, ClientPayload>, buffer: map<nat, ClientPayload>, expected: nat, n: nat) {
    && (forall k :: k in left <==> k in buffer && !(expected <= k < expected + n))
    && (forall k | k in left :: left[k] == buffer[k])
  }

  /** The contiguous run from `expected`, and what it leaves, for both functions at once. */
  ghost predicate Splits(items: seq<Item>, left: map<nat, ClientPayload>, buffer: map<nat, ClientPayload>,
                         expected: nat) {
    TakenFrom(items, buffer, expected) && LeftOf(left, buffer, expected, |items|) && expected + |items| !in buffer
  }

  lemma SplitOne(items: seq<Item>, left: map<nat, ClientPayload>, buffer: map<nat, ClientPayload>, expected: nat)
    requires expected in buffer && Splits(items, left, buffer - {expected}, expected + 1)
    ensures Splits([Item(expected, buffer[expected])] + items, left, buffer, expected)
  {
  }

  lemma {:induction false} ContiguousIs(buffer: map<nat, ClientPayload>, expected: nat)
    ensures Splits(Contiguous(buffer, expected), Remaining(buffer, expected), buffer, expected)
    decreases |buffer|
  {
    if expected in buffer {
      hide Splits;
      var rest := buffer - {expected};
      ContiguousIs(rest, expected + 1);
      SplitOne(Contiguous(rest, expected + 1), Remaining(rest, expected + 1), buffer, expected);
    }
  }

  /** What an in-order packet releases continues the stream without a gap. */
  lemma ReleasedContinues(s: Server, p: ClientPacket, log: seq<ClientPayload>, processed: seq<Item>, start: nat)
    requires ServerIn(s, log, processed, start) && Carries(p, log) && p.seqNum == s.expected
    ensures ServerIn(Advance(s, p), log, processed + Released(s, p), start)
    ensures forall n | n < s.expected || n in s.outOfOrder || n == p.seqNum ::
              n < Advance(s, p).expected || n in Advance(s, p).outOfOrder
  {
    hide Contiguous, Remaining;
    ContiguousIs(s.outOfOrder, s.expected + 1);
    var items := Contiguous(s.outOfOrder, s.expected + 1);
    if |items| > 0 {
      assert items[|items| - 1].seqNum == s.expected + |items|;
    }
  }

  // ----- processing and syncing leave the window alone -----

  function PtyOf(item: Item): (r: seq<PtyOp>) {
    match item.payload
    case Keystrokes(keys) => [Wrote(keys)]
    case Resize(cols, rows) => [Resized(cols, rows)]
    case _ => []
  }

  function PtyOps(items: seq<Item>): (r: seq<PtyOp>) {
    if items == [] then [] else PtyOps(items[..|items| - 1]) + PtyOf(items[|items| - 1])
  }

  lemma PtyOpsNext(items: seq<Item>, last: Item)
    ensures PtyOps(items + [last]) == PtyOps(items) + PtyOf(last)
  {
    assert (items + [last])[..|items|] == items;
  }

  lemma NoOps()
    ensures PtyOps([]) == []
  {
  }

  lemma {:induction false} PtyOpsJoin(a: seq<Item>, b: seq<Item>)
    ensures PtyOps(a + b) == PtyOps(a) + PtyOps(b)
    decreases |b|
  {
    hide PtyOf;
    if b == [] {
      assert a + b == a;
      NoOps();
    } else {
      hide PtyOps;
      var before, last := b[..|b| - 1], b[|b| - 1];
      PtyOpsJoin(a, before);
      PtyOpsNext(before, last);
      PtyOpsNext(a + before, last);
      assert b == before + [last] && a + b == a + before + [last];
    }
  }

  predicate AcksUpTo(packets: set<ServerPacket>, ack: nat) {
    forall q | q in packets :: q.ack <= ack
  }

  predicate AllReliable(items: seq<Item>) {
    forall i | i in items :: Reliable(i.payload)
  }

  /** One item writes what it stands for, acknowledges the window, and panics only for a handshake. */
  lemma ItemWrites(s: Server, item: Item, resized: Grid)
    ensures var q := ProcessItem(s, item, resized);
            && q.server.pty == s.pty + PtyOf(item)
            && AcksUpTo(Replied(q.replies), s.ackSeq)
            && (Reliable(item.payload) ==> Panic !in q.replies)
  {
  }

  lemma RepliedJoin(a: seq<ServerAction>, b: seq<ServerAction>)
    ensures Replied(a + b) == Replied(a) + Replied(b)
  {
  }

  lemma {:induction false} ItemsAck(s: Server, items: seq<Item>, resized: Grid)
    ensures AcksUpTo(Replied(ProcessItems(s, items, resized).replies), s.ackSeq)
    decreases |items|
  {
    if items != [] {
      var before := items[..|items| - 1];
      ItemsAck(s, before, resized);
      ProcessChangesLittle(s, before, resized);
      var q := ProcessItems(s, before, resized);
      ItemWrites(q.server, items[|items| - 1], resized);
      hide ProcessItem, Replied;
      RepliedJoin(q.replies, ProcessItem(q.server, items[|items| - 1], resized).replies);
    }
  }

  /** Processing writes the items to the PTY in order, acknowledges the window, and never panics. */
  lemma {:induction false} ItemsWrite(s: Server, items: seq<Item>, resized: Grid)
    ensures var q := ProcessItems(s, items, resized);
            && q.server.pty == s.pty + PtyOps(items)
            && AcksUpTo(Replied(q.replies), s.ackSeq)
            && (AllReliable(items) ==> Panic !in q.replies)
    decreases |items|
  {
    ItemsAck(s, items, resized);
    if items != [] {
      hide ProcessItem, PtyOf, Replied;
      var before := items[..|items| - 1];
      ItemsWrite(s, before, resized);
      ItemWrites(ProcessItems(s, before, resized).server, items[|items| - 1], resized);
      assert AllReliable(items) ==> AllReliable(before);
    }
  }

  /** A sync changes neither the window nor the PTY, and its frame acknowledges the window. */
  lemma SyncChangesLittle(s: Server, now: Time, echo: bool)
    ensures var r := CheckSync(s, now, echo);
            && r.server.expected == s.expected && r.server.outOfOrder == s.outOfOrder && r.server.ackSeq == s.ackSeq
            && r.server.pty == s.pty && r.server.sessionId == s.sessionId && r.server.screen == s.screen
            && r.server.lastPty == s.lastPty
            && (r.job.Some? ==> r.job.value.ack == s.ackSeq && r.job.value.seqNum == s.seqNum + 1
                                && r.job.value.current == s.screen)
  {
    hide PruneHistory, ReferenceFor, Record;
  }

  // ----- one packet fed to the server -----

  /** The packet was processed already, or waits in the buffer. */
  predicate Kept(s: Server, n: nat) {
    n < s.expected || n in s.outOfOrder
  }

  /** What an entry point leaves of the stream: the window, the PTY and the acknowledgements sent. */
  ghost predicate FedStream(s: Server, f: Fed, log: seq<ClientPayload>, processed: seq<Item>, start: nat) {
    && FedOk(f)
    && ServerIn(f.server, log, processed + f.items, start)
    && f.server.sessionId == s.sessionId && s.expected <= f.server.expected
    && f.server.pty == s.pty + PtyOps(f.items)
    && AcksUpTo(Replied(f.replies) + JobPacket(f.job), f.server.ackSeq)
  }

  /** What feeding one packet of the session does for the input channel. */
  ghost predicate FedIn(s: Server, f: Fed, log: seq<ClientPayload>, processed: seq<Item>, start: nat) {
    FedStream(s, f, log, processed, start) && Panic !in f.Actions() && forall n | Kept(s, n) :: Kept(f.server, n)
  }

  lemma FinishIn(s0: Server, s: Server, replies: seq<ServerAction>, items: seq<Item>, now: Time, echo: bool,
                 log: seq<ClientPayload>, processed: seq<Item>, start: nat)
    requires ValidServer(s) && ServerIn(s, log, processed + items, start) && s.sessionId == s0.sessionId
    requires s0.expected <= s.expected && s.pty == s0.pty + PtyOps(items)
    requires AcksUpTo(Replied(replies), s.ackSeq) && Panic !in replies
    requires forall n | Kept(s0, n) :: Kept(s, n)
    ensures FedIn(s0, Finish(s, replies, items, now, echo), log, processed, start)
  {
    hide CheckSync, PtyOps, ValidServer, DiffFrom, Delivered, BufferOk, Replied;
    SyncChangesLittle(s, now, echo);
    FinishValid(s, replies, items, now, echo);
    var f := Finish(s, replies, items, now, echo);
    if f.job.Some? {
      assert RunJob(f.job.value).ack == s.ackSeq;
    }
  }

  lemma IdleIn(s0: Server, s: Server, log: seq<ClientPayload>, processed: seq<Item>, start: nat)
    requires ValidServer(s) && ServerIn(s, log, processed, start) && s.sessionId == s0.sessionId
    requires s0.expected <= s.expected && s.pty == s0.pty && (forall n | Kept(s0, n) :: Kept(s, n))
    ensures FedIn(s0, Fed(s, [], [], None), log, processed, start)
  {
    assert processed + [] == processed && s.pty + [] == s.pty;
  }

  lemma ReleasedReliable(s: Server, p: ClientPacket, log: seq<ClientPayload>, processed: seq<Item>, start: nat)
    requires ServerIn(s, log, processed, start) && Carries(p, log) && p.seqNum == s.expected && LogOk(log)
    ensures AllReliable(Released(s, p))
  {
    hide Contiguous, Remaining;
    ContiguousIs(s.outOfOrder, s.expected + 1);
    forall i | i in Released(s, p) ensures Reliable(i.payload) {
      var k :| 0 <= k < |Released(s, p)| && Released(s, p)[k] == i;
      if k > 0 {
        assert Contiguous(s.outOfOrder, s.expected + 1)[k - 1] == i;
      }
    }
  }

  lemma InOrderIn(s: Server, p: ClientPacket, now: Time, env: Env, log: seq<ClientPayload>, processed: seq<Item>,
                  start: nat)
    requires ValidServer(s) && WellFormed(env.resized) && LogOk(log)
    requires ServerIn(s, log, processed, start) && Carries(p, log) && p.seqNum == s.expected
    ensures var f := FeedInOrder(s, p, now, env);
            FedIn(s, f, log, processed, start) && Kept(f.server, p.seqNum)
  {
    hide Finish, ProcessItems, Contiguous, Remaining, PtyOps, Released, Delivered, BufferOk, LogOk;
    var s1, items := Advance(s, p), Released(s, p);
    var done := ProcessItems(s1, items, env.resized);
    ReleasedContinues(s, p, log, processed, start);
    ReleasedReliable(s, p, log, processed, start);
    ProcessChangesLittle(s1, items, env.resized);
    ItemsWrite(s1, items, env.resized);
    FeedInOrderValid(s, p, now, env);
    ProcessedValid(s1, items, env.resized);
    FinishIn(s, done.server, done.replies, items, now, env.echo, log, processed, start);
    assert Finish(done.server, done.replies, items, now, env.echo) == FeedInOrder(s, p, now, env);
    FinishKeepsWindow(done.server, done.replies, items, now, env.echo);
  }

  lemma ProcessedValid(s: Server, items: seq<Item>, resized: Grid)
    requires ValidServer(s) && WellFormed(resized)
    ensures ValidServer(ProcessItems(s, items, resized).server)
  {
    hide ProcessItems;
    ProcessChangesLittle(s, items, resized);
  }

  lemma FinishKeepsWindow(s: Server, replies: seq<ServerAction>, items: seq<Item>, now: Time, echo: bool)
    ensures var t := Finish(s, replies, items, now, echo).server;
            t.expected == s.expected && t.outOfOrder == s.outOfOrder
  {
    hide CheckSync;
    SyncChangesLittle(s, now, echo);
  }

  lemma TransientIn(s: Server, p: ClientPacket, now: Time, env: Env, log: seq<ClientPayload>, processed: seq<Item>,
                    start: nat)
    requires ValidServer(s) && ServerIn(s, log, processed, start)
    ensures FedIn(s, FeedTransient(s, p, now, env), log, processed, start)
  {
    hide Finish, Delivered, BufferOk, ValidServer;
    var s1 := if p.ack > s.clientAck then s.(clientAck := p.ack) else s;
    assert processed + [] == processed && s.pty + PtyOps([]) == s.pty;
    var replies := match p.payload
      case FragmentNack(frameSeq, mask) => [ResendFragments(frameSeq, mask)]
      case _ => [];
    assert Replied(replies) == {};
    assert ValidServer(s1) by { AckKeepsValid(s, p.ack); }
    FinishIn(s, s1, replies, [], now, env.echo, log, processed, start);
  }

  lemma AckKeepsValid(s: Server, ack: nat)
    requires ValidServer(s)
    ensures ValidServer(s.(clientAck := ack))
  {
  }

  /** Any packet of the session keeps the channel, and a reliable one is held from then on. */
  lemma FeedIn(s: Server, p: ClientPacket, now: Time, env: Env, log: seq<ClientPayload>, processed: seq<Item>,
               start: nat)
    requires ValidServer(s) && WellFormed(env.resized) && LogOk(log) && s.sessionId != 0
    requires ServerIn(s, log, processed, start) && FromClient(p, s.sessionId, log)
    ensures var f := Feed(s, p, now, env);
            FedIn(s, f, log, processed, start) && (p.seqNum < TRANSIENT_BIT ==> Kept(f.server, p.seqNum))
  {
    hide FeedTransient, FeedInOrder, Delivered;
    var s1 := s.(lastRecv := now);
    if p.seqNum >= TRANSIENT_BIT {
      TransientIn(s1, p, now, env, log, processed, start);
    } else {
      assert p.payload in log;
      if p.seqNum == s.expected {
        InOrderIn(s1, p, now, env, log, processed, start);
      } else {
        IdleIn(s, if p.seqNum < s.expected then s1 else s1.(outOfOrder := s.outOfOrder[p.seqNum := p.payload]),
               log, processed, start);
      }
    }
  }

  // ----- handshakes -----

  lemma ResetIn(s: Server, h: ClientPacket, now: Time, env: Env, log: seq<ClientPayload>, processed: seq<Item>,
                start: nat)
    requires ValidServer(s) && ServerIn(s, log, processed, start) && h.sessionId == 0 && ResetBy(s, now)
    ensures var f := Feed(s, h, now, env);
            && FedOk(f) && f.items == [] && f.server.pty == s.pty && f.server.sessionId == s.sessionId
            && f.server.expected == h.seqNum + 1 && f.server.ackSeq == h.seqNum && f.server.outOfOrder == map[]
            && AcksUpTo(Replied(f.replies) + JobPacket(f.job), f.server.ackSeq)
  {
    hide CheckSync, Delivered, BufferOk, RunJob, ValidServer;
    var r := Reset(s, h, now);
    var a := SendPacket(ServerPacket(r.seqNum, h.seqNum, HandshakeAck(s.sessionId)));
    assert ValidServer(r) by { ResetValid(s, h, now); }
    FinishValid(r, [a], [], now, env.echo);
    SyncChangesLittle(r, now, env.echo);
    var f := Finish(r, [a], [], now, env.echo);
    assert f == Feed(s, h, now, env);
    assert forall x | x in [a] :: x == a;
    if f.job.Some? {
      assert RunJob(f.job.value).ack == h.seqNum by { JobAck(f.job.value); }
    }
  }

  lemma ResetValid(s: Server, h: ClientPacket, now: Time)
    requires ValidServer(s)
    ensures ValidServer(Reset(s, h, now))
  {
  }

  lemma JobAck(j: UpdateJob)
    requires ValidJob(j)
    ensures RunJob(j).ack == j.ack
  {
  }

  /** A handshake is ignored, or resets the session: then the stream goes on exactly when it carries the current ack. */
  lemma HandshakeIn(s: Server, h: ClientPacket, now: Time, env: Env, log: seq<ClientPayload>, processed: seq<Item>,
                    start: nat)
    requires ValidServer(s) && ServerIn(s, log, processed, start) && h.sessionId == 0
    ensures var f := Feed(s, h, now, env);
            && (!ResetBy(s, now) ==> f == Fed(s, [], [], None))
            && (!ResetBy(s, now) || h.seqNum == s.ackSeq ==> FedStream(s, f, log, processed, start))
            && (ResetBy(s, now) && h.seqNum != s.ackSeq ==> f.items == [] && f.server.expected != s.expected)
  {
    hide Finish, PtyOps;
    assert processed + [] == processed && s.pty + [] == s.pty && PtyOps([]) == [] by { NoOps(); }
    if ResetBy(s, now) {
      ResetIn(s, h, now, env, log, processed, start);
    }
  }
}
