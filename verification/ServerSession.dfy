/** The authoritative session (src/server/session.rs). */
module ServerSession {
  import opened Base
  import opened TerminalGrid
  import opened Protocol

  /** What the PTY was asked to do. */
  datatype PtyOp = Wrote(bytes: seq<byte>) | Resized(cols: u16, rows: u16)

  /** `screen` is the grid the terminal emulator would report now. */
  datatype Server = Server(sessionId: nat, seqNum: nat, ackSeq: nat, expected: nat,
                           outOfOrder: map<nat, ClientPayload>, clientAck: nat, lastSentAck: nat,
                           history: seq<Snapshot>, lastRecv: Time, lastSync: Time, lastPty: Time,
                           ptyAcc: nat, dirty: bool, screen: Grid, pty: seq<PtyOp>)

  /** What the foreign parts answer: the screen after a resize, and whether local echo is recommended. */
  datatype Env = Env(resized: Grid, echo: bool)

  datatype UpdateJob = UpdateJob(seqNum: nat, ack: nat, refSeq: nat, refState: Option<Grid>, current: Grid, echo: bool)

  /** `Panic` stands for the `unreachable!()` on a handshake in the reliable stream. */
  datatype ServerAction =
    | SendPacket(packet: ServerPacket)
    | OffloadDiffJob(job: UpdateJob)
    | ResendFragments(frameSeq: nat, receivedMask: seq<bv64>)
    | Panic

  const FRAME_INTERVAL := 16
  const FLOOD_INTERVAL := 150
  const FLOOD_WINDOW := 50
  const FLOOD_BYTES := 2048
  const HANDSHAKE_SILENCE := 5000
  const MAX_LAG := 5
  const HISTORY_KEEP := 100
  const USIZE_MAX := 0xFFFF_FFFF_FFFF_FFFF

  predicate ValidServer(s: Server) {
    WellFormed(s.screen) && forall h | h in s.history :: WellFormed(h.grid)
  }

  predicate ValidJob(j: UpdateJob) {
    WellFormed(j.current) && (j.refState.Some? ==> WellFormed(j.refState.value))
  }

  /** Running the job: diff, then seal under the job's own number. */
  function RunJob(j: UpdateJob): (r: ServerPacket)
    requires ValidJob(j)
  {
    ServerPacket(j.seqNum, j.ack, FramePayload(DiffFrom(j.current, j.refState, j.refSeq, j.echo)))
  }

  function InitServer(sessionId: nat, clientStartSeq: nat, screen: Grid, now: Time): (r: Server) {
    Server(sessionId, 0, clientStartSeq, clientStartSeq + 1, map[], 0, 0, [], now, now, now, 0, false, screen, [])
  }

  // ----- check_sync -----

  predicate Flooding(s: Server, now: Time) {
    s.ptyAcc > FLOOD_BYTES && Since(now, s.lastPty) < FLOOD_WINDOW
  }

  function MinInterval(s: Server, now: Time): (r: nat) {
    if Flooding(s, now) then FLOOD_INTERVAL else FRAME_INTERVAL
  }

  predicate Throttled(s: Server, now: Time) {
    s.seqNum > 0 && Since(now, s.lastSync) < MinInterval(s, now)
  }

  predicate LastRecordedIs(history: seq<Snapshot>, g: Grid) {
    history != [] && history[|history| - 1].grid == g
  }

  /** Drops frames older than the client's ack, oldest first, down to 100. */
  function PruneHistory(history: seq<Snapshot>, clientAck: nat): (r: seq<Snapshot>) {
    if |history| > HISTORY_KEEP && history[0].seqNum < clientAck then PruneHistory(history[1..], clientAck) else history
  }

  /** The reference is the client's acknowledged frame, unless it lags by more than 5 or is not recorded. */
  function ReferenceFor(s: Server, history: seq<Snapshot>): (r: Option<Grid>) {
    if s.seqNum - s.clientAck > MAX_LAG then None else Find(history, s.clientAck)
  }

  datatype Synced = Synced(server: Server, job: Option<UpdateJob>)

  function Emit(s: Server, now: Time, echo: bool): (r: Synced) {
    var history := PruneHistory(s.history, s.clientAck);
    var ref := ReferenceFor(s, history);
    var seqNum := s.seqNum + 1;
    Synced(s.(lastSentAck := s.ackSeq, dirty := false, lastSync := now, seqNum := seqNum,
              history := Record(history, Snapshot(seqNum, s.screen))),
           Some(UpdateJob(seqNum, s.ackSeq, if ref.Some? then s.clientAck else 0, ref, s.screen, echo)))
  }

  function CheckSync(s: Server, now: Time, echo: bool): (r: Synced) {
    if Throttled(s, now) then Synced(s, None)
    else
      var s1 := if Since(now, s.lastPty) >= FLOOD_WINDOW then s.(ptyAcc := 0) else s;
      if !s1.dirty && s1.ackSeq <= s1.lastSentAck then Synced(s1, None)
      else if LastRecordedIs(s1.history, s1.screen) && s1.ackSeq <= s1.lastSentAck then
        Synced(s1.(dirty := false), None)
      else Emit(s1, now, echo)
  }

  // ----- feed_packet -----

  datatype Item = Item(seqNum: nat, payload: ClientPayload)

  /** `items` are the packets processed, in order; `actions` the actions before the sync. */
  datatype Fed = Fed(server: Server, replies: seq<ServerAction>, items: seq<Item>, job: Option<UpdateJob>) {
    function Actions(): (r: seq<ServerAction>) {
      replies + JobActions(job)
    }
  }

  function JobActions(job: Option<UpdateJob>): (r: seq<ServerAction>) {
    if job.Some? then [OffloadDiffJob(job.value)] else []
  }

  function Finish(s: Server, replies: seq<ServerAction>, items: seq<Item>, now: Time, echo: bool): (r: Fed) {
    var synced := CheckSync(s, now, echo);
    Fed(synced.server, replies, items, synced.job)
  }

  predicate IsTransient(p: ClientPacket) {
    p.seqNum >= TRANSIENT_BIT || p.payload.Ack? || p.payload.FragmentNack?
  }

  /** The buffered packets that continue the stream at `expected`. */
  function Contiguous(buffer: map<nat, ClientPayload>, expected: nat): (items: seq<Item>)
    ensures |items| <= |buffer|
    decreases |buffer|
  {
    if expected in buffer then [Item(expected, buffer[expected])] + Contiguous(buffer - {expected}, expected + 1)
    else []
  }

  /** What remains buffered once they are taken out. */
  function Remaining(buffer: map<nat, ClientPayload>, expected: nat): (r: map<nat, ClientPayload>)
    decreases |buffer|
  {
    if expected in buffer then Remaining(buffer - {expected}, expected + 1) else buffer
  }

  lemma ContiguousNext(buffer: map<nat, ClientPayload>, expected: nat)
    requires expected in buffer
    ensures Contiguous(buffer, expected)
            == [Item(expected, buffer[expected])] + Contiguous(buffer - {expected}, expected + 1)
    ensures Remaining(buffer, expected) == Remaining(buffer - {expected}, expected + 1)
  {
  }

  lemma TakeNext(buffer: map<nat, ClientPayload>, expected: nat, released: seq<Item>)
    requires expected in buffer
    ensures |buffer - {expected}| < |buffer|
    ensures released + Contiguous(buffer, expected)
         == released + [Item(expected, buffer[expected])] + Contiguous(buffer - {expected}, expected + 1)
    ensures Remaining(buffer, expected) == Remaining(buffer - {expected}, expected + 1)
  {
    hide Contiguous, Remaining;
    ContiguousNext(buffer, expected);
    JoinOne(released, Item(expected, buffer[expected]), Contiguous(buffer - {expected}, expected + 1));
    assert (buffer - {expected}).Keys == buffer.Keys - {expected};
  }

  lemma JoinOne(before: seq<Item>, item: Item, rest: seq<Item>)
    ensures before + ([item] + rest) == before + [item] + rest
  {
  }

  lemma TakeNone(buffer: map<nat, ClientPayload>, expected: nat)
    requires expected !in buffer
    ensures Contiguous(buffer, expected) == [] && Remaining(buffer, expected) == buffer
  {
  }

  datatype Processed = Processed(server: Server, replies: seq<ServerAction>)

  function ProcessItem(s: Server, item: Item, resized: Grid): (r: Processed) {
    match item.payload
    case Ack => Processed(s, [])
    case Keystrokes(keys) => Processed(s.(pty := s.pty + [Wrote(keys)]), [])
    case Resize(cols, rows) => Processed(s.(pty := s.pty + [Resized(cols, rows)], screen := resized, dirty := true), [])
    case KeepAlive =>
      Processed(s.(seqNum := s.seqNum + 1), [SendPacket(ServerPacket(s.seqNum + 1, s.ackSeq, KeepAliveReply))])
    case FragmentNack(frameSeq, mask) => Processed(s, [ResendFragments(frameSeq, mask)])
    case Handshake(_, _, _) => Processed(s, [Panic])
  }

  function ProcessItems(s: Server, items: seq<Item>, resized: Grid): (r: Processed) {
    if items == [] then Processed(s, [])
    else
      var p := ProcessItems(s, items[..|items| - 1], resized);
      var q := ProcessItem(p.server, items[|items| - 1], resized);
      Processed(q.server, p.replies + q.replies)
  }

  /** Sequence tracking starts over for the reconnected client; the server's own numbering goes on. */
  function Reset(s: Server, p: ClientPacket, now: Time): (r: Server) {
    s.(lastRecv := now, ackSeq := p.seqNum, expected := p.seqNum + 1, clientAck := 0,
       outOfOrder := map[], history := [], dirty := true, seqNum := s.seqNum + 1)
  }

  function FeedHandshake(s: Server, p: ClientPacket, now: Time, env: Env): (r: Fed) {
    if s.seqNum > 0 && Since(now, s.lastRecv) < HANDSHAKE_SILENCE then Fed(s, [], [], None)
    else
      var s1 := Reset(s, p, now);
      Finish(s1, [SendPacket(ServerPacket(s1.seqNum, p.seqNum, HandshakeAck(s.sessionId)))], [], now, env.echo)
  }

  function FeedTransient(s: Server, p: ClientPacket, now: Time, env: Env): (r: Fed) {
    Finish(if p.ack > s.clientAck then s.(clientAck := p.ack) else s,
           match p.payload
           case FragmentNack(frameSeq, mask) => [ResendFragments(frameSeq, mask)]
           case _ => [],
           [], now, env.echo)
  }

  /** The in-order packet and everything it releases from the buffer. */
  function Released(s: Server, p: ClientPacket): (r: seq<Item>) {
    [Item(p.seqNum, p.payload)] + Contiguous(s.outOfOrder, s.expected + 1)
  }

  /** The window moves past what is released; the client's ack follows this packet, even downwards. */
  function Advance(s: Server, p: ClientPacket): (r: Server) {
    var n := |Released(s, p)|;
    s.(expected := s.expected + n, outOfOrder := Remaining(s.outOfOrder, s.expected + 1),
       ackSeq := s.expected + n - 1, clientAck := p.ack)
  }

  function FeedInOrder(s: Server, p: ClientPacket, now: Time, env: Env): (r: Fed) {
    var done := ProcessItems(Advance(s, p), Released(s, p), env.resized);
    Finish(done.server, done.replies, Released(s, p), now, env.echo)
  }

  function Feed(s: Server, p: ClientPacket, now: Time, env: Env): (r: Fed) {
    if p.sessionId == 0 then FeedHandshake(s, p, now, env)
    else if p.sessionId != s.sessionId then Fed(s, [], [], None)
    else
      var s1 := s.(lastRecv := now);
      if IsTransient(p) then FeedTransient(s1, p, now, env)
      else if p.seqNum < s.expected then Fed(s1, [], [], None)
      else if p.seqNum > s.expected then Fed(s1.(outOfOrder := s.outOfOrder[p.seqNum := p.payload]), [], [], None)
      else FeedInOrder(s1, p, now, env)
  }

  // ----- the other entry points -----

  function PtyBytes(s: Server, count: nat, screen: Grid, now: Time): (r: Server) {
    s.(screen := screen, dirty := true, lastPty := now,
       ptyAcc := if s.ptyAcc + count > USIZE_MAX then USIZE_MAX else s.ptyAcc + count)
  }

  /** The shutdown packet acknowledges nothing. */
  function PrepareShutdown(s: Server): (r: Fed) {
    var s1 := s.(seqNum := s.seqNum + 1);
    Fed(s1, [SendPacket(ServerPacket(s1.seqNum, 0, Shutdown))], [], None)
  }

  // ----- grids stay well-formed -----

  predicate ResetBy(s: Server, now: Time) {
    !(s.seqNum > 0 && Since(now, s.lastRecv) < HANDSHAKE_SILENCE)
  }

  lemma {:induction false} PruneIsSuffix(history: seq<Snapshot>, clientAck: nat)
    ensures var p := PruneHistory(history, clientAck);
            && |p| <= |history| && p == history[|history| - |p|..]
            && (|p| == |history| || |p| >= HISTORY_KEEP)
    decreases |history|
  {
    if |history| > HISTORY_KEEP && history[0].seqNum < clientAck {
      PruneIsSuffix(history[1..], clientAck);
    }
  }

  lemma EmitValid(s: Server, now: Time, echo: bool)
    requires ValidServer(s)
    ensures var r := Emit(s, now, echo);
            ValidServer(r.server) && r.job.Some? && ValidJob(r.job.value)
  {
    hide PruneHistory, Find;
    var history := PruneHistory(s.history, s.clientAck);
    PruneIsSuffix(s.history, s.clientAck);
    FindSound(history, s.clientAck);
    assert forall h | h in Record(history, Snapshot(s.seqNum + 1, s.screen)) :: h in history || h.grid == s.screen;
  }

  lemma SyncValid(s: Server, now: Time, echo: bool)
    requires ValidServer(s)
    ensures var r := CheckSync(s, now, echo);
            ValidServer(r.server) && (r.job.Some? ==> ValidJob(r.job.value))
  {
    hide Emit;
    EmitValid(s, now, echo);
    EmitValid(s.(ptyAcc := 0), now, echo);
  }

  /** Processing changes the numbering, the PTY, the screen and the dirty flag, and nothing else. */
  lemma {:induction false} ProcessChangesLittle(s: Server, items: seq<Item>, resized: Grid)
    ensures var t := ProcessItems(s, items, resized).server;
            && t == s.(seqNum := t.seqNum, pty := t.pty, screen := t.screen, dirty := t.dirty)
            && t.seqNum >= s.seqNum && (t.screen == s.screen || t.screen == resized)
    decreases |items|
  {
    if items != [] {
      ProcessChangesLittle(s, items[..|items| - 1], resized);
    }
  }

  predicate FedOk(f: Fed) {
    ValidServer(f.server) && (f.job.Some? ==> ValidJob(f.job.value))
  }

  lemma FinishValid(s: Server, replies: seq<ServerAction>, items: seq<Item>, now: Time, echo: bool)
    requires ValidServer(s)
    ensures FedOk(Finish(s, replies, items, now, echo))
  {
    hide CheckSync;
    SyncValid(s, now, echo);
  }

  lemma FeedInOrderValid(s: Server, p: ClientPacket, now: Time, env: Env)
    requires ValidServer(s) && WellFormed(env.resized)
    ensures FedOk(FeedInOrder(s, p, now, env))
  {
    hide ProcessItems, Finish, Contiguous, Remaining;
    var done := ProcessItems(Advance(s, p), Released(s, p), env.resized);
    ProcessChangesLittle(Advance(s, p), Released(s, p), env.resized);
    FinishValid(done.server, done.replies, Released(s, p), now, env.echo);
  }

  lemma FeedValid(s: Server, p: ClientPacket, now: Time, env: Env)
    requires ValidServer(s) && WellFormed(env.resized)
    ensures FedOk(Feed(s, p, now, env))
  {
    hide Finish, FeedInOrder;
    if p.sessionId == 0 {
      var s1 := Reset(s, p, now);
      FinishValid(s1, [SendPacket(ServerPacket(s1.seqNum, p.seqNum, HandshakeAck(s.sessionId)))], [], now, env.echo);
    } else {
      var s1 := s.(lastRecv := now);
      FinishValid(if p.ack > s1.clientAck then s1.(clientAck := p.ack) else s1,
                  match p.payload
                  case FragmentNack(frameSeq, mask) => [ResendFragments(frameSeq, mask)]
                  case _ => [], [], now, env.echo);
      FeedInOrderValid(s1, p, now, env);
    }
  }

  // ----- the session object -----

  class AuthoritativeSession {
    const sessionId: nat
    var seqNum: nat
    var ackSeq: nat
    var expected: nat
    var outOfOrder: map<nat, ClientPayload>
    var clientAck: nat
    var lastSentAck: nat
    var history: seq<Snapshot>
    var lastRecv: Time
    var lastSync: Time
    var lastPty: Time
    var ptyAcc: nat
    var dirty: bool
    var screen: Grid
    var pty: seq<PtyOp>

    function State(): (r: Server)
      reads this
    {
      Server(sessionId, seqNum, ackSeq, expected, outOfOrder, clientAck, lastSentAck, history, lastRecv, lastSync,
             lastPty, ptyAcc, dirty, screen, pty)
    }

    constructor (sessionId: nat, clientStartSeq: nat, screen: Grid, now: Time)
      ensures State() == InitServer(sessionId, clientStartSeq, screen, now)
    {
      this.sessionId, this.screen := sessionId, screen;
      seqNum, ackSeq, expected, outOfOrder := 0, clientStartSeq, clientStartSeq + 1, map[];
      clientAck, lastSentAck, history := 0, 0, [];
      lastRecv, lastSync, lastPty, ptyAcc, dirty, pty := now, now, now, 0, false, [];
    }

    method FeedPacket(p: ClientPacket, now: Time, env: Env) returns (actions: seq<ServerAction>)
      modifies this
      ensures State() == Feed(old(State()), p, now, env).server
      ensures actions == Feed(old(State()), p, now, env).Actions()
    {
      if p.sessionId == 0 {
        actions := HandleHandshake(p, now, env);
        return;
      }
      if p.sessionId != sessionId {
        return [];
      }
      lastRecv := now;
      if IsTransient(p) {
        if p.ack > clientAck {
          clientAck := p.ack;
        }
        actions :=
          if p.payload.FragmentNack? then [ResendFragments(p.payload.frameSeq, p.payload.receivedMask)] else [];
        var sync := CheckSyncNow(now, env.echo);
        return actions + sync;
      }
      if p.seqNum < expected {
        return [];
      }
      if p.seqNum > expected {
        outOfOrder := outOfOrder[p.seqNum := p.payload];
        return [];
      }
      actions := HandleInOrder(p, now, env);
    }

    method HandleHandshake(p: ClientPacket, now: Time, env: Env) returns (actions: seq<ServerAction>)
      modifies this
      ensures State() == FeedHandshake(old(State()), p, now, env).server
      ensures actions == FeedHandshake(old(State()), p, now, env).Actions()
    {
      hide CheckSync;
      if seqNum > 0 && Since(now, lastRecv) < HANDSHAKE_SILENCE {
        return [];
      }
      ResetTracking(p, now);
      actions := [SendPacket(ServerPacket(seqNum, p.seqNum, HandshakeAck(sessionId)))];
      var sync := CheckSyncNow(now, env.echo);
      actions := actions + sync;
    }

    method ResetTracking(p: ClientPacket, now: Time)
      modifies this`lastRecv, this`ackSeq, this`expected, this`clientAck, this`outOfOrder, this`history, this`dirty,
          this`seqNum
      ensures State() == Reset(old(State()), p, now)
    {
      lastRecv := now;
      ackSeq, expected, clientAck := p.seqNum, p.seqNum + 1, 0;
      ForgetBuffers();
      seqNum := seqNum + 1;
    }

    method ForgetBuffers()
      modifies this`outOfOrder, this`history, this`dirty
      ensures outOfOrder == map[] && history == [] && dirty
    {
      outOfOrder, history, dirty := map[], [], true;
    }

    method HandleInOrder(p: ClientPacket, now: Time, env: Env) returns (actions: seq<ServerAction>)
      requires p.seqNum == expected
      modifies this
      ensures State() == FeedInOrder(old(State()), p, now, env).server
      ensures actions == FeedInOrder(old(State()), p, now, env).Actions()
    {
      hide CheckSync, JobActions, ProcessItem, Released, Advance;
      var toProcess := AdvanceWindow(p);
      ghost var start := State();
      actions := [];
      for i := 0 to |toProcess|
        invariant Processed(State(), actions) == ProcessItems(start, toProcess[..i], env.resized)
      {
        assert toProcess[..i + 1][..i] == toProcess[..i];
        var more := Process(toProcess[i], env.resized);
        actions := actions + more;
      }
      assert toProcess[..|toProcess|] == toProcess;
      assert FeedInOrder(old(State()), p, now, env) == Finish(State(), actions, toProcess, now, env.echo);
      var sync := CheckSyncNow(now, env.echo);
      actions := actions + sync;
    }

    method AdvanceWindow(p: ClientPacket) returns (toProcess: seq<Item>)
      requires p.seqNum == expected
      modifies this`expected, this`outOfOrder, this`ackSeq, this`clientAck
      ensures State() == Advance(old(State()), p) && toProcess == Released(old(State()), p)
    {
      hide Contiguous, Remaining;
      expected := expected + 1;
      var released := TakeContiguous();
      toProcess := [Item(p.seqNum, p.payload)] + released;
      ackSeq := expected - 1;
      clientAck := p.ack;
    }

    /** Moves the packets that continue the stream out of the buffer. */
    method TakeContiguous() returns (released: seq<Item>)
      modifies this`expected, this`outOfOrder
      ensures released == Contiguous(old(outOfOrder), old(expected))
      ensures outOfOrder == Remaining(old(outOfOrder), old(expected)) && expected == old(expected) + |released|
    {
      hide Contiguous, Remaining;
      released := [];
      while expected in outOfOrder
        invariant released + Contiguous(outOfOrder, expected) == Contiguous(old(outOfOrder), old(expected))
        invariant Remaining(outOfOrder, expected) == Remaining(old(outOfOrder), old(expected))
        invariant expected == old(expected) + |released|
        decreases |outOfOrder|
      {
        TakeNext(outOfOrder, expected, released);
        released := released + [Item(expected, outOfOrder[expected])];
        outOfOrder := outOfOrder - {expected};
        expected := expected + 1;
      }
      TakeNone(outOfOrder, expected);
      assert released + [] == released;
    }

    method Process(item: Item, resized: Grid) returns (replies: seq<ServerAction>)
      modifies this
      ensures Processed(State(), replies) == ProcessItem(old(State()), item, resized)
    {
      replies := [];
      match item.payload {
        case Ack =>
        case Keystrokes(keys) =>
          pty := pty + [Wrote(keys)];
        case Resize(cols, rows) =>
          pty := pty + [Resized(cols, rows)];
          screen := resized;
          dirty := true;
        case KeepAlive =>
          seqNum := seqNum + 1;
          replies := [SendPacket(ServerPacket(seqNum, ackSeq, KeepAliveReply))];
        case FragmentNack(frameSeq, mask) =>
          replies := [ResendFragments(frameSeq, mask)];
        case Handshake(_, _, _) =>
          replies := [Panic];
      }
    }

    method OnPtyBytes(count: nat, newScreen: Grid, now: Time)
      modifies this
      ensures State() == PtyBytes(old(State()), count, newScreen, now)
    {
      screen := newScreen;
      dirty := true;
      lastPty := now;
      ptyAcc := if ptyAcc + count > USIZE_MAX then USIZE_MAX else ptyAcc + count;
    }

    method OnTick(now: Time, echo: bool) returns (actions: seq<ServerAction>)
      modifies this
      ensures State() == CheckSync(old(State()), now, echo).server
      ensures actions == JobActions(CheckSync(old(State()), now, echo).job)
    {
      actions := CheckSyncNow(now, echo);
    }

    method Shutdown() returns (action: ServerAction)
      modifies this
      ensures State() == PrepareShutdown(old(State())).server && [action] == PrepareShutdown(old(State())).Actions()
    {
      seqNum := seqNum + 1;
      action := SendPacket(ServerPacket(seqNum, 0, ServerPayload.Shutdown));
    }

    method CheckSyncNow(now: Time, echo: bool) returns (actions: seq<ServerAction>)
      modifies this
      ensures State() == CheckSync(old(State()), now, echo).server
      ensures actions == JobActions(CheckSync(old(State()), now, echo).job)
    {
      hide Emit;
      var timeSincePty := Since(now, lastPty);
      var isFlooding := ptyAcc > FLOOD_BYTES && timeSincePty < FLOOD_WINDOW;
      var minInterval := if isFlooding then FLOOD_INTERVAL else FRAME_INTERVAL;
      if seqNum > 0 && Since(now, lastSync) < minInterval {
        return [];
      }
      if timeSincePty >= FLOOD_WINDOW {
        ptyAcc := 0;
      }
      if !dirty && ackSeq <= lastSentAck {
        return [];
      }
      var isIdentical := history != [] && history[|history| - 1].grid == screen;
      var ackUpdated := ackSeq > lastSentAck;
      if isIdentical && !ackUpdated {
        dirty := false;
        return [];
      }
      var job := EmitFrame(now, echo);
      actions := [OffloadDiffJob(job)];
    }

    method PruneOldHistory()
      modifies this`history
      ensures history == PruneHistory(old(history), clientAck)
    {
      while |history| > HISTORY_KEEP && history[0].seqNum < clientAck
        invariant PruneHistory(history, clientAck) == PruneHistory(old(history), clientAck)
        decreases |history|
      {
        history := history[1..];
      }
    }

    /** The client's acknowledged frame, unless it lags by more than 5 or is not recorded. */
    method ChooseReference() returns (refState: Option<Grid>)
      ensures refState == ReferenceFor(State(), history)
    {
      refState := None;
      if !(seqNum - clientAck > MAX_LAG) {
        refState := FindInHistory(history, clientAck);
      }
    }

    method RecordScreen()
      modifies this`seqNum, this`history
      ensures seqNum == old(seqNum) + 1 && history == Record(old(history), Snapshot(seqNum, screen))
    {
      seqNum := seqNum + 1;
      history := history + [Snapshot(seqNum, screen)];
      if |history| > HISTORY_MAX {
        history := history[1..];
      }
    }

    method EmitFrame(now: Time, echo: bool) returns (job: UpdateJob)
      modifies this
      ensures Synced(State(), Some(job)) == Emit(old(State()), now, echo)
    {
      hide PruneHistory, Find, Record;
      lastSentAck := ackSeq;
      dirty := false;
      lastSync := now;
      PruneOldHistory();
      var refState := ChooseReference();
      var refSeq := if refState.Some? then clientAck else 0;
      RecordScreen();
      job := UpdateJob(seqNum, ackSeq, refSeq, refState, screen, echo);
    }
  }
}
