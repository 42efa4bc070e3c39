/** Payloads and packets as both ends see them once opened (src/protocol.rs). */
module Protocol {
  import opened Base
  import opened TerminalGrid

  datatype ClientPayload =
    | Handshake(clientVersion: nat, width: u16, height: u16)
    | Keystrokes(keys: seq<byte>)
    | Resize(cols: u16, rows: u16)
    | KeepAlive
    | Ack
    | FragmentNack(frameSeq: nat, receivedMask: seq<bv64>)

  datatype ServerPayload =
    | HandshakeAck(sessionId: nat)
    | FramePayload(update: FrameUpdate)
    | KeepAliveReply
    | Shutdown

  datatype ClientPacket = ClientPacket(sessionId: nat, seqNum: nat, ack: nat, payload: ClientPayload)

  datatype ServerPacket = ServerPacket(seqNum: nat, ack: nat, payload: ServerPayload)

  /** Bit 63 of a client sequence number marks a transient packet. */
  const TRANSIENT_BIT: nat := 0x8000_0000_0000_0000

  /** A grid kept under the sequence number of the frame that carried it. */
  datatype Snapshot = Snapshot(seqNum: nat, grid: Grid)

  /** The oldest entry with this sequence number. */
  function Find(history: seq<Snapshot>, seqNum: nat): (r: Option<Grid>) {
    if history == [] then None
    else if history[0].seqNum == seqNum then Some(history[0].grid)
    else Find(history[1..], seqNum)
  }

  lemma {:induction false} FindSound(history: seq<Snapshot>, seqNum: nat)
    ensures Find(history, seqNum).Some? ==> Snapshot(seqNum, Find(history, seqNum).value) in history
    ensures Find(history, seqNum).None? ==> forall h | h in history :: h.seqNum != seqNum
    decreases |history|
  {
    if history != [] {
      FindSound(history[1..], seqNum);
    }
  }

  method FindInHistory(history: seq<Snapshot>, seqNum: nat) returns (grid: Option<Grid>)
    ensures grid == Find(history, seqNum)
  {
    var i := 0;
    assert history[0..] == history;
    while i < |history|
      invariant 0 <= i <= |history| && Find(history, seqNum) == Find(history[i..], seqNum)
    {
      if history[i].seqNum == seqNum {
        return Some(history[i].grid);
      }
      assert history[i..][1..] == history[i + 1..];
      i := i + 1;
    }
    return None;
  }

  /** Both ends remember at most 200 grids; the oldest goes first. */
  const HISTORY_MAX := 200

  function Record(history: seq<Snapshot>, h: Snapshot): (longer: seq<Snapshot>)
    ensures longer != [] && longer[|longer| - 1] == h
  {
    var all := history + [h];
    if |all| > HISTORY_MAX then all[1..] else all
  }

  lemma RecordedWhat(history: seq<Snapshot>, h: Snapshot)
    ensures forall x | x in Record(history, h) :: x in history || x == h
  {
  }
}
