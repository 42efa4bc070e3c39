/** What the fragment buffer guarantees over whole runs of arrivals. */
module Reassembly {
  import opened Base
  import opened Fragmentation

  // ----- invariants for any fragments at all -----

  predicate StrictlyIncomplete(e: Partial) {
    0 < |e.pieces| < e.total
  }

  ghost predicate BufferInv(frames: map<nat, Partial>) {
    |frames| <= MAX_FRAMES && forall s | s in frames :: StrictlyIncomplete(frames[s])
  }

  lemma SubsetSize<T>(a: set<T>, b: set<T>)
    requires a <= b
    ensures |a| <= |b|
    ensures |a| == |b| ==> a == b
  {
    assert b == a + (b - a);
  }

  lemma StoredSize(frames: map<nat, Partial>, p: Fragment, wireLen: nat)
    requires BufferInv(frames) && p.total > 1
    ensures 0 < |Store(frames, p, wireLen).pieces| <= Store(frames, p, wireLen).total
  {
    var before := if p.seqNum in frames then frames[p.seqNum].pieces.Keys else {};
    assert Store(frames, p, wireLen).pieces.Keys == before + {p.idx};
  }

  lemma EvictedSize(frames: map<nat, Partial>)
    requires |frames| <= MAX_FRAMES + 1
    ensures |Evicted(frames)| <= MAX_FRAMES
  {
    if |frames| > MAX_FRAMES {
      var m := MinKey(frames.Keys);
      assert (frames - {m}).Keys == frames.Keys - {m};
    }
  }

  lemma EvictedPart(frames: map<nat, Partial>)
    ensures forall k | k in Evicted(frames) :: k in frames && Evicted(frames)[k] == frames[k]
  {
  }

  lemma StoringKeepsBufferInv(frames: map<nat, Partial>, s: nat, e: Partial)
    requires BufferInv(frames) && StrictlyIncomplete(e)
    ensures BufferInv(Evicted(frames[s := e]))
  {
    hide StrictlyIncomplete, Evicted;
    assert frames[s := e].Keys == frames.Keys + {s};
    EvictedSize(frames[s := e]);
    EvictedPart(frames[s := e]);
  }

  /** Whatever arrives, at most 32 frames stay buffered and none of them is complete. */
  lemma InsertKeepsBufferInv(frames: map<nat, Partial>, p: Fragment, wireLen: nat)
    requires BufferInv(frames)
    ensures BufferInv(Insert(frames, p, wireLen).frames)
    ensures p.total > 1 && Insert(frames, p, wireLen).out.Some? ==>
              forall s | s in Insert(frames, p, wireLen).frames :: s > p.seqNum
  {
    if p.total > 1 {
      var e := Store(frames, p, wireLen);
      StoredSize(frames, p, wireLen);
      if |e.pieces| == e.total {
        SubsetSize(Newer(frames, p.seqNum).Keys, frames.Keys);
      } else {
        StoringKeepsBufferInv(frames, p.seqNum, e);
      }
    }
  }

  /** The frame's total stays, the bytes on the wire add up, and the newest copy of a fragment is kept. */
  function Joined(held: Partial, p: Fragment, wireLen: nat): (r: Partial) {
    held.(wireLen := held.wireLen + wireLen, pieces := held.pieces[p.idx := p.ciphertext])
  }

  /** A completed frame reports all its bytes on the wire, duplicates included. */
  lemma CompletedAccounts(frames: map<nat, Partial>, p: Fragment, wireLen: nat)
    requires Insert(frames, p, wireLen).out.Some?
    ensures var a := Insert(frames, p, wireLen).out.value;
            && a.seqNum == p.seqNum && a.ack == p.ack
            && a.wireLen == wireLen + (if p.total > 1 && p.seqNum in frames then frames[p.seqNum].wireLen else 0)
  {
  }

  /**
   * A fragment that completes nothing joins what its frame holds. Every frame stays, and as it was, but
   * for the oldest one, and that one only when the buffer would hold 33.
   */
  lemma InsertDropsOldest(frames: map<nat, Partial>, p: Fragment, wireLen: nat)
    requires BufferInv(frames) && p.total > 1 && Insert(frames, p, wireLen).out.None?
    ensures var after, all := Insert(frames, p, wireLen).frames, frames.Keys + {p.seqNum};
            && (|all| <= 32 ==> after.Keys == all)
            && (|all| > 32 ==> |all| == 33 && exists m :: IsMin(all, m) && after.Keys == all - {m})
            && (forall k | k in after && k != p.seqNum :: after[k] == frames[k])
            && (p.seqNum in after ==>
                  after[p.seqNum] == Joined(if p.seqNum in frames then frames[p.seqNum] else Partial(p.total, 0, map[]),
                                            p, wireLen))
  {
    hide StrictlyIncomplete, Evicted;
    var e, all := Store(frames, p, wireLen), frames.Keys + {p.seqNum};
    hide Store;
    assert frames[p.seqNum := e].Keys == all && |all| <= |frames| + 1;
    EvictedIs(frames[p.seqNum := e]);
    StoredIs(frames, p, wireLen);
  }

  lemma EvictedIs(frames: map<nat, Partial>)
    ensures |frames| <= 32 ==> Evicted(frames) == frames
    ensures |frames| > 32 ==> exists m :: IsMin(frames.Keys, m) && Evicted(frames).Keys == frames.Keys - {m}
    ensures forall k | k in Evicted(frames) :: k in frames && Evicted(frames)[k] == frames[k]
  {
    if |frames| > 32 {
      assert IsMin(frames.Keys, MinKey(frames.Keys));
      assert Evicted(frames).Keys == frames.Keys - {MinKey(frames.Keys)};
    }
  }

  lemma StoredIs(frames: map<nat, Partial>, p: Fragment, wireLen: nat)
    ensures Store(frames, p, wireLen)
            == Joined(if p.seqNum in frames then frames[p.seqNum] else Partial(p.total, 0, map[]), p, wireLen)
  {
  }

  // ----- runs of arrivals -----

  datatype Arrival = Arrival(fragment: Fragment, wireLen: nat)

  function Deliver(frames: map<nat, Partial>, run: seq<Arrival>): (r: map<nat, Partial>) {
    if run == [] then frames
    else
      var a := run[|run| - 1];
      Insert(Deliver(frames, run[..|run| - 1]), a.fragment, a.wireLen).frames
  }

  /** What the last arrival of the run produces. */
  function Output(frames: map<nat, Partial>, run: seq<Arrival>): (r: Option<Assembled>)
    requires run != []
  {
    var a := run[|run| - 1];
    Insert(Deliver(frames, run[..|run| - 1]), a.fragment, a.wireLen).out
  }

  lemma {:induction false} DeliverKeepsBufferInv(frames: map<nat, Partial>, run: seq<Arrival>)
    requires BufferInv(frames)
    ensures BufferInv(Deliver(frames, run))
    ensures run != [] && run[|run| - 1].fragment.total > 1 && Output(frames, run).Some? ==>
              forall s | s in Deliver(frames, run) :: s > run[|run| - 1].fragment.seqNum
    decreases |run|
  {
    if run != [] {
      DeliverKeepsBufferInv(frames, run[..|run| - 1]);
      var a := run[|run| - 1];
      InsertKeepsBufferInv(Deliver(frames, run[..|run| - 1]), a.fragment, a.wireLen);
    }
  }

  // ----- arrivals that were really sealed -----

  /** At most one message per sequence number, each small enough for its fragment count to fit in u16. */
  ghost predicate Sealed(messages: map<nat, Message>) {
    forall s | s in messages :: messages[s].seqNum == s && FragmentCount(messages[s]) <= MAX_FRAGMENTS
  }

  /** `p` is a fragment of `m`, its index and count not cut off by the cast. */
  predicate IsFragment(p: Fragment, m: Message) {
    && p.seqNum == m.seqNum && p.ack == m.ack && p.total == FragmentCount(m)
    && p.idx < FragmentCount(m) && p.ciphertext == Piece(m, p.idx)
  }

  /** For a message of at most 65535 fragments these are exactly the fragments that sealing makes. */
  lemma FragmentsAre(m: Message, p: Fragment)
    requires FragmentCount(m) <= MAX_FRAGMENTS
    ensures p in Fragments(m) <==> IsFragment(p, m)
  {
    if IsFragment(p, m) {
      assert Fragments(m)[p.idx] == p;
    }
  }

  lemma AtIndex(m: Message, i: nat)
    requires i < FragmentCount(m) <= MAX_FRAGMENTS
    ensures FragmentAt(m, i).idx == i && IsFragment(FragmentAt(m, i), m)
  {
  }

  predicate FromSealed(p: Fragment, messages: map<nat, Message>) {
    p.seqNum in messages && IsFragment(p, messages[p.seqNum])
  }

  ghost predicate AllSealed(run: seq<Arrival>, messages: map<nat, Message>) {
    forall a | a in run :: FromSealed(a.fragment, messages)
  }

  predicate HoldsChunks(e: Partial, m: Message) {
    && FragmentCount(m) >= 2 && e.total == FragmentCount(m)
    && forall i | i in e.pieces :: i < FragmentCount(m) && e.pieces[i] == Piece(m, i)
  }

  ghost predicate Agrees(frames: map<nat, Partial>, messages: map<nat, Message>) {
    forall s | s in frames :: s in messages && HoldsChunks(frames[s], messages[s])
  }

  predicate Held(frames: map<nat, Partial>, s: nat, i: nat) {
    s in frames && i in frames[s].pieces
  }

  predicate OthersHeld(frames: map<nat, Partial>, s: nat, n: nat, idx: nat) {
    forall j: nat | j < n && j != idx :: Held(frames, s, j)
  }

  predicate AllHeld(e: Partial, n: nat) {
    forall i: nat | i < n :: i in e.pieces
  }

  /** The exact original, with its own sequence number and ack. */
  predicate Exact(a: Assembled, m: Message) {
    a.seqNum == m.seqNum && a.ack == m.ack && a.ciphertext == m.ciphertext
  }

  function Below(n: nat): (s: set<nat>)
    ensures forall i: nat :: i in s <==> i < n
  {
    if n == 0 then {} else Below(n - 1) + {n - 1}
  }

  lemma {:induction false} BelowSize(n: nat)
    ensures |Below(n)| == n
    decreases n
  {
    if n > 0 {
      BelowSize(n - 1);
    }
  }

  lemma SlicesJoin(ct: seq<byte>, a: nat, b: nat)
    requires a <= b <= |ct|
    ensures ct[..a] + ct[a..b] == ct[..b] && ct[..|ct|] == ct
  {
  }

  lemma {:induction false} JoinChunks(pieces: map<nat, seq<byte>>, ct: seq<byte>, n: nat)
    requires n <= ChunkCount(|ct|)
    requires forall i: nat | i < n :: i in pieces && pieces[i] == Chunk(ct, i)
    ensures n * FRAGMENT_PAYLOAD_SIZE <= |ct| ==> Join(pieces, n) == ct[..n * FRAGMENT_PAYLOAD_SIZE]
    ensures n == ChunkCount(|ct|) ==> Join(pieces, n) == ct
    decreases n
  {
    if n > 0 {
      JoinChunks(pieces, ct, n - 1);
      var lo := (n - 1) * FRAGMENT_PAYLOAD_SIZE;
      assert Join(pieces, n - 1) == ct[..lo];
      SlicesJoin(ct, lo, ChunkEnd(|ct|, n - 1));
    }
  }

  /** The count test is exact: keys below `n`, and as many as `n`, means every index is there. */
  lemma CountTest(keys: set<nat>, n: nat)
    requires keys <= Below(n)
    ensures |keys| == n <==> keys == Below(n)
  {
    BelowSize(n);
    SubsetSize(keys, Below(n));
  }

  lemma FullIffAllHeld(e: Partial, m: Message)
    requires HoldsChunks(e, m)
    ensures |e.pieces| == e.total <==> AllHeld(e, FragmentCount(m))
    ensures |e.pieces| == e.total ==> Join(e.pieces, e.total) == m.ciphertext
  {
    var keys := e.pieces.Keys;
    CountTest(keys, FragmentCount(m));
    assert keys == Below(FragmentCount(m)) <==> AllHeld(e, FragmentCount(m));
    if |e.pieces| == e.total {
      JoinChunks(e.pieces, m.ciphertext, e.total);
    }
  }

  lemma StoreSealed(frames: map<nat, Partial>, messages: map<nat, Message>, p: Fragment, wireLen: nat)
    requires Sealed(messages) && Agrees(frames, messages) && FromSealed(p, messages)
    requires FragmentCount(messages[p.seqNum]) >= 2
    ensures HoldsChunks(Store(frames, p, wireLen), messages[p.seqNum])
    ensures AllHeld(Store(frames, p, wireLen), FragmentCount(messages[p.seqNum])) <==>
            OthersHeld(frames, p.seqNum, FragmentCount(messages[p.seqNum]), p.idx)
  {
    assert forall i: nat :: i in Store(frames, p, wireLen).pieces <==> Held(frames, p.seqNum, i) || i == p.idx;
  }

  lemma InsertAgrees(frames: map<nat, Partial>, messages: map<nat, Message>, p: Fragment, wireLen: nat)
    requires Sealed(messages) && Agrees(frames, messages) && FromSealed(p, messages)
    ensures Agrees(Insert(frames, p, wireLen).frames, messages)
  {
    if FragmentCount(messages[p.seqNum]) >= 2 {
      StoreSealed(frames, messages, p, wireLen);
    }
  }

  /** One arrival completes its frame exactly when every other fragment is held, and yields the original. */
  lemma InsertSealed(frames: map<nat, Partial>, messages: map<nat, Message>, p: Fragment, wireLen: nat)
    requires Sealed(messages) && Agrees(frames, messages) && FromSealed(p, messages)
    ensures var out := Insert(frames, p, wireLen).out;
            var m := messages[p.seqNum];
            && (out.Some? <==> OthersHeld(frames, p.seqNum, FragmentCount(m), p.idx))
            && (out.Some? ==> Exact(out.value, m))
  {
    var m := messages[p.seqNum];
    var out := Insert(frames, p, wireLen).out;
    if FragmentCount(m) >= 2 {
      var e := Store(frames, p, wireLen);
      StoreSealed(frames, messages, p, wireLen);
      FullIffAllHeld(e, m);
    }
  }

  lemma {:induction false} DeliverSealed(frames: map<nat, Partial>, messages: map<nat, Message>, run: seq<Arrival>)
    requires Sealed(messages) && Agrees(frames, messages) && AllSealed(run, messages)
    ensures Agrees(Deliver(frames, run), messages)
    decreases |run|
  {
    if run != [] {
      var a := run[|run| - 1];
      DeliverSealed(frames, messages, run[..|run| - 1]);
      InsertAgrees(Deliver(frames, run[..|run| - 1]), messages, a.fragment, a.wireLen);
    }
  }

  lemma SealedPrefix(run: seq<Arrival>, messages: map<nat, Message>, j: nat)
    requires AllSealed(run, messages) && j <= |run|
    ensures AllSealed(run[..j], messages)
  {
  }

  lemma NothingBuffered(messages: map<nat, Message>)
    ensures Agrees(map[], messages)
  {
  }

  /** Any interleaving, duplication and reordering: whatever is reassembled is an exact original. */
  lemma ReassemblyIsSafe(messages: map<nat, Message>, run: seq<Arrival>, j: nat)
    requires Sealed(messages) && AllSealed(run, messages) && 0 < j <= |run|
    ensures var out := Output(map[], run[..j]);
            out.Some? ==> out.value.seqNum in messages && Exact(out.value, messages[out.value.seqNum])
  {
    hide Agrees, Insert, Deliver, Sealed, FragmentCount, Piece, OthersHeld;
    SealedPrefix(run, messages, j - 1);
    NothingBuffered(messages);
    DeliverSealed(map[], messages, run[..j - 1]);
    assert run[..j][..j - 1] == run[..j - 1];
    assert run[j - 1] in run;
    InsertSealed(Deliver(map[], run[..j - 1]), messages, run[j - 1].fragment, run[j - 1].wireLen);
  }

  // ----- completeness -----

  predicate Arrives(run: seq<Arrival>, s: nat, i: nat) {
    exists a :: a in run && a.fragment.seqNum == s && a.fragment.idx == i
  }

  /** If the buffer held some of frame `s`, or some of it arrived, the frame is buffered after the run. */
  ghost predicate StillBuffered(frames: map<nat, Partial>, s: nat, run: seq<Arrival>) {
    s in frames || (exists i: nat :: Arrives(run, s, i)) ==> s in Deliver(frames, run)
  }

  /** Frame `s` is not evicted, superseded or finished before the last arrival. */
  ghost predicate NeverLost(frames: map<nat, Partial>, s: nat, run: seq<Arrival>) {
    forall j | 0 <= j < |run| :: StillBuffered(frames, s, run[..j])
  }

  lemma NeverLostPrefix(frames: map<nat, Partial>, s: nat, run: seq<Arrival>)
    requires run != [] && NeverLost(frames, s, run)
    ensures NeverLost(frames, s, run[..|run| - 1]) && StillBuffered(frames, s, run[..|run| - 1])
  {
    var before := run[..|run| - 1];
    forall j | 0 <= j < |before| ensures StillBuffered(frames, s, before[..j]) {
      assert before[..j] == run[..j];
    }
  }

  lemma ArrivesLast(run: seq<Arrival>, s: nat, i: nat)
    requires run != []
    ensures var a := run[|run| - 1].fragment;
            Arrives(run, s, i) <==> Arrives(run[..|run| - 1], s, i) || (a.seqNum == s && a.idx == i)
  {
    assert run == run[..|run| - 1] + [run[|run| - 1]];
  }

  lemma InsertCollects(frames: map<nat, Partial>, messages: map<nat, Message>, p: Fragment, wireLen: nat, s: nat,
                       i: nat)
    requires Sealed(messages) && Agrees(frames, messages) && FromSealed(p, messages)
    requires s in frames || p.seqNum == s ==> s in Insert(frames, p, wireLen).frames
    ensures Held(Insert(frames, p, wireLen).frames, s, i) <==> Held(frames, s, i) || (p.seqNum == s && p.idx == i)
  {
    assert s in frames ==> HoldsChunks(frames[s], messages[s]);
  }

  /** While nothing of the frame is lost, the buffer holds exactly what arrived of it. */
  lemma {:induction false} Collects(frames: map<nat, Partial>, messages: map<nat, Message>, s: nat, run: seq<Arrival>,
                                    i: nat)
    requires Sealed(messages) && Agrees(frames, messages) && AllSealed(run, messages)
    requires NeverLost(frames, s, run) && StillBuffered(frames, s, run)
    ensures Held(Deliver(frames, run), s, i) <==> Held(frames, s, i) || Arrives(run, s, i)
    decreases |run|
  {
    if run != [] {
      var before, a := run[..|run| - 1], run[|run| - 1];
      NeverLostPrefix(frames, s, run);
      Collects(frames, messages, s, before, i);
      DeliverSealed(frames, messages, before);
      ArrivesLast(run, s, i);
      ArrivesLast(run, s, a.fragment.idx);
      if s in Deliver(frames, before) && s !in frames {
        AppearsByArrival(frames, s, before);
        var k :| Arrives(before, s, k);
        ArrivesLast(run, s, k);
      }
      InsertCollects(Deliver(frames, before), messages, a.fragment, a.wireLen, s, i);
    }
  }

  lemma {:induction false} AppearsByArrival(frames: map<nat, Partial>, s: nat, run: seq<Arrival>)
    requires s !in frames && s in Deliver(frames, run)
    ensures exists i: nat :: Arrives(run, s, i)
    decreases |run|
  {
    var before, a := run[..|run| - 1], run[|run| - 1];
    if a.fragment.seqNum == s {
      assert Arrives(run, s, a.fragment.idx);
    } else {
      AppearsByArrival(frames, s, before);
      var i :| Arrives(before, s, i);
      ArrivesLast(run, s, i);
    }
  }

  lemma LastOneCompletes(frames: map<nat, Partial>, messages: map<nat, Message>, a: Arrival, s: nat)
    requires Sealed(messages) && Agrees(frames, messages) && BufferInv(frames) && FromSealed(a.fragment, messages)
    requires s in messages
    requires forall i: nat | i < FragmentCount(messages[s]) ::
               Held(frames, s, i) || (a.fragment.seqNum == s && a.fragment.idx == i)
    ensures var out := Insert(frames, a.fragment, a.wireLen).out;
            out.Some? && Exact(out.value, messages[s])
  {
    if s in frames {
      var e := frames[s];
      FullIffAllHeld(e, messages[s]);
      assert StrictlyIncomplete(e);
      var missing: nat :| missing < FragmentCount(messages[s]) && missing !in e.pieces;
      assert Held(frames, s, missing) || a.fragment.seqNum == s;
    } else {
      assert Held(frames, s, 0) || a.fragment.seqNum == s;
    }
    InsertSealed(frames, messages, a.fragment, a.wireLen);
  }

  /** Once every index has arrived for a frame that was never lost, the last arrival yields the message. */
  lemma ReassemblyIsComplete(frames: map<nat, Partial>, messages: map<nat, Message>, s: nat, run: seq<Arrival>)
    requires Sealed(messages) && Agrees(frames, messages) && BufferInv(frames) && AllSealed(run, messages)
    requires run != [] && s in messages && NeverLost(frames, s, run)
    requires forall i: nat | i < FragmentCount(messages[s]) :: Held(frames, s, i) || Arrives(run, s, i)
    ensures Output(frames, run).Some? && Exact(Output(frames, run).value, messages[s])
  {
    var before, a := run[..|run| - 1], run[|run| - 1];
    NeverLostPrefix(frames, s, run);
    var now := Deliver(frames, before);
    DeliverSealed(frames, messages, before);
    DeliverKeepsBufferInv(frames, before);
    forall i: nat | i < FragmentCount(messages[s])
      ensures Held(now, s, i) || (a.fragment.seqNum == s && a.fragment.idx == i)
    {
      Collects(frames, messages, s, before, i);
      ArrivesLast(run, s, i);
    }
    LastOneCompletes(now, messages, a, s);
  }

  // ----- completeness from what arrives -----

  /** The numbers of the multi-fragment frames some fragment of which arrives. */
  function ArrivingFrames(run: seq<Arrival>): (numbers: set<nat>) {
    set a | a in run && a.fragment.total > 1 :: a.fragment.seqNum
  }

  function NumbersAbove(numbers: set<nat>, s: nat): (above: set<nat>) {
    set k | k in numbers && k > s
  }

  /** At most 31 newer frames are buffered or arrive; whatever is older does not count. */
  predicate RoomFor(frames: map<nat, Partial>, s: nat, run: seq<Arrival>) {
    |NumbersAbove(frames.Keys + ArrivingFrames(run), s)| < MAX_FRAMES
  }

  /** Some fragment of frame `s` is neither buffered at the start nor arrives. */
  ghost predicate Outstanding(frames: map<nat, Partial>, run: seq<Arrival>, s: nat, n: nat) {
    exists i: nat :: i < n && !Held(frames, s, i) && !Arrives(run, s, i)
  }

  /** Neither frame `s` nor any newer multi-fragment frame gets all its fragments. */
  ghost predicate NoneCompletes(frames: map<nat, Partial>, messages: map<nat, Message>, s: nat, run: seq<Arrival>) {
    forall k | k in messages && k >= s && FragmentCount(messages[k]) >= 2 ::
      Outstanding(frames, run, k, FragmentCount(messages[k]))
  }

  lemma InsertHolds(frames: map<nat, Partial>, p: Fragment, wireLen: nat, s: nat, i: nat)
    requires Held(Insert(frames, p, wireLen).frames, s, i)
    ensures Held(frames, s, i) || (p.seqNum == s && p.idx == i)
  {
  }

  /** The buffer holds nothing that was not there at the start and did not arrive. */
  lemma {:induction false} HeldArrived(frames: map<nat, Partial>, run: seq<Arrival>, s: nat, i: nat)
    requires Held(Deliver(frames, run), s, i)
    ensures Held(frames, s, i) || Arrives(run, s, i)
    decreases |run|
  {
    if run != [] {
      hide Held, Insert, Arrives;
      var before, a := run[..|run| - 1], run[|run| - 1];
      ArrivesLast(run, s, i);
      InsertHolds(Deliver(frames, before), a.fragment, a.wireLen, s, i);
      if Held(Deliver(frames, before), s, i) {
        HeldArrived(frames, before, s, i);
      }
    }
  }

  lemma ArrivingLast(run: seq<Arrival>)
    requires run != []
    ensures var a := run[|run| - 1].fragment;
            ArrivingFrames(run) == ArrivingFrames(run[..|run| - 1]) + if a.total > 1 then {a.seqNum} else {}
  {
    assert run == run[..|run| - 1] + [run[|run| - 1]];
  }

  lemma AboveSubset(a: set<nat>, b: set<nat>, s: nat)
    requires a <= b
    ensures |NumbersAbove(a, s)| <= |NumbersAbove(b, s)|
  {
    SubsetSize(NumbersAbove(a, s), NumbersAbove(b, s));
  }

  /** The conditions on a run hold of what arrived before its last fragment. */
  lemma ConditionsBefore(frames: map<nat, Partial>, messages: map<nat, Message>, s: nat, run: seq<Arrival>)
    requires run != [] && RoomFor(frames, s, run) && NoneCompletes(frames, messages, s, run)
    ensures var before := run[..|run| - 1]; RoomFor(frames, s, before) && NoneCompletes(frames, messages, s, before)
  {
    hide Held, Arrives, FragmentCount;
    var before := run[..|run| - 1];
    ArrivingLast(run);
    AboveSubset(frames.Keys + ArrivingFrames(before), frames.Keys + ArrivingFrames(run), s);
    forall k | k in messages && k >= s && FragmentCount(messages[k]) >= 2
      ensures Outstanding(frames, before, k, FragmentCount(messages[k]))
    {
      var i: nat :| i < FragmentCount(messages[k]) && !Held(frames, k, i) && !Arrives(run, k, i);
      ArrivesLast(run, k, i);
    }
  }

  /** A frame with a fragment outstanding is not completed by the last arrival. */
  lemma OutstandingStays(frames: map<nat, Partial>, run: seq<Arrival>, n: nat)
    requires run != [] && Outstanding(frames, run, run[|run| - 1].fragment.seqNum, n)
    ensures var a := run[|run| - 1].fragment;
            !OthersHeld(Deliver(frames, run[..|run| - 1]), a.seqNum, n, a.idx)
  {
    hide Held, Arrives, Deliver;
    var before, a := run[..|run| - 1], run[|run| - 1].fragment;
    var i: nat :| i < n && !Held(frames, a.seqNum, i) && !Arrives(run, a.seqNum, i);
    ArrivesLast(run, a.seqNum, i);
    if Held(Deliver(frames, before), a.seqNum, i) {
      HeldArrived(frames, before, a.seqNum, i);
    }
    NotOthersHeld(Deliver(frames, before), a.seqNum, n, a.idx, i);
  }

  lemma NotOthersHeld(frames: map<nat, Partial>, s: nat, n: nat, idx: nat, i: nat)
    requires i < n && i != idx && !Held(frames, s, i)
    ensures !OthersHeld(frames, s, n, idx)
  {
  }

  /** The numbers buffered are among those at the start and those arriving, and frame `s` stays once it is in. */
  ghost predicate KeptIn(frames: map<nat, Partial>, s: nat, run: seq<Arrival>) {
    Deliver(frames, run).Keys <= frames.Keys + ArrivingFrames(run) && StillBuffered(frames, s, run)
  }

  /** One arrival adds at most its own number and does not lose frame `s`. */
  predicate StaysIn(now: map<nat, Partial>, next: map<nat, Partial>, s: nat, p: Fragment) {
    && next.Keys <= now.Keys + (if p.total > 1 then {p.seqNum} else {})
    && (s in now || p.seqNum == s ==> s in next)
  }

  /** With at most 31 newer frames, frame `s` is not the oldest of an overfull buffer. */
  lemma NotTheOldest(all: set<nat>, s: nat, oldest: nat)
    requires s in all && |NumbersAbove(all, s)| < MAX_FRAMES < |all| && IsMin(all, oldest)
    ensures s != oldest
  {
    AllAboveOldest(all, oldest);
  }

  lemma AllAboveOldest(all: set<nat>, oldest: nat)
    requires IsMin(all, oldest)
    ensures |all| == 1 + |NumbersAbove(all, oldest)|
  {
    assert all == {oldest} + NumbersAbove(all, oldest);
  }

  /** Eviction leaves frame `s` in. */
  lemma EvictedStays(now: map<nat, Partial>, e: Partial, n: nat, s: nat)
    requires |NumbersAbove(now.Keys + {n}, s)| < MAX_FRAMES
    ensures Evicted(now[n := e]).Keys <= now.Keys + {n}
    ensures s in now || n == s ==> s in Evicted(now[n := e])
  {
    hide NumbersAbove;
    var all := now.Keys + {n};
    assert now[n := e].Keys == all;
    if s in all && |all| > MAX_FRAMES {
      NotTheOldest(all, s, MinKey(all));
    }
  }

  lemma InsertStays(now: map<nat, Partial>, messages: map<nat, Message>, p: Fragment, wireLen: nat, s: nat)
    requires FromSealed(p, messages) && s in messages && FragmentCount(messages[s]) >= 2
    requires p.total > 1 && Insert(now, p, wireLen).out.Some? ==> p.seqNum < s
    requires p.total > 1 ==> |NumbersAbove(now.Keys + {p.seqNum}, s)| < MAX_FRAMES
    ensures StaysIn(now, Insert(now, p, wireLen).frames, s, p)
  {
    hide FragmentCount, Piece, Store, NumbersAbove, Evicted;
    if p.total > 1 {
      EvictedStays(now, Store(now, p, wireLen), p.seqNum, s);
    }
  }

  lemma KeptNext(frames: map<nat, Partial>, s: nat, run: seq<Arrival>)
    requires run != [] && KeptIn(frames, s, run[..|run| - 1])
    requires StaysIn(Deliver(frames, run[..|run| - 1]), Deliver(frames, run), s, run[|run| - 1].fragment)
    ensures KeptIn(frames, s, run)
  {
    hide Deliver, Arrives;
    var before, p := run[..|run| - 1], run[|run| - 1].fragment;
    ArrivingLast(run);
    forall i: nat ensures Arrives(run, s, i) <==> Arrives(before, s, i) || (p.seqNum == s && p.idx == i) {
      ArrivesLast(run, s, i);
    }
  }

  lemma KeepNext(frames: map<nat, Partial>, messages: map<nat, Message>, s: nat, run: seq<Arrival>)
    requires Sealed(messages) && s in messages && FragmentCount(messages[s]) >= 2 && run != []
    requires FromSealed(run[|run| - 1].fragment, messages) && Agrees(Deliver(frames, run[..|run| - 1]), messages)
    requires RoomFor(frames, s, run) && NoneCompletes(frames, messages, s, run) && KeptIn(frames, s, run[..|run| - 1])
    ensures KeptIn(frames, s, run)
  {
    hide OthersHeld, Agrees, Sealed, Insert, NoneCompletes, StillBuffered, FragmentCount, Piece, ArrivingFrames;
    var before, a := run[..|run| - 1], run[|run| - 1];
    var now, p := Deliver(frames, before), a.fragment;
    ArrivingLast(run);
    InsertSealed(now, messages, p, a.wireLen);
    if p.total > 1 {
      AboveSubset(now.Keys + {p.seqNum}, frames.Keys + ArrivingFrames(run), s);
      if Insert(now, p, a.wireLen).out.Some? {
        CompletedIsOlder(frames, messages, s, run);
      }
    }
    InsertStays(now, messages, p, a.wireLen, s);
    KeptNext(frames, s, run);
  }

  lemma CompletedIsOlder(frames: map<nat, Partial>, messages: map<nat, Message>, s: nat, run: seq<Arrival>)
    requires run != [] && FromSealed(run[|run| - 1].fragment, messages) && run[|run| - 1].fragment.total > 1
    requires NoneCompletes(frames, messages, s, run)
    requires var p := run[|run| - 1].fragment;
             OthersHeld(Deliver(frames, run[..|run| - 1]), p.seqNum, FragmentCount(messages[p.seqNum]), p.idx)
    ensures run[|run| - 1].fragment.seqNum < s
  {
    hide OthersHeld, Outstanding, Deliver;
    var p := run[|run| - 1].fragment;
    if p.seqNum >= s {
      OutstandingStays(frames, run, FragmentCount(messages[p.seqNum]));
    }
  }

  lemma {:induction false} ArrivalsKeep(frames: map<nat, Partial>, messages: map<nat, Message>, s: nat,
                                        run: seq<Arrival>)
    requires Sealed(messages) && Agrees(frames, messages) && AllSealed(run, messages)
    requires s in messages && FragmentCount(messages[s]) >= 2
    requires RoomFor(frames, s, run) && NoneCompletes(frames, messages, s, run)
    ensures KeptIn(frames, s, run)
    decreases |run|
  {
    if run == [] {
    } else {
      hide KeptIn, Agrees, Sealed, RoomFor, NoneCompletes, FragmentCount, FromSealed, Deliver;
      var before := run[..|run| - 1];
      SealedPrefix(run, messages, |run| - 1);
      ConditionsBefore(frames, messages, s, run);
      ArrivalsKeep(frames, messages, s, before);
      DeliverSealed(frames, messages, before);
      assert run[|run| - 1] in run;
      KeepNext(frames, messages, s, run);
    }
  }

  lemma {:induction false} ArrivalsKeepAll(frames: map<nat, Partial>, messages: map<nat, Message>, s: nat,
                                           run: seq<Arrival>, j: nat)
    requires Sealed(messages) && Agrees(frames, messages) && AllSealed(run, messages) && j <= |run|
    requires s in messages && FragmentCount(messages[s]) >= 2
    requires RoomFor(frames, s, run) && NoneCompletes(frames, messages, s, run)
    ensures StillBuffered(frames, s, run[..j])
    decreases |run|
  {
    hide StillBuffered, Agrees, Sealed, RoomFor, NoneCompletes, FragmentCount, FromSealed, Deliver;
    if j == |run| {
      assert run[..j] == run;
      ArrivalsKeep(frames, messages, s, run);
      KeptStill(frames, s, run);
    } else {
      ConditionsBefore(frames, messages, s, run);
      SealedPrefix(run, messages, |run| - 1);
      assert run[..|run| - 1][..j] == run[..j];
      ArrivalsKeepAll(frames, messages, s, run[..|run| - 1], j);
    }
  }

  lemma KeptStill(frames: map<nat, Partial>, s: nat, run: seq<Arrival>)
    requires KeptIn(frames, s, run)
    ensures StillBuffered(frames, s, run)
  {
  }

  /**
   * Completeness in terms of what arrives: while at most 31 newer frames are buffered or arrive, however
   * many older ones do, and neither this frame nor a newer one of several fragments had all its
   * fragments before, the arrival that brings the last missing index returns the original.
   */
  lemma LastMissingIndexCompletes(frames: map<nat, Partial>, messages: map<nat, Message>, s: nat, run: seq<Arrival>)
    requires Sealed(messages) && Agrees(frames, messages) && BufferInv(frames) && AllSealed(run, messages)
    requires run != [] && s in messages && FragmentCount(messages[s]) >= 2
    requires RoomFor(frames, s, run[..|run| - 1]) && NoneCompletes(frames, messages, s, run[..|run| - 1])
    requires forall i: nat | i < FragmentCount(messages[s]) :: Held(frames, s, i) || Arrives(run, s, i)
    ensures Output(frames, run).Some? && Exact(Output(frames, run).value, messages[s])
  {
    hide StillBuffered, Agrees, Sealed, RoomFor, NoneCompletes, BufferInv, Output, Exact, Held, Arrives;
    var before := run[..|run| - 1];
    SealedPrefix(run, messages, |run| - 1);
    forall j | 0 <= j < |run| ensures StillBuffered(frames, s, run[..j]) {
      ArrivalsKeepAll(frames, messages, s, before, j);
      assert before[..j] == run[..j];
    }
    ReassemblyIsComplete(frames, messages, s, run);
  }

  // ----- selective resend -----

  /** The run carries these fragments, in this order. */
  predicate Brings(run: seq<Arrival>, ps: seq<Fragment>) {
    |run| == |ps| && forall i | 0 <= i < |run| :: run[i].fragment == ps[i]
  }

  /** `sent` lists, in index order and once each, the fragments of `m` below `n` that are not among `keys`. */
  ghost predicate ListsMissing(sent: seq<Fragment>, m: Message, keys: set<nat>, n: nat)
    requires n <= FragmentCount(m)
  {
    && (forall i, j | 0 <= i < j < |sent| :: sent[i].idx < sent[j].idx)
    && (forall p | p in sent :: IsFragment(p, m) && p.idx < n && p.idx !in keys)
    && (forall i: nat | i < n && i !in keys :: FragmentAt(m, i) in sent)
  }

  lemma ListNextMissing(sent: seq<Fragment>, m: Message, keys: set<nat>, n: nat)
    requires n < FragmentCount(m) <= MAX_FRAGMENTS && ListsMissing(sent, m, keys, n)
    ensures ListsMissing(if n in keys then sent else sent + [FragmentAt(m, n)], m, keys, n + 1)
  {
    AtIndex(m, n);
  }

  lemma NoneMissing(m: Message, keys: set<nat>)
    ensures ListsMissing([], m, keys, 0)
  {
  }

  lemma UnreceivedNext(m: Message, keys: set<nat>, mask: seq<bv64>, n: nat)
    requires Encodes(mask, FragmentCount(m), keys) && n < FragmentCount(m)
    ensures var before := Unreceived(Fragments(m), mask, n);
            Unreceived(Fragments(m), mask, n + 1) == if n in keys then before else before + [FragmentAt(m, n)]
  {
    assert TestBit(mask, n) <==> n in keys;
  }

  /** Encoding what is held and decoding what is missing: exactly the complement, in index order. */
  lemma {:induction false} ResendIsExact(m: Message, keys: set<nat>, mask: seq<bv64>, n: nat)
    requires FragmentCount(m) <= MAX_FRAGMENTS && Encodes(mask, FragmentCount(m), keys) && n <= FragmentCount(m)
    ensures ListsMissing(Unreceived(Fragments(m), mask, n), m, keys, n)
    decreases n
  {
    hide FragmentAt, ListsMissing, TestBit;
    if n == 0 {
      NoneMissing(m, keys);
    } else {
      var before := Unreceived(Fragments(m), mask, n - 1);
      ResendIsExact(m, keys, mask, n - 1);
      ListNextMissing(before, m, keys, n - 1);
      UnreceivedNext(m, keys, mask, n - 1);
      assert Unreceived(Fragments(m), mask, n) == if n - 1 in keys then before else before + [FragmentAt(m, n - 1)];
    }
  }

  /** The run's fragments are all of frame `s`, each missing so far and none twice. */
  ghost predicate FillsIn(frames: map<nat, Partial>, messages: map<nat, Message>, s: nat, run: seq<Arrival>) {
    && (s in frames || |frames| < MAX_FRAMES) && AllSealed(run, messages)
    && (forall i | 0 <= i < |run| :: run[i].fragment.seqNum == s && !Held(frames, s, run[i].fragment.idx))
    && (forall i, j | 0 <= i < j < |run| :: run[i].fragment.idx < run[j].fragment.idx)
  }

  /** After the first `j` fragments nothing is evicted, and the frame holds exactly what arrived. */
  ghost predicate Filling(frames: map<nat, Partial>, s: nat, run: seq<Arrival>, j: nat)
    requires j <= |run|
  {
    && Deliver(frames, run[..j]).Keys == frames.Keys + (if j == 0 then {} else {s})
    && HoldsAfter(frames, s, run[..j])
  }

  /** Filling in a frame, short of its last fragment, evicts nothing. */
  lemma {:induction false} FillingInKeepsIt(frames: map<nat, Partial>, messages: map<nat, Message>, s: nat,
                                            run: seq<Arrival>, j: nat)
    requires Sealed(messages) && Agrees(frames, messages) && BufferInv(frames)
    requires FillsIn(frames, messages, s, run) && j < |run|
    ensures Filling(frames, s, run, j)
    decreases j
  {
    hide Filling, Deliver, Sealed, Agrees, FillsIn, BufferInv, StrictlyIncomplete;
    if j == 0 {
      FillingNothing(frames, s, run);
    } else {
      FillingInKeepsIt(frames, messages, s, run, j - 1);
      PrefixAgrees(frames, messages, s, run, j - 1);
      FillOne(frames, messages, s, run, j);
    }
  }

  lemma FillingNothing(frames: map<nat, Partial>, s: nat, run: seq<Arrival>)
    ensures Filling(frames, s, run, 0)
  {
    NothingArrived(frames, s, run[..0]);
  }

  lemma PrefixAgrees(frames: map<nat, Partial>, messages: map<nat, Message>, s: nat, run: seq<Arrival>, j: nat)
    requires Sealed(messages) && Agrees(frames, messages) && BufferInv(frames) && FillsIn(frames, messages, s, run)
             && j < |run|
    ensures Agrees(Deliver(frames, run[..j]), messages) && s in messages && |frames| <= MAX_FRAMES
  {
    hide Deliver, Sealed, Agrees, StrictlyIncomplete;
    assert run[j] in run;
    DeliverSealed(frames, messages, run[..j]);
  }

  lemma NothingArrived(frames: map<nat, Partial>, s: nat, run: seq<Arrival>)
    requires run == []
    ensures HoldsAfter(frames, s, run)
  {
  }

  lemma FillOne(frames: map<nat, Partial>, messages: map<nat, Message>, s: nat, run: seq<Arrival>, j: nat)
    requires Sealed(messages) && s in messages && |frames| <= MAX_FRAMES
    requires FillsIn(frames, messages, s, run) && 0 < j < |run|
    requires Agrees(Deliver(frames, run[..j - 1]), messages) && Filling(frames, s, run, j - 1)
    ensures Filling(frames, s, run, j)
  {
    hide Insert, OthersHeld, Held, Arrives, HoldsAfter, Agrees, Sealed, FromSealed;
    var now, a := Deliver(frames, run[..j - 1]), run[j - 1];
    assert run[..j][..j - 1] == run[..j - 1];
    assert a in run;
    StillMissing(frames, messages, s, run, j);
    InsertSealed(now, messages, a.fragment, a.wireLen);
    assert now.Keys + {s} == frames.Keys + {s};
    assert s in frames ==> frames.Keys + {s} == frames.Keys;
    PartialInsertKeeps(now, a.fragment, a.wireLen);
    HoldsOneMore(frames, messages, s, run[..j]);
  }

  /** After the run the buffer holds of frame `s` exactly what it held plus what arrived. */
  ghost predicate HoldsAfter(frames: map<nat, Partial>, s: nat, run: seq<Arrival>) {
    forall i: nat :: Held(Deliver(frames, run), s, i) <==> Held(frames, s, i) || Arrives(run, s, i)
  }

  lemma HoldsOneMore(frames: map<nat, Partial>, messages: map<nat, Message>, s: nat, run: seq<Arrival>)
    requires Sealed(messages) && run != [] && FromSealed(run[|run| - 1].fragment, messages)
    requires Agrees(Deliver(frames, run[..|run| - 1]), messages)
    requires s in Deliver(frames, run) && HoldsAfter(frames, s, run[..|run| - 1])
    ensures HoldsAfter(frames, s, run)
  {
    var before, a := Deliver(frames, run[..|run| - 1]), run[|run| - 1];
    forall i: nat ensures Held(Deliver(frames, run), s, i) <==> Held(frames, s, i) || Arrives(run, s, i) {
      InsertCollects(before, messages, a.fragment, a.wireLen, s, i);
      ArrivesLast(run, s, i);
    }
  }

  /** The run's `j`-th fragment is still missing when the one before it arrives. */
  lemma StillMissing(frames: map<nat, Partial>, messages: map<nat, Message>, s: nat, run: seq<Arrival>, j: nat)
    requires s in messages && FillsIn(frames, messages, s, run) && 0 < j < |run|
    requires HoldsAfter(frames, s, run[..j - 1])
    ensures !OthersHeld(Deliver(frames, run[..j - 1]), s, FragmentCount(messages[s]), run[j - 1].fragment.idx)
  {
    var p := run[j].fragment;
    assert run[j] in run && p.seqNum == s;
    assert !Arrives(run[..j - 1], s, p.idx);
    assert !Held(Deliver(frames, run[..j - 1]), s, p.idx);
  }

  lemma PartialInsertKeeps(frames: map<nat, Partial>, p: Fragment, wireLen: nat)
    requires |frames.Keys + {p.seqNum}| <= MAX_FRAMES && Insert(frames, p, wireLen).out.None?
    ensures Insert(frames, p, wireLen).frames.Keys == frames.Keys + {p.seqNum}
  {
    assert frames[p.seqNum := Store(frames, p, wireLen)].Keys == frames.Keys + {p.seqNum};
  }

  /** Filling in everything that is missing completes the frame with its last fragment. */
  lemma FillingInCompletes(frames: map<nat, Partial>, messages: map<nat, Message>, s: nat, run: seq<Arrival>)
    requires Sealed(messages) && Agrees(frames, messages) && BufferInv(frames)
    requires FillsIn(frames, messages, s, run) && s in messages
    requires forall i: nat | i < FragmentCount(messages[s]) :: Held(frames, s, i) || Arrives(run, s, i)
    ensures run != [] && Output(frames, run).Some? && Exact(Output(frames, run).value, messages[s])
  {
    if s in frames {
      FullIffAllHeld(frames[s], messages[s]);
      assert StrictlyIncomplete(frames[s]);
      var missing: nat :| missing < FragmentCount(messages[s]) && missing !in frames[s].pieces;
      assert Arrives(run, s, missing);
    } else {
      assert Held(frames, s, 0) || Arrives(run, s, 0);
    }
    forall j | 0 <= j < |run| ensures StillBuffered(frames, s, run[..j]) {
      FillingInKeepsIt(frames, messages, s, run, j);
    }
    ReassemblyIsComplete(frames, messages, s, run);
  }

  lemma RunFillsIn(frames: map<nat, Partial>, messages: map<nat, Message>, s: nat, sent: seq<Fragment>,
                   run: seq<Arrival>)
    requires Sealed(messages) && Agrees(frames, messages) && s in frames && Brings(run, sent)
    requires ListsMissing(sent, messages[s], frames[s].pieces.Keys, FragmentCount(messages[s]))
    ensures FillsIn(frames, messages, s, run)
  {
    forall i | 0 <= i < |run|
      ensures IsFragment(run[i].fragment, messages[s]) && !Held(frames, s, run[i].fragment.idx)
    {
      assert sent[i] in sent;
    }
  }

  lemma MissingArrives(m: Message, keys: set<nat>, sent: seq<Fragment>, run: seq<Arrival>, i: nat)
    requires FragmentCount(m) <= MAX_FRAGMENTS && Brings(run, sent) && ListsMissing(sent, m, keys, FragmentCount(m))
    requires i < FragmentCount(m) && i !in keys
    ensures Arrives(run, m.seqNum, i)
  {
    AtIndex(m, i);
    var p := FragmentAt(m, i);
    assert p in sent;
    var j :| 0 <= j < |sent| && sent[j] == p;
    assert run[j] in run;
  }

  /** Before the last of them nothing is handed out. */
  lemma FillingInIsQuiet(frames: map<nat, Partial>, messages: map<nat, Message>, s: nat, run: seq<Arrival>, j: nat)
    requires Sealed(messages) && Agrees(frames, messages) && BufferInv(frames)
    requires FillsIn(frames, messages, s, run) && 0 < j < |run|
    ensures Output(frames, run[..j]).None?
  {
    hide Filling, Deliver, Sealed, Agrees, BufferInv, StrictlyIncomplete, HoldsAfter, OthersHeld, Held, FromSealed,
         Insert;
    FillingInKeepsIt(frames, messages, s, run, j - 1);
    PrefixAgrees(frames, messages, s, run, j - 1);
    FillingHolds(frames, s, run, j - 1);
    StillMissing(frames, messages, s, run, j);
    var a := run[j - 1];
    assert a in run;
    assert run[..j][..j - 1] == run[..j - 1];
    InsertSealed(Deliver(frames, run[..j - 1]), messages, a.fragment, a.wireLen);
  }

  lemma FillingHolds(frames: map<nat, Partial>, s: nat, run: seq<Arrival>, j: nat)
    requires j <= |run| && Filling(frames, s, run, j)
    ensures HoldsAfter(frames, s, run[..j])
  {
  }

  /** The fragments resent for the mask are all missing, and each comes once. */
  lemma ResentFillsIn(frames: map<nat, Partial>, messages: map<nat, Message>, s: nat, mask: seq<bv64>,
                      run: seq<Arrival>)
    requires Sealed(messages) && Agrees(frames, messages) && s in frames
    requires Encodes(mask, frames[s].total, frames[s].pieces.Keys)
    requires Brings(run, Unreceived(Fragments(messages[s]), mask, FragmentCount(messages[s])))
    ensures FillsIn(frames, messages, s, run)
  {
    hide BufferInv;
    var m := messages[s];
    var sent := Unreceived(Fragments(m), mask, FragmentCount(m));
    ResendIsExact(m, frames[s].pieces.Keys, mask, FragmentCount(m));
    RunFillsIn(frames, messages, s, sent, run);
  }

  /** Whatever a still-buffered frame lacks, the fragments resent for its mask complete it. */
  lemma ResendCompletes(frames: map<nat, Partial>, messages: map<nat, Message>, s: nat, mask: seq<bv64>,
                        run: seq<Arrival>)
    requires Sealed(messages) && Agrees(frames, messages) && BufferInv(frames) && s in frames
    requires Encodes(mask, frames[s].total, frames[s].pieces.Keys)
    requires Brings(run, Unreceived(Fragments(messages[s]), mask, FragmentCount(messages[s])))
    ensures run != [] && Output(frames, run).Some? && Exact(Output(frames, run).value, messages[s])
  {
    var m, keys := messages[s], frames[s].pieces.Keys;
    var sent := Unreceived(Fragments(m), mask, FragmentCount(m));
    ResendIsExact(m, keys, mask, FragmentCount(m));
    RunFillsIn(frames, messages, s, sent, run);
    forall i: nat | i < FragmentCount(m) ensures Held(frames, s, i) || Arrives(run, s, i) {
      if i !in keys {
        MissingArrives(m, keys, sent, run, i);
      }
    }
    FillingInCompletes(frames, messages, s, run);
  }

  /** Everything the server sent is the fragments of a sealed message under its own number. */
  ghost predicate SentSealed(sent: seq<SentFrame>, messages: map<nat, Message>) {
    forall f | f in sent :: f.seqNum in messages && f.packets == Fragments(messages[f.seqNum])
  }

  /**
   * From the server's cache to the client's buffer: if the frame is among the newest four of several
   * fragments, what the cache resends for the mask completes it.
   */
  lemma CachedFrameCompletes(sent: seq<SentFrame>, frames: map<nat, Partial>, messages: map<nat, Message>, s: nat,
                             mask: seq<bv64>, i: nat, run: seq<Arrival>)
    requires Sealed(messages) && Agrees(frames, messages) && BufferInv(frames) && s in frames
    requires Encodes(mask, frames[s].total, frames[s].pieces.Keys)
    requires SentSealed(sent, messages) && IsFirst(NewestFour(MultiFragment(sent)), s, i)
    requires var packets := NewestFour(MultiFragment(sent))[i].packets;
             Brings(run, Unreceived(packets, mask, |packets|))
    ensures run != [] && Output(frames, run).Some? && Exact(Output(frames, run).value, messages[s])
  {
    hide Agrees, BufferInv, Encodes, Brings, Output, Exact, Unreceived, Sealed;
    var f := NewestFour(MultiFragment(sent))[i];
    assert f in MultiFragment(sent);
    assert f.packets == Fragments(messages[s]);
    ResendCompletes(frames, messages, s, mask, run);
  }

  // ----- how large a message can be -----

  ghost predicate SmallPieces(frames: map<nat, Partial>) {
    forall s, i | s in frames && i in frames[s].pieces :: |frames[s].pieces[i]| <= FRAGMENT_PAYLOAD_SIZE
  }

  lemma {:induction false} JoinIsSmall(pieces: map<nat, seq<byte>>, n: nat)
    requires forall i | i in pieces :: |pieces[i]| <= FRAGMENT_PAYLOAD_SIZE
    ensures |Join(pieces, n)| <= n * FRAGMENT_PAYLOAD_SIZE
    decreases n
  {
    if n > 0 {
      JoinIsSmall(pieces, n - 1);
    }
  }

  lemma InsertIsSmall(frames: map<nat, Partial>, p: Fragment, wireLen: nat)
    requires SmallPieces(frames) && |p.ciphertext| <= FRAGMENT_PAYLOAD_SIZE
    ensures SmallPieces(Insert(frames, p, wireLen).frames)
    ensures var out := Insert(frames, p, wireLen).out;
            out.Some? ==> |out.value.ciphertext| <= MAX_FRAGMENTS * FRAGMENT_PAYLOAD_SIZE
  {
    var e := Store(frames, p, wireLen);
    assert forall i | i in e.pieces :: |e.pieces[i]| <= FRAGMENT_PAYLOAD_SIZE;
    JoinIsSmall(e.pieces, e.total);
  }

  /** Some run of this message's own fragments makes the buffer hand the message back. */
  ghost predicate CanBeReassembled(m: Message) {
    exists run: seq<Arrival> :: ReassembledBy(m, run)
  }

  ghost predicate ReassembledBy(m: Message, run: seq<Arrival>) {
    && run != [] && (forall a | a in run :: a.fragment in Fragments(m))
    && Output(map[], run).Some? && Exact(Output(map[], run).value, m)
  }

  /** The u16 fragment count is the limit: exactly the messages of at most 65535 chunks can be received. */
  lemma ReassemblyLimit(m: Message)
    ensures CanBeReassembled(m) <==> |m.ciphertext| <= MAX_FRAGMENTS * FRAGMENT_PAYLOAD_SIZE
  {
    if |m.ciphertext| <= MAX_FRAGMENTS * FRAGMENT_PAYLOAD_SIZE {
      var run := ReassembledInOrder(m);
      assert ReassembledBy(m, run);
    } else if run: seq<Arrival> :| ReassembledBy(m, run) {
      var a := run[|run| - 1];
      FragmentsAreSmall(m, run);
      DeliverIsSmall(run[..|run| - 1]);
      InsertIsSmall(Deliver(map[], run[..|run| - 1]), a.fragment, a.wireLen);
    }
  }

  lemma FragmentsAreSmall(m: Message, run: seq<Arrival>)
    requires forall a | a in run :: a.fragment in Fragments(m)
    ensures forall a | a in run :: |a.fragment.ciphertext| <= FRAGMENT_PAYLOAD_SIZE
  {
  }

  lemma {:induction false} DeliverIsSmall(run: seq<Arrival>)
    requires forall a | a in run :: |a.fragment.ciphertext| <= FRAGMENT_PAYLOAD_SIZE
    ensures SmallPieces(Deliver(map[], run))
    decreases |run|
  {
    if run != [] {
      DeliverIsSmall(run[..|run| - 1]);
      var a := run[|run| - 1];
      InsertIsSmall(Deliver(map[], run[..|run| - 1]), a.fragment, a.wireLen);
    }
  }

  /** A small enough message is received when its fragments arrive once each, in order. */
  lemma ReassembledInOrder(m: Message) returns (run: seq<Arrival>)
    requires FragmentCount(m) <= MAX_FRAGMENTS
    ensures ReassembledBy(m, run)
  {
    run := seq(FragmentCount(m), i requires 0 <= i < FragmentCount(m) => Arrival(FragmentAt(m, i), 0));
    var messages := map[m.seqNum := m];
    forall i | 0 <= i < |run|
      ensures run[i].fragment.idx == i && FromSealed(run[i].fragment, messages) && run[i].fragment in Fragments(m)
    {
      AtIndex(m, i);
      assert Fragments(m)[i] == run[i].fragment;
    }
    forall i: nat | i < FragmentCount(m) ensures Arrives(run, m.seqNum, i) {
      assert run[i] in run;
    }
    FillingInCompletes(map[], messages, m.seqNum, run);
  }
}
