/**
 * Chunking, reassembly and selective resend of sealed server packets (src/protocol/codec.rs,
 * src/server/network.rs).
 */
module Fragmentation {
  import opened Base

  const FRAGMENT_PAYLOAD_SIZE := 1024
  const MAX_FRAMES := 32
  /** `total_frags` is a u16. */
  const MAX_FRAGMENTS := 0xFFFF

  /** A sealed server packet before it is cut up. */
  datatype Message = Message(seqNum: nat, ack: nat, ciphertext: seq<byte>)

  datatype Fragment = Fragment(seqNum: nat, ack: nat, idx: u16, total: u16, ciphertext: seq<byte>)

  // ----- chunking -----

  function ChunkCount(len: nat): (n: nat)
    ensures n * FRAGMENT_PAYLOAD_SIZE >= len
    ensures n > 0 ==> (n - 1) * FRAGMENT_PAYLOAD_SIZE < len
  {
    (len + FRAGMENT_PAYLOAD_SIZE - 1) / FRAGMENT_PAYLOAD_SIZE
  }

  function ChunkEnd(len: nat, i: nat): (r: nat) {
    if (i + 1) * FRAGMENT_PAYLOAD_SIZE <= len then (i + 1) * FRAGMENT_PAYLOAD_SIZE else len
  }

  function Chunk(ct: seq<byte>, i: nat): (c: seq<byte>)
    requires i < ChunkCount(|ct|)
    ensures |c| <= FRAGMENT_PAYLOAD_SIZE
  {
    ct[i * FRAGMENT_PAYLOAD_SIZE..ChunkEnd(|ct|, i)]
  }

  function FragmentCount(m: Message): (n: nat)
    ensures n >= 1 && (n == 1 <==> |m.ciphertext| <= FRAGMENT_PAYLOAD_SIZE)
    ensures n <= MAX_FRAGMENTS <==> |m.ciphertext| <= MAX_FRAGMENTS * FRAGMENT_PAYLOAD_SIZE
  {
    if |m.ciphertext| <= FRAGMENT_PAYLOAD_SIZE then 1 else ChunkCount(|m.ciphertext|)
  }

  function Piece(m: Message, i: nat): (r: seq<byte>)
    requires i < FragmentCount(m)
  {
    if |m.ciphertext| <= FRAGMENT_PAYLOAD_SIZE then m.ciphertext else Chunk(m.ciphertext, i)
  }

  /** The `i`-th fragment, with the index and the count cast to u16. */
  function FragmentAt(m: Message, i: nat): (r: Fragment)
    requires i < FragmentCount(m)
  {
    Fragment(m.seqNum, m.ack, i % 0x1_0000, FragmentCount(m) % 0x1_0000, Piece(m, i))
  }

  function Fragments(m: Message): (r: seq<Fragment>) {
    seq(FragmentCount(m), i requires 0 <= i < FragmentCount(m) => FragmentAt(m, i))
  }

  /** From the `idx`-th chunk's start on, the rest of the ciphertext begins with that chunk. */
  lemma NextChunk(m: Message, idx: nat)
    requires |m.ciphertext| > FRAGMENT_PAYLOAD_SIZE && idx * FRAGMENT_PAYLOAD_SIZE < |m.ciphertext|
    ensures idx < FragmentCount(m) == ChunkCount(|m.ciphertext|) && |Fragments(m)| == FragmentCount(m)
    ensures var rest := m.ciphertext[idx * FRAGMENT_PAYLOAD_SIZE..];
            var size := Min(FRAGMENT_PAYLOAD_SIZE, |rest|);
            && Fragments(m)[idx] == Fragment(m.seqNum, m.ack, idx % 0x1_0000, FragmentCount(m) % 0x1_0000, rest[..size])
            && rest[size..] == m.ciphertext[Min((idx + 1) * FRAGMENT_PAYLOAD_SIZE, |m.ciphertext|)..]
  {
    hide FragmentCount;
    assert FragmentCount(m) == ChunkCount(|m.ciphertext|) by { CountOfLong(m); }
    var rest := m.ciphertext[idx * FRAGMENT_PAYLOAD_SIZE..];
    assert rest[..Min(FRAGMENT_PAYLOAD_SIZE, |rest|)] == Chunk(m.ciphertext, idx);
    assert Piece(m, idx) == Chunk(m.ciphertext, idx);
  }

  lemma CountOfLong(m: Message)
    requires |m.ciphertext| > FRAGMENT_PAYLOAD_SIZE
    ensures FragmentCount(m) == ChunkCount(|m.ciphertext|)
  {
  }

  method SealServer(m: Message) returns (packets: seq<Fragment>)
    ensures packets == Fragments(m)
  {
    if |m.ciphertext| <= FRAGMENT_PAYLOAD_SIZE {
      return [Fragment(m.seqNum, m.ack, 0, 1, m.ciphertext)];
    }
    var total := ChunkCount(|m.ciphertext|);
    packets := [];
    var rest := m.ciphertext;
    while rest != []
      invariant |packets| <= total && rest == m.ciphertext[Min(|packets| * FRAGMENT_PAYLOAD_SIZE, |m.ciphertext|)..]
      invariant packets == Fragments(m)[..|packets|]
      decreases |rest|
    {
      var idx := |packets|;
      var size := Min(FRAGMENT_PAYLOAD_SIZE, |rest|);
      NextChunk(m, idx);
      packets := packets + [Fragment(m.seqNum, m.ack, idx % 0x1_0000, total % 0x1_0000, rest[..size])];
      rest := rest[size..];
    }
  }

  // ----- reassembly -----

  datatype Partial = Partial(total: u16, wireLen: nat, pieces: map<nat, seq<byte>>)

  datatype Assembled = Assembled(seqNum: nat, ack: nat, ciphertext: seq<byte>, wireLen: nat)

  datatype Inserted = Inserted(frames: map<nat, Partial>, out: Option<Assembled>)

  predicate IsMin(s: set<nat>, m: nat) {
    m in s && forall k | k in s :: m <= k
  }

  lemma MinExists(s: set<nat>)
    requires s != {}
    ensures exists m :: IsMin(s, m)
  {
    var x :| x in s;
    if s == {x} {
      assert IsMin(s, x);
    } else {
      MinExists(s - {x});
      var m :| IsMin(s - {x}, m);
      var least := if m <= x then m else x;
      assert forall k | k in s :: k == x || k in s - {x};
      assert IsMin(s, least);
    }
  }

  /** The first key of the ordered map. */
  function MinKey(s: set<nat>): (m: nat)
    requires s != {}
    ensures IsMin(s, m)
  {
    MinExists(s);
    var m :| IsMin(s, m);
    m
  }

  /** The pieces with index below `n`, in index order. */
  function Join(pieces: map<nat, seq<byte>>, n: nat): (r: seq<byte>) {
    if n == 0 then [] else Join(pieces, n - 1) + if n - 1 in pieces then pieces[n - 1] else []
  }

  /** The frame's entry once `p` is stored; the first fragment fixes the total. */
  function Store(frames: map<nat, Partial>, p: Fragment, wireLen: nat): (r: Partial) {
    var e := if p.seqNum in frames then frames[p.seqNum] else Partial(p.total, 0, map[]);
    Partial(e.total, e.wireLen + wireLen, e.pieces[p.idx := p.ciphertext])
  }

  /** The frames a completed `seqNum` does not supersede. */
  function Newer(frames: map<nat, Partial>, seqNum: nat): (r: map<nat, Partial>) {
    map k | k in frames && k > seqNum :: frames[k]
  }

  function AtLeast(frames: map<nat, Partial>, seqNum: nat): (r: map<nat, Partial>) {
    map k | k in frames && k >= seqNum :: frames[k]
  }

  /** Removing the completed frame and then everything older leaves what it does not supersede. */
  lemma RemoveThenPrune(frames: map<nat, Partial>, seqNum: nat, e: Partial)
    ensures AtLeast(frames[seqNum := e] - {seqNum}, seqNum) == Newer(frames, seqNum)
  {
  }

  /** An overfull map loses its oldest frame. */
  function Evicted(frames: map<nat, Partial>): (r: map<nat, Partial>) {
    if |frames| > MAX_FRAMES then frames - {MinKey(frames.Keys)} else frames
  }

  function Insert(frames: map<nat, Partial>, p: Fragment, wireLen: nat): (r: Inserted) {
    if p.total <= 1 then Inserted(frames, Some(Assembled(p.seqNum, p.ack, p.ciphertext, wireLen)))
    else
      var e := Store(frames, p, wireLen);
      if |e.pieces| == e.total then
        Inserted(Newer(frames, p.seqNum), Some(Assembled(p.seqNum, p.ack, Join(e.pieces, e.total), e.wireLen)))
      else
        Inserted(Evicted(frames[p.seqNum := e]), None)
  }

  class FragmentBuffer {
    var frames: map<nat, Partial>

    constructor ()
      ensures frames == map[]
    {
      frames := map[];
    }

    method InsertFragment(p: Fragment, wireLen: nat) returns (out: Option<Assembled>)
      modifies this
      ensures Inserted(frames, out) == Insert(old(frames), p, wireLen)
    {
      if p.total <= 1 {
        return Some(Assembled(p.seqNum, p.ack, p.ciphertext, wireLen));
      }
      var e := if p.seqNum in frames then frames[p.seqNum] else Partial(p.total, 0, map[]);
      e := e.(wireLen := e.wireLen + wireLen, pieces := e.pieces[p.idx := p.ciphertext]);
      assert e == Store(frames, p, wireLen);
      frames := frames[p.seqNum := e];
      if |e.pieces| == e.total {
        frames := frames - {p.seqNum};
        var full := JoinPieces(e.pieces, e.total);
        PruneBelow(p.seqNum);
        RemoveThenPrune(old(frames), p.seqNum, e);
        return Some(Assembled(p.seqNum, p.ack, full, e.wireLen));
      }
      EvictOverflow();
      return None;
    }

    method EvictOverflow()
      modifies this
      ensures frames == Evicted(old(frames))
    {
      if |frames| > MAX_FRAMES {
        frames := frames - {MinKey(frames.Keys)};
      }
    }

    static method JoinPieces(pieces: map<nat, seq<byte>>, total: nat) returns (full: seq<byte>)
      ensures full == Join(pieces, total)
    {
      full := [];
      for idx := 0 to total
        invariant full == Join(pieces, idx)
      {
        if idx in pieces {
          full := full + pieces[idx];
        }
      }
    }

    /** Drops the frames that a completed `seqNum` supersedes, oldest first. */
    method PruneBelow(seqNum: nat)
      modifies this
      ensures frames == AtLeast(old(frames), seqNum)
    {
      while frames.Keys != {} && MinKey(frames.Keys) < seqNum
        invariant forall k | k in frames :: k in old(frames) && frames[k] == old(frames)[k]
        invariant forall k | k in old(frames) && k >= seqNum :: k in frames
        decreases |frames|
      {
        frames := frames - {MinKey(frames.Keys)};
      }
    }

    /** Every incomplete frame, in sequence order, with the mask of the fragments it holds. */
    method GetIncompleteFrames() returns (report: seq<(nat, seq<bv64>)>)
      ensures Reports(report, frames)
    {
      report := [];
      var rest := frames.Keys;
      ghost var done: map<nat, Partial> := map[];
      while rest != {}
        invariant Visited(frames, rest, done)
        invariant Reports(report, done)
        decreases |rest|
      {
        var s := MinKey(rest);
        var e := frames[s];
        VisitNext(frames, rest, done, s);
        ghost var done' := done[s := e];
        ReportsSkip(report, done, s, e);
        if e.total != 0 && |e.pieces| < e.total {
          var mask := ReceivedMask(e);
          ReportsNext(report, done, s, e, mask);
          report := report + [(s, mask)];
        }
        rest, done := rest - {s}, done';
      }
      assert done == frames;
    }
  }

  // ----- the received mask -----

  predicate Incomplete(e: Partial) {
    |e.pieces| < e.total
  }

  /** 1 shifted left by `b`. */
  function Bit(b: nat): (r: bv64)
    requires b < 64
  {
    if b == 0 then 1 else Bit(b - 1) << 1
  }

  predicate Meets(x: bv64, y: bv64) {
    x & y != 0
  }

  function Or(x: bv64, y: bv64): (r: bv64) {
    x | y
  }

  predicate HasBit(word: bv64, b: nat)
    requires b < 64
  {
    Meets(word, Bit(b))
  }

  function SetBit(word: bv64, b: nat): (r: bv64)
    requires b < 64
  {
    Or(word, Bit(b))
  }

  predicate TestBit(mask: seq<bv64>, i: nat) {
    i / 64 < |mask| && HasBit(mask[i / 64], i % 64)
  }

  /** `mask` has one word per 64 fragments, and exactly the bits of `keys` set among them. */
  ghost predicate Encodes(mask: seq<bv64>, total: nat, keys: set<nat>) {
    && |mask| == (total + 63) / 64
    && (forall i: nat | i < 64 * |mask| :: TestBit(mask, i) <==> i in keys)
  }

  lemma NextBit(b: nat)
    requires b + 1 < 64
    ensures Bit(b + 1) == Bit(b) << 1
  {
  }

  function Shifted(x: bv64): (r: bv64) {
    x << 1
  }

  lemma NextIsShifted(b: nat)
    requires b + 1 < 64
    ensures Bit(b + 1) == Shifted(Bit(b))
  {
  }

  lemma FirstBit()
    ensures Bit(0) == 1
  {
  }

  lemma ShiftTwo(b: nat)
    requires b + 2 < 64
    ensures Bit(b + 2) == Bit(b) << 2
  {
    hide Bit;
    NextBit(b);
    NextBit(b + 1);
  }

  lemma ShiftEight(b: nat)
    requires b + 8 < 64
    ensures Bit(b + 8) == Bit(b) << 8
  {
    hide Bit;
    ShiftTwo(b);
    ShiftTwo(b + 2);
    ShiftTwo(b + 4);
    ShiftTwo(b + 6);
  }

  lemma TopBit()
    ensures Bit(63) == 0x8000_0000_0000_0000
  {
    assert Bit(0) == 1;
    hide Bit;
    ShiftEight(0);
    ShiftEight(8);
    ShiftEight(16);
    ShiftEight(24);
    ShiftEight(32);
    ShiftEight(40);
    ShiftEight(48);
    ShiftTwo(56);
    ShiftTwo(58);
    ShiftTwo(60);
    assert Bit(63) == Bit(62) << 1 by { NextBit(62); }
  }

  /** No bit is shifted out: the last one is still there. */
  lemma {:induction false} BitNotZero(b: nat)
    requires b < 64
    ensures Bit(b) != 0
    decreases 64 - b
  {
    hide Bit;
    if b == 63 {
      TopBit();
    } else {
      BitNotZero(b + 1);
      NextBit(b);
    }
  }

  lemma {:induction false} BitsApart(b: nat, c: nat)
    requires c < b < 64
    ensures !Meets(Bit(b), Bit(c)) && !Meets(Bit(c), Bit(b))
    decreases c
  {
    hide Bit, Meets, Shifted;
    NextIsShifted(b - 1);
    if c == 0 {
      FirstBit();
      ShiftedIsEven(Bit(b - 1));
    } else {
      NextIsShifted(c - 1);
      BitsApart(b - 1, c - 1);
      ShiftedApart(Bit(b - 1), Bit(c - 1));
    }
  }

  lemma ShiftedIsEven(x: bv64)
    ensures !Meets(Shifted(x), 1) && !Meets(1, Shifted(x))
  {
  }

  lemma ShiftedApart(x: bv64, y: bv64)
    requires !Meets(x, y)
    ensures !Meets(Shifted(x), Shifted(y)) && !Meets(Shifted(y), Shifted(x))
  {
  }

  lemma OrApart(word: bv64, x: bv64, y: bv64)
    requires !Meets(x, y)
    ensures Meets(Or(word, x), y) <==> Meets(word, y)
  {
    NothingCommon(x, y);
    hide Meets, Or;
    OrKeeps(word, x, y);
  }

  lemma NothingCommon(x: bv64, y: bv64)
    requires !Meets(x, y)
    ensures x & y == 0
  {
  }

  lemma OrKeeps(word: bv64, x: bv64, y: bv64)
    requires x & y == 0
    ensures Meets(Or(word, x), y) <==> Meets(word, y)
  {
  }

  lemma OrSame(word: bv64, x: bv64)
    requires x != 0
    ensures Meets(Or(word, x), x)
  {
  }

  lemma SetBitSetsOne(word: bv64, b: nat, c: nat)
    requires b < 64 && c < 64
    ensures HasBit(SetBit(word, b), c) <==> HasBit(word, c) || b == c
  {
    hide Bit, Meets, Or;
    if b == c {
      BitNotZero(b);
      OrSame(word, Bit(b));
    } else {
      BitsApart(if b > c then b else c, if b > c then c else b);
      OrApart(word, Bit(b), Bit(c));
    }
  }

  /** `idx` marked as received, unless the mask has no word for it. */
  function WithBit(mask: seq<bv64>, idx: nat): (r: seq<bv64>)
    ensures |r| == |mask|
  {
    if idx / 64 < |mask| then mask[idx / 64 := SetBit(mask[idx / 64], idx % 64)] else mask
  }

  lemma WithBitSetsOne(mask: seq<bv64>, idx: nat, i: nat)
    requires i / 64 < |mask|
    ensures TestBit(WithBit(mask, idx), i) <==> TestBit(mask, i) || i == idx
  {
    hide HasBit, SetBit;
    SameBit(idx, i);
    if idx / 64 == i / 64 {
      SetBitSetsOne(mask[idx / 64], idx % 64, i % 64);
    }
  }

  lemma SameBit(a: nat, b: nat)
    ensures a == b <==> a / 64 == b / 64 && a % 64 == b % 64
  {
  }

  lemma EncodeNext(mask: seq<bv64>, total: nat, keys: set<nat>, idx: nat)
    requires Encodes(mask, total, keys)
    ensures Encodes(WithBit(mask, idx), total, keys + {idx})
  {
    forall i: nat | i < 64 * |mask| ensures TestBit(WithBit(mask, idx), i) <==> i in keys + {idx} {
      WithBitSetsOne(mask, idx, i);
    }
  }

  method ReceivedMask(e: Partial) returns (mask: seq<bv64>)
    ensures Encodes(mask, e.total, e.pieces.Keys)
  {
    mask := seq((e.total as nat + 63) / 64, _ => 0);
    assert Encodes(mask, e.total, {});
    var todo := e.pieces.Keys;
    ghost var seen := {};
    while todo != {}
      invariant seen + todo == e.pieces.Keys
      invariant Encodes(mask, e.total, seen)
      decreases |todo|
    {
      var idx :| idx in todo;
      EncodeNext(mask, e.total, seen, idx);
      todo, seen := todo - {idx}, seen + {idx};
      mask := WithBit(mask, idx);
    }
    assert seen == e.pieces.Keys;
  }

  /** A report lists exactly the incomplete frames, by increasing sequence number. */
  ghost predicate Reports(report: seq<(nat, seq<bv64>)>, frames: map<nat, Partial>) {
    && (forall i, j | 0 <= i < j < |report| :: report[i].0 < report[j].0)
    && (forall r | r in report ::
          r.0 in frames && Incomplete(frames[r.0]) && Encodes(r.1, frames[r.0].total, frames[r.0].pieces.Keys))
    && (forall s | s in frames && Incomplete(frames[s]) :: exists r :: r in report && r.0 == s)
  }

  /** `done` is what an ordered walk over `frames` has seen when `rest` is still to come. */
  ghost predicate Visited(frames: map<nat, Partial>, rest: set<nat>, done: map<nat, Partial>) {
    && rest <= frames.Keys && done == frames - rest
    && (forall k, j | k in rest && j in done :: j < k)
  }

  lemma VisitNext(frames: map<nat, Partial>, rest: set<nat>, done: map<nat, Partial>, s: nat)
    requires Visited(frames, rest, done) && IsMin(rest, s)
    ensures Visited(frames, rest - {s}, done[s := frames[s]])
    ensures forall k | k in done :: k < s
  {
    var rest', done' := rest - {s}, done[s := frames[s]];
    forall k, j | k in rest' && j in done' ensures j < k {
      assert s <= k;
    }
  }

  lemma ReportsSkip(report: seq<(nat, seq<bv64>)>, frames: map<nat, Partial>, s: nat, e: Partial)
    requires Reports(report, frames) && (forall k | k in frames :: k < s)
    ensures !Incomplete(e) ==> Reports(report, frames[s := e])
  {
  }

  lemma ReportsNext(report: seq<(nat, seq<bv64>)>, frames: map<nat, Partial>, s: nat, e: Partial, mask: seq<bv64>)
    requires Reports(report, frames) && (forall k | k in frames :: k < s)
    requires Incomplete(e) && Encodes(mask, e.total, e.pieces.Keys)
    ensures Reports(report + [(s, mask)], frames[s := e])
  {
    hide Encodes;
    var report' := report + [(s, mask)];
    var frames' := frames[s := e];
    assert report'[|report|] == (s, mask);
    forall r | r in report'
      ensures r.0 in frames' && Incomplete(frames'[r.0])
              && Encodes(r.1, frames'[r.0].total, frames'[r.0].pieces.Keys)
    {
      if r != (s, mask) {
        assert r in report && r.0 != s;
      }
    }
    forall k | k in frames' && Incomplete(frames'[k]) ensures exists r :: r in report' && r.0 == k {
      if k == s {
        assert (s, mask) in report';
      } else {
        var r :| r in report && r.0 == k;
        assert r in report';
      }
    }
  }

  // ----- selective resend -----

  /** The fragments among the first `n` whose bit is not set; a bit beyond the mask counts as not set. */
  function Unreceived(packets: seq<Fragment>, mask: seq<bv64>, n: nat): (r: seq<Fragment>)
    requires n <= |packets|
  {
    if n == 0 then []
    else
      var before := Unreceived(packets, mask, n - 1);
      if TestBit(mask, n - 1) then before else before + [packets[n - 1]]
  }

  const CACHED_FRAMES := 4

  /** The fragments of one frame the server sent. */
  datatype SentFrame = SentFrame(seqNum: nat, packets: seq<Fragment>)

  /** The frames that took more than one fragment. */
  function MultiFragment(sent: seq<SentFrame>): (multi: seq<SentFrame>)
    ensures forall f | f in multi :: f in sent && |f.packets| > 1
  {
    if sent == [] then []
    else
      var before, last := MultiFragment(sent[..|sent| - 1]), sent[|sent| - 1];
      if |last.packets| > 1 then before + [last] else before
  }

  /** The last four, or all when there are fewer. */
  function NewestFour(frames: seq<SentFrame>): (newest: seq<SentFrame>)
    ensures |newest| == Min(|frames|, 4) && newest == frames[|frames| - |newest|..]
  {
    if |frames| > 4 then frames[|frames| - 4..] else frames
  }

  lemma MultiFragmentNext(sent: seq<SentFrame>, f: SentFrame)
    ensures MultiFragment(sent + [f]) == MultiFragment(sent) + if |f.packets| > 1 then [f] else []
  {
    assert (sent + [f])[..|sent|] == sent;
    assert MultiFragment(sent) + [] == MultiFragment(sent);
  }

  lemma DropAppended(frames: seq<SentFrame>, f: SentFrame, from: nat)
    requires from <= |frames|
    ensures (frames + [f])[from..] == frames[from..] + [f]
  {
  }

  lemma DropTwice(frames: seq<SentFrame>, from: nat)
    requires from < |frames|
    ensures frames[from..][1..] == frames[from + 1..]
  {
  }

  lemma NewestFourNext(frames: seq<SentFrame>, f: SentFrame)
    ensures var newest := NewestFour(frames);
            NewestFour(frames + [f]) == (if |newest| >= CACHED_FRAMES then newest[1..] else newest) + [f]
  {
    var n := |frames|;
    if n < CACHED_FRAMES {
      assert NewestFour(frames) == frames && NewestFour(frames + [f]) == frames + [f];
    } else {
      DropTwice(frames, n - CACHED_FRAMES);
      DropAppended(frames, f, n - CACHED_FRAMES + 1);
      assert NewestFour(frames) == frames[n - CACHED_FRAMES..];
      assert NewestFour(frames + [f]) == (frames + [f])[n - CACHED_FRAMES + 1..];
    }
  }

  /** The server's cache: of all frames sent so far, the newest four that took several fragments. */
  class FragmentCache {
    var frames: seq<SentFrame>
    ghost var sent: seq<SentFrame>

    ghost predicate Valid()
      reads this
    {
      frames == NewestFour(MultiFragment(sent))
    }

    constructor ()
      ensures Valid() && sent == []
    {
      frames, sent := [], [];
    }

    method Remember(seqNum: nat, packets: seq<Fragment>)
      requires Valid()
      modifies this
      ensures Valid() && sent == old(sent) + [SentFrame(seqNum, packets)]
    {
      hide MultiFragment, NewestFour;
      MultiFragmentNext(sent, SentFrame(seqNum, packets));
      NewestFourNext(MultiFragment(sent), SentFrame(seqNum, packets));
      assert MultiFragment(sent) + [] == MultiFragment(sent);
      if |packets| > 1 {
        if |frames| >= CACHED_FRAMES {
          frames := frames[1..];
        }
        frames := frames + [SentFrame(seqNum, packets)];
      }
      sent := sent + [SentFrame(seqNum, packets)];
    }

    /** Everything the mask does not mark as received, or nothing when the frame is no longer cached. */
    method ResendFragments(seqNum: nat, mask: seq<bv64>) returns (resent: seq<Fragment>)
      ensures forall i | IsFirst(frames, seqNum, i) ::
                resent == Unreceived(frames[i].packets, mask, |frames[i].packets|)
      ensures (forall f | f in frames :: f.seqNum != seqNum) ==> resent == []
    {
      hide HasBit;
      resent := [];
      for i := 0 to |frames|
        invariant resent == [] && forall j | 0 <= j < i :: frames[j].seqNum != seqNum
      {
        if frames[i].seqNum == seqNum {
          var packets := frames[i].packets;
          for idx := 0 to |packets|
            invariant resent == Unreceived(packets, mask, idx)
          {
            if !(idx / 64 < |mask| && HasBit(mask[idx / 64], idx % 64)) {
              resent := resent + [packets[idx]];
            }
          }
          return;
        }
      }
    }
  }

  /** The oldest cached frame with this number is at index `i`. */
  predicate IsFirst(frames: seq<SentFrame>, seqNum: nat, i: int) {
    0 <= i < |frames| && frames[i].seqNum == seqNum && forall j | 0 <= j < i :: frames[j].seqNum != seqNum
  }
}
