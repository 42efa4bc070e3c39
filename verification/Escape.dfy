/** The escape interpreter on the stdin stream (src/client/escape.rs). */
module EscapeFilter {
  import opened Base

  datatype EscapeCommand = Disconnect | Suspend | Help | ToggleOverlay

  datatype EscapeState = Normal(lastWasNewline: bool) | WaitingForCommand

  datatype InterpreterResult = SendBytes(bytes: seq<byte>) | Command(command: EscapeCommand) | Consume

  const TILDE: byte := 0x7e
  const DOT: byte := 0x2e
  const CTRL_Z: byte := 0x1a
  const QUESTION: byte := 0x3f
  const LOWER_O: byte := 0x6f

  /** The start of a session acts as a newline. */
  const START := Normal(true)

  predicate IsNewline(b: byte) {
    b == 0x0d || b == 0x0a
  }

  datatype Step = Step(state: EscapeState, result: InterpreterResult)

  function HandleByte(s: EscapeState, b: byte): (r: Step) {
    match s
    case Normal(lastWasNewline) =>
      if lastWasNewline && b == TILDE then Step(WaitingForCommand, Consume)
      else Step(Normal(IsNewline(b)), SendBytes([b]))
    case WaitingForCommand =>
      if b == DOT then Step(Normal(false), Command(Disconnect))
      else if b == CTRL_Z then Step(Normal(true), Command(Suspend))
      else if b == QUESTION then Step(Normal(false), Command(Help))
      else if b == LOWER_O then Step(Normal(false), Command(ToggleOverlay))
      else if b == TILDE then Step(Normal(false), SendBytes([TILDE]))
      else Step(Normal(IsNewline(b)), SendBytes([TILDE, b]))
  }

  class EscapeInterpreter {
    var state: EscapeState

    constructor ()
      ensures state == START
    {
      state := Normal(true);
    }

    method Handle(b: byte) returns (r: InterpreterResult)
      modifies this
      ensures Step(state, r) == HandleByte(old(state), b)
    {
      match state
      case Normal(lastWasNewline) =>
        if lastWasNewline && b == TILDE {
          state := WaitingForCommand;
          return Consume;
        }
        state := Normal(IsNewline(b));
        return SendBytes([b]);
      case WaitingForCommand =>
        if b == DOT {
          state := Normal(false);
          return Command(Disconnect);
        } else if b == CTRL_Z {
          state := Normal(true);
          return Command(Suspend);
        } else if b == QUESTION {
          state := Normal(false);
          return Command(Help);
        } else if b == LOWER_O {
          state := Normal(false);
          return Command(ToggleOverlay);
        } else if b == TILDE {
          state := Normal(false);
          return SendBytes([TILDE]);
        } else {
          state := Normal(IsNewline(b));
          return SendBytes([TILDE, b]);
        }
    }
  }

  // ----- whole streams -----

  /** What a stream leaves behind: interpreter state, bytes to send, commands run. A disconnect ends it. */
  datatype Filtered = Filtered(state: EscapeState, sent: seq<byte>, commands: seq<EscapeCommand>) {
    predicate Disconnected() {
      Disconnect in commands
    }
  }

  function AddStep(f: Filtered, b: byte): (r: Filtered) {
    if f.Disconnected() then f
    else
      var step := HandleByte(f.state, b);
      match step.result
      case SendBytes(bs) => Filtered(step.state, f.sent + bs, f.commands)
      case Command(c) => Filtered(step.state, f.sent, f.commands + [c])
      case Consume => Filtered(step.state, f.sent, f.commands)
  }

  function Filter(s: EscapeState, stream: seq<byte>): (r: Filtered) {
    if stream == [] then Filtered(s, [], [])
    else AddStep(Filter(s, stream[..|stream| - 1]), stream[|stream| - 1])
  }

  lemma FilterOne(s: EscapeState, stream: seq<byte>, b: byte)
    ensures Filter(s, stream + [b]) == AddStep(Filter(s, stream), b)
  {
    assert (stream + [b])[..|stream|] == stream;
  }

  /** First `a`, then `b` in the state `a` left. */
  function Then(a: Filtered, b: Filtered): (r: Filtered) {
    Filtered(b.state, a.sent + b.sent, a.commands + b.commands)
  }

  lemma StepAfterThen(left: Filtered, right: Filtered, b: byte)
    requires !left.Disconnected()
    ensures AddStep(Then(left, right), b) == Then(left, AddStep(right, b))
  {
    assert Then(left, right).Disconnected() <==> right.Disconnected();
  }

  lemma {:induction false} FilterAppend(s: EscapeState, a: seq<byte>, b: seq<byte>)
    requires !Filter(s, a).Disconnected()
    ensures Filter(s, a + b) == Then(Filter(s, a), Filter(Filter(s, a).state, b))
    decreases |b|
  {
    if b == [] {
      assert a + b == a;
    } else {
      var b' := b[..|b| - 1];
      FilterAppend(s, a, b');
      assert (a + b)[..|a + b| - 1] == a + b';
      var left, right := Filter(s, a), Filter(Filter(s, a).state, b');
      StepAfterThen(left, right, b[|b| - 1]);
      hide AddStep;
      assert (a + b)[|a + b| - 1] == b[|b| - 1];
    }
  }

  function Concat(chunks: seq<seq<byte>>): (r: seq<byte>) {
    if chunks == [] then [] else Concat(chunks[..|chunks| - 1]) + chunks[|chunks| - 1]
  }

  /** The interpreter fed chunk by chunk, its state carried over. */
  function FilterChunks(s: EscapeState, chunks: seq<seq<byte>>): (r: Filtered) {
    if chunks == [] then Filtered(s, [], [])
    else
      var f := FilterChunks(s, chunks[..|chunks| - 1]);
      if f.Disconnected() then f else Then(f, Filter(f.state, chunks[|chunks| - 1]))
  }

  /** The filtered stream does not depend on how stdin was cut into reads. */
  lemma {:induction false} ChunkingIsIrrelevant(s: EscapeState, chunks: seq<seq<byte>>)
    ensures FilterChunks(s, chunks) == Filter(s, Concat(chunks))
    decreases |chunks|
  {
    if chunks != [] {
      var before, last := chunks[..|chunks| - 1], chunks[|chunks| - 1];
      ChunkingIsIrrelevant(s, before);
      if FilterChunks(s, before).Disconnected() {
        NothingAfterDisconnect(s, Concat(before), last);
      } else {
        FilterAppend(s, Concat(before), last);
      }
    }
  }

  lemma {:induction false} NothingAfterDisconnect(s: EscapeState, a: seq<byte>, b: seq<byte>)
    requires Filter(s, a).Disconnected()
    ensures Filter(s, a + b) == Filter(s, a)
    decreases |b|
  {
    if b == [] {
      assert a + b == a;
    } else {
      NothingAfterDisconnect(s, a, b[..|b| - 1]);
      assert (a + b)[..|a + b| - 1] == a + b[..|b| - 1];
    }
  }

  // ----- sending any text -----

  /** Whether the text so far ends at a line start, given whether it began at one. */
  predicate AtLineStart(start: bool, text: seq<byte>) {
    if text == [] then start else IsNewline(text[|text| - 1])
  }

  /** What is typed for one byte: a tilde at a line start twice. */
  function TypedFor(atStart: bool, b: byte): (r: seq<byte>) {
    if atStart && b == TILDE then [TILDE, TILDE] else [b]
  }

  /** The text with each tilde at a line start typed twice. */
  function DoubleTildes(start: bool, text: seq<byte>): (r: seq<byte>) {
    if text == [] then []
    else
      var before, b := text[..|text| - 1], text[|text| - 1];
      DoubleTildes(start, before) + TypedFor(AtLineStart(start, before), b)
  }

  lemma TypingOne(s: EscapeState, typed: seq<byte>, atStart: bool, text: seq<byte>, b: byte)
    requires Filter(s, typed) == Filtered(Normal(atStart), text, [])
    ensures Filter(s, typed + TypedFor(atStart, b)) == Filtered(Normal(IsNewline(b)), text + [b], [])
  {
    hide Filter;
    if atStart && b == TILDE {
      FilterOne(s, typed, TILDE);
      FilterOne(s, typed + [TILDE], TILDE);
      assert typed + [TILDE, TILDE] == typed + [TILDE] + [TILDE];
    } else {
      FilterOne(s, typed, b);
    }
  }

  lemma DoublingOne(start: bool, before: seq<byte>, b: byte)
    ensures DoubleTildes(start, before + [b]) == DoubleTildes(start, before) + TypedFor(AtLineStart(start, before), b)
    ensures AtLineStart(start, before + [b]) == IsNewline(b)
  {
    assert (before + [b])[..|before|] == before;
  }

  /** Typed this way every byte string is sent unchanged, and no command runs. */
  lemma {:induction false} DoubledTildesSendAnything(start: bool, text: seq<byte>)
    ensures Filter(Normal(start), DoubleTildes(start, text)) == Filtered(Normal(AtLineStart(start, text)), text, [])
    decreases |text|
  {
    if text != [] {
      hide Filter, TypedFor, DoubleTildes, AtLineStart;
      var before, b := text[..|text| - 1], text[|text| - 1];
      assert before + [b] == text;
      DoubledTildesSendAnything(start, before);
      TypingOne(Normal(start), DoubleTildes(start, before), AtLineStart(start, before), before, b);
      DoublingOne(start, before, b);
    }
  }

  // ----- commands -----

  /** What a user means to do: send some bytes, or run a command. */
  datatype Part = Say(bytes: seq<byte>) | Order(command: EscapeCommand)

  /** The key after the tilde. */
  function KeyOf(c: EscapeCommand): (key: byte) {
    match c
    case Disconnect => 0x2e
    case Suspend => 0x1a
    case Help => 0x3f
    case ToggleOverlay => 0x6f
  }

  /** Whether one is at a line start after the script; a resumed session is, and other commands end it. */
  predicate LineStartAfter(start: bool, script: seq<Part>) {
    if script == [] then start
    else
      match script[|script| - 1]
      case Say(bytes) => AtLineStart(LineStartAfter(start, script[..|script| - 1]), bytes)
      case Order(command) => command == Suspend
  }

  /** What is typed for it. */
  function AsTyped(start: bool, script: seq<Part>): (r: seq<byte>) {
    if script == [] then []
    else
      var before := script[..|script| - 1];
      AsTyped(start, before) +
      match script[|script| - 1]
      case Say(bytes) => DoubleTildes(LineStartAfter(start, before), bytes)
      case Order(command) => [0x7e, KeyOf(command)]
  }

  function TextOf(script: seq<Part>): (r: seq<byte>) {
    if script == [] then []
    else TextOf(script[..|script| - 1]) + (var p := script[|script| - 1]; if p.Say? then p.bytes else [])
  }

  function CommandsOf(script: seq<Part>): (r: seq<EscapeCommand>) {
    if script == [] then []
    else CommandsOf(script[..|script| - 1]) + (var p := script[|script| - 1]; if p.Order? then [p.command] else [])
  }

  /** Every command stands at a line start, and nothing follows a disconnect. */
  predicate Typable(start: bool, script: seq<Part>) {
    script == [] ||
    var before := script[..|script| - 1];
    && Typable(start, before) && Disconnect !in CommandsOf(before)
    && (script[|script| - 1].Order? ==> LineStartAfter(start, before))
  }

  /** Typing a script sends exactly its text and runs exactly its commands, in order. */
  lemma {:induction false} ScriptIsFollowed(start: bool, script: seq<Part>)
    requires Typable(start, script)
    ensures Filter(Normal(start), AsTyped(start, script))
            == Filtered(Normal(LineStartAfter(start, script)), TextOf(script), CommandsOf(script))
    decreases |script|
  {
    if script != [] {
      hide Filter, DoubleTildes, AtLineStart;
      var before, last := script[..|script| - 1], script[|script| - 1];
      ScriptIsFollowed(start, before);
      var typed, at := AsTyped(start, before), LineStartAfter(start, before);
      match last {
        case Say(bytes) =>
          FilterAppend(Normal(start), typed, DoubleTildes(at, bytes));
          DoubledTildesSendAnything(at, bytes);
        case Order(command) =>
          FilterAppend(Normal(start), typed, [0x7e, KeyOf(command)]);
          CommandRuns(command);
      }
    }
  }

  lemma CommandRuns(c: EscapeCommand)
    ensures Filter(Normal(true), [0x7e, KeyOf(c)]) == Filtered(Normal(c == Suspend), [], [c])
  {
    PairIs(Normal(true), 0x7e, KeyOf(c));
  }

  lemma PairIs(s: EscapeState, a: byte, b: byte)
    ensures Filter(s, [a, b]) == AddStep(AddStep(Filtered(s, [], []), a), b)
  {
    hide AddStep;
    FilterOne(s, [], a);
    FilterOne(s, [a], b);
    assert [] + [a] == [a] && [a] + [b] == [a, b];
  }

  /** A session starts at a line start; there a tilde with any other key sends both. */
  lemma OtherPairsAreSent(key: byte)
    requires key != 0x2e && key != 0x1a && key != 0x3f && key != 0x6f && key != 0x7e
    ensures Filter(START, [0x7e, key]) == Filtered(Normal(key == 0x0a || key == 0x0d), [0x7e, key], [])
  {
    PairIs(START, 0x7e, key);
  }
}
