/** Round trips of RFC 6455 frames: what is written is read, and what is accepted re-encodes. */
module FrameCodec {
  import opened FrameReader
  import opened Frames
  import opened Utf8

  // ---- one frame there and back -----------------------------------------------------------

  lemma LengthRoundTrip(n: nat, tail: seq<Byte>)
    requires n < TWO_63
    ensures var s := LengthBytes(n, 0x80);
            && |s| == 1 + Extended(s[0]) && s[0] >= 0x80
            && DeclaredBy((s + tail)[0], (s + tail)[1..]) == Length(n)
  {
    if n >= 126 {
      LongLengthRoundTrip(n, if n <= 0xFFFF then 2 else 8, tail);
    }
  }

  lemma LongLengthRoundTrip(n: nat, k: nat, tail: seq<Byte>)
    requires 126 <= n < TWO_63 && k == if n <= 0xFFFF then 2 else 8
    ensures var head: Byte := if k == 2 then 0xFE else 0xFF;
            && Extended(head) == k && DeclaredBy(head, ([head] + BigEndian(n, k) + tail)[1..]) == Length(n)
  {
    hide BigEndian, FromBigEndian;
    Widths();
    ReadsBigEndian(n, k);
    var head: Byte := if k == 2 then 0xFE else 0xFF;
    assert ([head] + BigEndian(n, k) + tail)[1..][..k] == BigEndian(n, k);
  }

  /** A header the reader has nothing against, with `held` bytes of a message already in hand. */
  predicate Acceptable(held: nat, limit: nat, f: Frame) {
    && f.opcode < 16 && |f.payload| < TWO_63
    && (if f.opcode >= 8 then f.fin && |f.payload| <= MAX_CONTROL else held + |f.payload| <= limit)
  }

  lemma FirstByteReads(fin: bool, opcode: nat)
    requires opcode < 16
    ensures var b := FirstByte(fin, opcode); b / 16 % 8 == 0 && b % 16 == opcode && (b >= 0x80 <==> fin)
  {
  }

  /** What a client writes is what the reader parses. */
  lemma WrittenIsParsed(held: nat, limit: nat, f: Frame, key: Key, rest: seq<Byte>)
    requires Acceptable(held, limit, f) && limit < TWO_63
    ensures Parse(held, limit, ClientFrame(f, key) + rest) == Parsed.Got(f, key, rest)
  {
    hide Masked, LengthBytes, DeclaredBy, Parse, FirstByte;
    var s, n := ClientFrame(f, key) + rest, |f.payload|;
    var length, masked := LengthBytes(n, 0x80), Masked(f.payload, key);
    ParseInSteps(held, limit, s);
    LengthRoundTrip(n, key + masked + rest);
    FirstByteReads(f.fin, f.opcode);
    assert s[1..] == length + (key + masked + rest);
    assert s[0] == FirstByte(f.fin, f.opcode);
    assert s[1..][1..] == s[2..];
    assert s[2 + Extended(s[1])..] == key + masked + rest;
    assert (key + masked + rest)[..4] == key;
    assert (key + masked + rest)[4..][..n] == masked;
    assert (key + masked + rest)[4..][n..] == rest;
    MaskedTwice(f.payload, key);
  }

  /** What is parsed is, byte for byte, the frame that was sent: a length has one spelling. */
  lemma ParsedIsWritten(held: nat, limit: nat, s: seq<Byte>)
    requires held <= limit < TWO_63 && Parse(held, limit, s).Got?
    ensures var p := Parse(held, limit, s);
            Acceptable(held, limit, p.frame) && s == ClientFrame(p.frame, p.key) + p.rest
  {
    hide Masked, DeclaredBy, Parse, LengthBytes, FirstByte;
    ParseInSteps(held, limit, s);
    ParsedFits(held, limit, s);
    var p, length, ext := Parse(held, limit, s), DeclaredBy(s[1], s[2..]).n, Extended(s[1]);
    var tail := s[2 + ext..];
    MaskedTwice(tail[4..][..length], p.key);
    LengthIsLeast(s[1], s[2..]);
    FirstByteWrites(s[0]);
    Reassembled(s, ext, length);
  }

  lemma Reassembled(s: seq<Byte>, ext: nat, length: nat)
    requires 2 + ext + 4 + length <= |s|
    ensures var tail := s[2 + ext..];
            s == [s[0]] + ([s[1]] + s[2..][..ext]) + tail[..4] + tail[4..][..length] + tail[4..][length..]
  {
    var tail := s[2 + ext..];
    assert tail == tail[..4] + (tail[4..][..length] + tail[4..][length..]);
    assert s == [s[0]] + ([s[1]] + s[2..][..ext]) + tail;
  }

  lemma FirstByteWrites(b: Byte)
    requires b / 16 % 8 == 0
    ensures b == FirstByte(b >= 0x80, b % 16)
  {
  }

  lemma LengthIsLeast(b: Byte, s: seq<Byte>)
    requires b >= 0x80 && DeclaredBy(b, s).Length?
    ensures |s| >= Extended(b) && LengthBytes(DeclaredBy(b, s).n, 0x80) == [b] + s[..Extended(b)]
  {
    if Extended(b) > 0 {
      WritesBigEndian(s[..Extended(b)]);
    }
  }

  // ---- a stream of frames -------------------------------------------------------------------

  /** The bytes of a client that sends these frames, each under a key of its own. */
  function Wire(frames: seq<Frame>, keys: seq<Key>): seq<Byte>
    requires |frames| == |keys| && forall j :: 0 <= j < |frames| ==> Framed(frames[j])
  {
    if frames == [] then [] else ClientFrame(frames[0], keys[0]) + Wire(frames[1..], keys[1..])
  }

  datatype Reading = Reading(messages: seq<Message>, end: Read)

  function Prepend(m: Message, r: Reading): Reading {
    r.(messages := [m] + r.messages)
  }

  /** Repeated calls of the reader, until one of them fails or refuses. */
  function ReadAll(a: Assembly, limit: nat, input: seq<Byte>): Reading
    decreases |input|
  {
    match Next(a, limit, input)
    case Received(message, next, rest) => Prepend(message, ReadAll(next, limit, rest))
    case end => Reading([], end)
  }

  /** Frames the reader takes one after the other, from a message in hand. */
  predicate Takes(a: Assembly, limit: nat, frames: seq<Frame>)
    decreases |frames|
  {
    frames == [] ||
    (Acceptable(|a.partial|, limit, frames[0]) && !Take(a, frames[0]).Violates?
     && Takes(Take(a, frames[0]).next, limit, frames[1..]))
  }

  function After(a: Assembly, frames: seq<Frame>): Assembly
    decreases |frames|
  {
    if frames == [] || Take(a, frames[0]).Violates? then a else After(Take(a, frames[0]).next, frames[1..])
  }

  function Emitted(a: Assembly, frames: seq<Frame>): seq<Message>
    decreases |frames|
  {
    if frames == [] then []
    else match Take(a, frames[0])
      case Violates(_) => []
      case Emit(message, next) => [message] + Emitted(next, frames[1..])
      case Keep(next) => Emitted(next, frames[1..])
  }

  lemma {:induction false} TakesAreFramed(a: Assembly, limit: nat, frames: seq<Frame>)
    requires Takes(a, limit, frames)
    ensures forall j :: 0 <= j < |frames| ==> Framed(frames[j])
    decreases |frames|
  {
    if frames != [] {
      TakesAreFramed(Take(a, frames[0]).next, limit, frames[1..]);
    }
  }

  lemma ReadAllNext(a: Assembly, limit: nat, f: Frame, key: Key, rest: seq<Byte>)
    requires Acceptable(|a.partial|, limit, f) && limit < TWO_63 && !Take(a, f).Violates?
    ensures var all, tail := ReadAll(a, limit, ClientFrame(f, key) + rest), ReadAll(Take(a, f).next, limit, rest);
            all == if Take(a, f).Emit? then Prepend(Take(a, f).message, tail) else tail
  {
    hide Parse, Take, ClientFrame;
    WrittenIsParsed(|a.partial|, limit, f, key, rest);
    NextInSteps(a, limit, ClientFrame(f, key) + rest);
  }

  /** The stream is read to its end, and what comes out is what the frames make up. */
  lemma {:induction false} WireIsRead(a: Assembly, limit: nat, frames: seq<Frame>, keys: seq<Key>)
    requires Takes(a, limit, frames) && |frames| == |keys| && limit < TWO_63
    requires forall j :: 0 <= j < |frames| ==> Framed(frames[j])
    ensures ReadAll(a, limit, Wire(frames, keys)) == Reading(Emitted(a, frames), Failed)
    decreases |frames|
  {
    hide Take, ClientFrame, Next;
    if frames == [] {
      NextInSteps(a, limit, []);
    } else {
      WireIsRead(Take(a, frames[0]).next, limit, frames[1..], keys[1..]);
      ReadAllNext(a, limit, frames[0], keys[0], Wire(frames[1..], keys[1..]));
    }
  }

  // ---- conversations (sections 5.4 and 5.5) ---------------------------------------------------

  datatype Control = Control(opcode: nat, payload: seq<Byte>)

  /** A further fragment, and the control frames that come between it and the one before. */
  datatype Piece = Piece(before: seq<Control>, payload: seq<Byte>)

  datatype Event = Lone(control: Control) | Data(opcode: nat, first: seq<Byte>, more: seq<Piece>)

  predicate LegalControl(c: Control) {
    (c.opcode == OP_CLOSE || c.opcode == OP_PING || c.opcode == OP_PONG) && |c.payload| <= MAX_CONTROL
  }

  predicate LegalControls(cs: seq<Control>) {
    forall j :: 0 <= j < |cs| ==> LegalControl(cs[j])
  }

  function Joined(more: seq<Piece>): seq<Byte> {
    if more == [] then [] else more[0].payload + Joined(more[1..])
  }

  ghost predicate Legal(e: Event, limit: nat) {
    match e
    case Lone(c) => LegalControl(c)
    case Data(opcode, first, more) =>
      && (opcode == OP_TEXT || opcode == OP_BINARY)
      && (forall j :: 0 <= j < |more| ==> LegalControls(more[j].before))
      && |first + Joined(more)| <= limit
      && (opcode == OP_TEXT ==> WellFormed(first + Joined(more)))
  }

  function ControlFrames(cs: seq<Control>): seq<Frame> {
    seq(|cs|, j requires 0 <= j < |cs| => Frame(true, cs[j].opcode, cs[j].payload))
  }

  function ControlMessages(cs: seq<Control>): seq<Message> {
    seq(|cs|, j requires 0 <= j < |cs| => Message(cs[j].opcode, cs[j].payload))
  }

  function PieceFrames(more: seq<Piece>): seq<Frame> {
    if more == [] then []
    else ControlFrames(more[0].before) + [Frame(|more| == 1, OP_CONTINUATION, more[0].payload)] + PieceFrames(more[1..])
  }

  function PieceControls(more: seq<Piece>): seq<Message> {
    if more == [] then [] else ControlMessages(more[0].before) + PieceControls(more[1..])
  }

  function EventFrames(e: Event): seq<Frame> {
    match e
    case Lone(c) => ControlFrames([c])
    case Data(opcode, first, more) => [Frame(more == [], opcode, first)] + PieceFrames(more)
  }

  /** What is to be heard of an event: its control frames as they come, then its message. */
  function EventMessages(e: Event): seq<Message> {
    match e
    case Lone(c) => ControlMessages([c])
    case Data(opcode, first, more) => PieceControls(more) + [Message(opcode, first + Joined(more))]
  }

  function FramesOf(events: seq<Event>): seq<Frame> {
    if events == [] then [] else EventFrames(events[0]) + FramesOf(events[1..])
  }

  function Messages(events: seq<Event>): seq<Message> {
    if events == [] then [] else EventMessages(events[0]) + Messages(events[1..])
  }

  // ---- what the reader makes of a conversation ------------------------------------------------

  /** Taken after `a`, the frames bring these messages and leave `b` in hand. */
  ghost predicate Brought(a: Assembly, limit: nat, frames: seq<Frame>, messages: seq<Message>, b: Assembly) {
    Takes(a, limit, frames) && Emitted(a, frames) == messages && After(a, frames) == b
  }

  lemma {:induction false} BroughtBoth(a: Assembly, limit: nat, f: seq<Frame>, m: seq<Message>, b: Assembly,
                                       g: seq<Frame>, n: seq<Message>, c: Assembly)
    requires Brought(a, limit, f, m, b) && Brought(b, limit, g, n, c)
    ensures Brought(a, limit, f + g, m + n, c)
    decreases |f|
  {
    if f == [] {
      assert f + g == g && m + n == n;
    } else {
      var next := Take(a, f[0]).next;
      assert (f + g)[1..] == f[1..] + g;
      BroughtBoth(next, limit, f[1..], Emitted(next, f[1..]), b, g, n, c);
    }
  }

  lemma BroughtNothing(a: Assembly, limit: nat)
    ensures Brought(a, limit, [], [], a)
  {
  }

  lemma BroughtOne(a: Assembly, limit: nat, f: Frame)
    requires Acceptable(|a.partial|, limit, f) && !Take(a, f).Violates?
    ensures Brought(a, limit, [f], if Take(a, f).Emit? then [Take(a, f).message] else [], Take(a, f).next)
  {
    BroughtNothing(Take(a, f).next, limit);
    assert [f][1..] == [];
  }

  lemma {:induction false} ControlsAreBrought(a: Assembly, limit: nat, cs: seq<Control>)
    requires LegalControls(cs)
    ensures Brought(a, limit, ControlFrames(cs), ControlMessages(cs), a)
  {
    hide Brought;
    if cs == [] {
      BroughtNothing(a, limit);
    } else {
      var f := Frame(true, cs[0].opcode, cs[0].payload);
      BroughtOne(a, limit, f);
      ControlsAreBrought(a, limit, cs[1..]);
      BroughtBoth(a, limit, [f], [Message(f.opcode, f.payload)], a, ControlFrames(cs[1..]), ControlMessages(cs[1..]), a);
      assert ControlFrames(cs) == [f] + ControlFrames(cs[1..]);
      assert ControlMessages(cs) == [Message(f.opcode, f.payload)] + ControlMessages(cs[1..]);
    }
  }

  ghost predicate Finishes(opcode: nat, whole: seq<Byte>, limit: nat) {
    (opcode == OP_TEXT || opcode == OP_BINARY) && |whole| <= limit && (opcode == OP_TEXT ==> WellFormed(whole))
  }

  lemma {:induction false} PiecesAreBrought(opcode: nat, held: seq<Byte>, limit: nat, more: seq<Piece>)
    requires more != [] && Finishes(opcode, held + Joined(more), limit) && limit < TWO_63
    requires forall j :: 0 <= j < |more| ==> LegalControls(more[j].before)
    ensures Brought(Assembly(true, opcode, held), limit, PieceFrames(more),
                    PieceControls(more) + [Message(opcode, held + Joined(more))], IDLE)
    decreases |more|
  {
    hide Brought, WellFormed;
    var a, p := Assembly(true, opcode, held), more[0];
    var f := Frame(|more| == 1, OP_CONTINUATION, p.payload);
    assert held + Joined(more) == (held + p.payload) + Joined(more[1..]);
    ControlsAreBrought(a, limit, p.before);
    if |more| == 1 {
      assert Joined(more[1..]) == [] && held + Joined(more) == held + p.payload;
      LastPiece(opcode, held, p.payload, limit);
      BroughtBoth(a, limit, ControlFrames(p.before), ControlMessages(p.before), a,
                  [f], [Message(opcode, held + p.payload)], IDLE);
      assert PieceFrames(more) == ControlFrames(p.before) + [f];
      assert PieceControls(more) == ControlMessages(p.before);
    } else {
      NextPiece(opcode, held, p.payload, limit);
      PiecesAreBrought(opcode, held + p.payload, limit, more[1..]);
      var rest := PieceControls(more[1..]) + [Message(opcode, held + Joined(more))];
      BroughtBoth(a, limit, ControlFrames(p.before), ControlMessages(p.before), a,
                  [f], [], Assembly(true, opcode, held + p.payload));
      BroughtBoth(a, limit, ControlFrames(p.before) + [f], ControlMessages(p.before) + [], Assembly(true, opcode, held + p.payload),
                  PieceFrames(more[1..]), rest, IDLE);
      assert PieceControls(more) + [Message(opcode, held + Joined(more))] == ControlMessages(p.before) + [] + rest;
    }
  }

  lemma LastPiece(opcode: nat, held: seq<Byte>, payload: seq<Byte>, limit: nat)
    requires Finishes(opcode, held + payload, limit) && limit < TWO_63
    ensures Brought(Assembly(true, opcode, held), limit, [Frame(true, OP_CONTINUATION, payload)],
                    [Message(opcode, held + payload)], IDLE)
  {
    hide Brought, WellFormed, Valid;
    ValidIsWellFormed(held + payload);
    BroughtOne(Assembly(true, opcode, held), limit, Frame(true, OP_CONTINUATION, payload));
  }

  lemma NextPiece(opcode: nat, held: seq<Byte>, payload: seq<Byte>, limit: nat)
    requires |held| + |payload| <= limit < TWO_63
    ensures Brought(Assembly(true, opcode, held), limit, [Frame(false, OP_CONTINUATION, payload)],
                    [], Assembly(true, opcode, held + payload))
  {
    hide Brought;
    BroughtOne(Assembly(true, opcode, held), limit, Frame(false, OP_CONTINUATION, payload));
  }

  lemma EventIsBrought(e: Event, limit: nat)
    requires Legal(e, limit) && limit < TWO_63
    ensures Brought(IDLE, limit, EventFrames(e), EventMessages(e), IDLE)
  {
    hide Brought, WellFormed, Valid;
    match e
    case Lone(c) => ControlsAreBrought(IDLE, limit, [c]);
    case Data(opcode, first, more) =>
      var f := Frame(more == [], opcode, first);
      assert more == [] ==> first + Joined(more) == first;
      ValidIsWellFormed(first);
      BroughtOne(IDLE, limit, f);
      if more == [] {
        assert EventFrames(e) == [f];
        assert first + Joined(more) == first && EventMessages(e) == [Message(opcode, first)];
      } else {
        PiecesAreBrought(opcode, first, limit, more);
        BroughtBoth(IDLE, limit, [f], [], Assembly(true, opcode, first), PieceFrames(more), EventMessages(e), IDLE);
        assert [] + EventMessages(e) == EventMessages(e);
      }
  }

  lemma {:induction false} EventsAreBrought(events: seq<Event>, limit: nat)
    requires limit < TWO_63 && forall j :: 0 <= j < |events| ==> Legal(events[j], limit)
    ensures Brought(IDLE, limit, FramesOf(events), Messages(events), IDLE)
  {
    hide Brought, Legal;
    if events == [] {
      BroughtNothing(IDLE, limit);
    } else {
      EventIsBrought(events[0], limit);
      EventsAreBrought(events[1..], limit);
      BroughtBoth(IDLE, limit, EventFrames(events[0]), EventMessages(events[0]), IDLE,
                  FramesOf(events[1..]), Messages(events[1..]), IDLE);
    }
  }

  /**
   The round trip: messages cut into any fragments, with any control frames in between and each
   frame under any key, are read back exactly, in order, and the stream then ends cleanly.
   */
  lemma ConversationIsRead(events: seq<Event>, keys: seq<Key>, limit: nat)
    requires limit < TWO_63 && forall j :: 0 <= j < |events| ==> Legal(events[j], limit)
    requires |keys| == |FramesOf(events)|
    ensures forall j :: 0 <= j < |FramesOf(events)| ==> Framed(FramesOf(events)[j])
    ensures ReadAll(IDLE, limit, Wire(FramesOf(events), keys)) == Reading(Messages(events), Failed)
  {
    hide Legal, FramesOf, Messages;
    EventsAreBrought(events, limit);
    TakesAreFramed(IDLE, limit, FramesOf(events));
    WireIsRead(IDLE, limit, FramesOf(events), keys);
  }

  // ---- the other way ---------------------------------------------------------------------------

  /** A message that was accepted re-encodes to exactly the bytes it was read from. */
  lemma {:induction false} AcceptedReencodes(a: Assembly, limit: nat, input: seq<Byte>)
    returns (frames: seq<Frame>, keys: seq<Key>)
    requires |a.partial| <= limit < TWO_63 && (!a.fragmented ==> a.partial == []) && Next(a, limit, input).Received?
    ensures |frames| == |keys| && Takes(a, limit, frames)
    ensures forall j :: 0 <= j < |frames| ==> Framed(frames[j])
    ensures var r := Next(a, limit, input);
            && input == Wire(frames, keys) + r.rest
            && Emitted(a, frames) == [r.message] && After(a, frames) == r.next
    decreases |input|
  {
    hide Parse, ClientFrame;
    NextInSteps(a, limit, input);
    ParsedIsWritten(|a.partial|, limit, input);
    var p := Parse(|a.partial|, limit, input);
    if Take(a, p.frame).Emit? {
      frames, keys := [p.frame], [p.key];
      assert frames[1..] == [] && keys[1..] == [];
    } else {
      ParsedFits(|a.partial|, limit, input);
      var restFrames, restKeys := AcceptedReencodes(Take(a, p.frame).next, limit, p.rest);
      frames, keys := [p.frame] + restFrames, [p.key] + restKeys;
      assert frames[1..] == restFrames && keys[1..] == restKeys;
    }
  }

  /** What a reader has in hand of a message is within the limit, and nothing between messages. */
  predicate Within(a: Assembly, limit: nat) {
    |a.partial| <= limit && (!a.fragmented ==> a.partial == [])
  }

  lemma {:induction false} TakenStaysWithin(a: Assembly, limit: nat, frames: seq<Frame>)
    requires Within(a, limit) && Takes(a, limit, frames)
    ensures Within(After(a, frames), limit)
    decreases |frames|
  {
    if frames != [] {
      TakenStaysWithin(Take(a, frames[0]).next, limit, frames[1..]);
    }
  }

  lemma {:induction false} WireBoth(f: seq<Frame>, k: seq<Key>, g: seq<Frame>, l: seq<Key>)
    requires |f| == |k| && |g| == |l|
    requires (forall j :: 0 <= j < |f| ==> Framed(f[j])) && forall j :: 0 <= j < |g| ==> Framed(g[j])
    ensures Wire(f + g, k + l) == Wire(f, k) + Wire(g, l)
  {
    hide ClientFrame, Framed;
    if f == [] {
      assert f + g == g && k + l == l;
    } else {
      assert (f + g)[1..] == f[1..] + g && (k + l)[1..] == k[1..] + l;
      WireBoth(f[1..], k[1..], g, l);
    }
  }

  /**
   A whole stream, whatever its bytes: what was read before the reader failed or refused re-encodes
   to the bytes it was read from, as frames that bring those messages, and the reader's answer is
   the one to the bytes that are left.
   */
  lemma {:induction false} AcceptedStreamReencodes(a: Assembly, limit: nat, input: seq<Byte>)
    returns (frames: seq<Frame>, keys: seq<Key>, rest: seq<Byte>)
    requires Within(a, limit) && limit < TWO_63
    ensures |frames| == |keys| && Brought(a, limit, frames, ReadAll(a, limit, input).messages, After(a, frames))
    ensures forall j :: 0 <= j < |frames| ==> Framed(frames[j])
    ensures input == Wire(frames, keys) + rest
    ensures ReadAll(a, limit, input).end == Next(After(a, frames), limit, rest) && !ReadAll(a, limit, input).end.Received?
    decreases |input|
  {
    hide Next, Brought, Emitted, After, ClientFrame, Framed;
    if Next(a, limit, input).Received? {
      var r := Next(a, limit, input);
      var own, ownKeys := AcceptedReencodes(a, limit, input);
      BroughtIs(a, limit, own);
      TakenStaysWithin(a, limit, own);
      var more, moreKeys;
      more, moreKeys, rest := AcceptedStreamReencodes(r.next, limit, r.rest);
      frames, keys := own + more, ownKeys + moreKeys;
      BroughtBoth(a, limit, own, [r.message], r.next, more, ReadAll(r.next, limit, r.rest).messages, After(r.next, more));
      BroughtIs(a, limit, frames);
      WireBoth(own, ownKeys, more, moreKeys);
    } else {
      frames, keys, rest := [], [], input;
      BroughtNothing(a, limit);
      BroughtIs(a, limit, []);
    }
  }

  lemma BroughtIs(a: Assembly, limit: nat, frames: seq<Frame>)
    ensures Takes(a, limit, frames) ==> Brought(a, limit, frames, Emitted(a, frames), After(a, frames))
    ensures forall m, b :: Brought(a, limit, frames, m, b) ==> After(a, frames) == b
  {
  }
}
