/** A socket's queue (websocket_conn.go): its sender, writer and reader move step by step. */
module SocketQueue {
  import opened Utf8
  import opened Wrappers

  const QUEUE_BYTES := 4 * 1_048_576
  const QUEUE_FRAMES := 16_384
  const TRY_AGAIN_LATER := 1013
  const GOING_AWAY := 1001

  /** Who an event is from: the window's count of a topic, a browser's socket, or the server. */
  datatype Origin = Window(members: nat) | Browser(socket: nat) | Server

  /** A frame for the subscribers of a topic; nothing a socket does depends on its origin. */
  datatype Outgoing = Outgoing(topic: string, event: string, origin: Origin, bytes: seq<Byte>)

  /** A close frame by its code. */
  datatype Written = Data(frame: Outgoing) | Pong | Ping | Close(code: nat)

  /** Where `send` is: the relay's lock lets one be under way. */
  datatype Sender = Idle | Admitted(frame: Outgoing) | Posting | Full(frame: Outgoing)

  /** Where the writer is; `Sent` has written its frame and not yet said so. */
  datatype Writer = Top | Selecting | Ponging | Pinging | Taking
                  | Batch(rest: seq<Outgoing>) | Sent(frame: Outgoing, rest: seq<Outgoing>) | Looking(rest: seq<Outgoing>)
                  | Exited

  datatype Socket = Socket(
    queue: seq<Outgoing>, queued: int, pending: int, token: bool,
    pong: bool, quit: bool, closing: Option<nat>, open: bool,
    sender: Sender, writer: Writer,
    wire: seq<Written>,            // history: what was written, in order
    accepted: seq<Outgoing>,       // history: what was queued, in order
    abandoned: seq<Outgoing>)      // history: what the writer took and gave up on

  const FRESH := Socket([], 0, 0, false, false, false, None, true, Idle, Top, [], [], [])

  function Size(frames: seq<Outgoing>): nat {
    if frames == [] then 0 else |frames[0].bytes| + Size(frames[1..])
  }

  /** `finish`: the first ending decides. */
  function Finish(s: Socket, closing: Option<nat>): Socket {
    if s.quit then s else s.(quit := true, closing := closing)
  }

  predicate IsFull(s: Socket, frame: Outgoing) {
    s.pending >= QUEUE_FRAMES || s.queued + |frame.bytes| > QUEUE_BYTES
  }

  // ---- send -------------------------------------------------------------------------------

  function Begin(s: Socket, frame: Outgoing): Socket {
    if s.quit then s else s.(sender := Admitted(frame))
  }

  /** The section under the queue's lock. */
  function Enqueue(s: Socket): Socket
    requires s.sender.Admitted?
  {
    var frame := s.sender.frame;
    if IsFull(s, frame) then s.(sender := Full(frame))
    else s.(queue := s.queue + [frame], queued := s.queued + |frame.bytes|, pending := s.pending + 1,
            sender := Posting, accepted := s.accepted + [frame])
  }

  // ---- the writer ---------------------------------------------------------------------------

  /** A write that fails ends the socket, and the reader with it. */
  function Broken(s: Socket, lost: seq<Outgoing>): Socket {
    Finish(s, None).(open := false, writer := Top, abandoned := s.abandoned + lost)
  }

  function TakeQueue(s: Socket): Socket {
    s.(queue := [], writer := Batch(s.queue))
  }

  function Wrote(s: Socket): Socket
    requires s.writer.Sent?
  {
    s.(queued := s.queued - |s.writer.frame.bytes|, pending := s.pending - 1, writer := Looking(s.writer.rest))
  }

  // ---- every step ------------------------------------------------------------------------------

  datatype Step =
    | SendBegins(frame: Outgoing) | SendLocks | SendPosts | SendCloses
    | Ends(closing: Option<nat>) | PingArrives
    | LooksForEnd(ok: bool)
    | ChoosesQuit | ChoosesShutdown | ChoosesPong | ChoosesPing | ChoosesWake
    | WritesPong(ok: bool) | WritesPing(ok: bool)
    | Takes | WritesNext(ok: bool) | EndsBatch | SaysWrote | LooksAgain

  predicate Enabled(s: Socket, step: Step) {
    match step
    case SendBegins(_) => s.sender.Idle?
    case SendLocks => s.sender.Admitted?
    case SendPosts => s.sender.Posting?
    case SendCloses => s.sender.Full?
    case Ends(_) => true
    case PingArrives => true
    case LooksForEnd(ok) => s.writer.Top? && (ok ==> s.open)
    case ChoosesQuit => s.writer.Selecting? && s.quit
    case ChoosesShutdown => s.writer.Selecting?
    case ChoosesPong => s.writer.Selecting? && s.pong
    case ChoosesPing => s.writer.Selecting?
    case ChoosesWake => s.writer.Selecting? && s.token
    case WritesPong(ok) => s.writer.Ponging? && (ok ==> s.open)
    case WritesPing(ok) => s.writer.Pinging? && (ok ==> s.open)
    case Takes => s.writer.Taking?
    case WritesNext(ok) => s.writer.Batch? && s.writer.rest != [] && (ok ==> s.open)
    case EndsBatch => s.writer.Batch? && s.writer.rest == []
    case SaysWrote => s.writer.Sent?
    case LooksAgain => s.writer.Looking?
  }

  function Do(s: Socket, step: Step): Socket
    requires Enabled(s, step)
  {
    match step
    case SendBegins(frame) => Begin(s, frame)
    case SendLocks => Enqueue(s)
    case SendPosts => s.(token := true, sender := Idle)
    case SendCloses => Finish(s, Some(TRY_AGAIN_LATER)).(sender := Idle)
    case Ends(closing) => Finish(s, closing)
    case PingArrives => s.(pong := true)
    case LooksForEnd(ok) =>
      if !s.quit then s.(writer := Selecting)
      else if s.closing.Some? && ok then s.(writer := Exited, wire := s.wire + [Close(s.closing.value)])
      else s.(writer := Exited)
    case ChoosesQuit => s.(writer := Top)
    case ChoosesShutdown => Finish(s, Some(GOING_AWAY)).(writer := Top)
    case ChoosesPong => s.(pong := false, writer := Ponging)
    case ChoosesPing => s.(writer := Pinging)
    case ChoosesWake => s.(token := false, writer := Taking)
    case WritesPong(ok) => if ok then s.(writer := Top, wire := s.wire + [Pong]) else Broken(s, [])
    case WritesPing(ok) => if ok then s.(writer := Top, wire := s.wire + [Ping]) else Broken(s, [])
    case Takes => TakeQueue(s)
    case WritesNext(ok) =>
      var rest := s.writer.rest;
      if ok then s.(writer := Sent(rest[0], rest[1..]), wire := s.wire + [Data(rest[0])]) else Broken(s, rest)
    case EndsBatch => s.(writer := Top)
    case SaysWrote => Wrote(s)
    case LooksAgain =>
      if s.quit then s.(writer := Top, abandoned := s.abandoned + s.writer.rest)
      else s.(writer := Batch(s.writer.rest))
  }

  // ---- what every step keeps ---------------------------------------------------------------------

  /** Taken by the writer, and not written. */
  function InHand(w: Writer): seq<Outgoing> {
    match w
    case Batch(rest) => rest
    case Sent(_, rest) => rest
    case Looking(rest) => rest
    case _ => []
  }

  /** Taken by the writer, and still counted. */
  function Counted(w: Writer): seq<Outgoing> {
    if w.Sent? then [w.frame] + w.rest else InHand(w)
  }

  function OnWire(wire: seq<Written>): seq<Outgoing> {
    if wire == [] then []
    else
      var before := OnWire(wire[..|wire| - 1]);
      if wire[|wire| - 1].Data? then before + [wire[|wire| - 1].frame] else before
  }

  predicate Accounted(s: Socket) {
    && s.queued == Size(s.queue) + Size(Counted(s.writer)) + Size(s.abandoned) <= QUEUE_BYTES
    && s.pending == |s.queue| + |Counted(s.writer)| + |s.abandoned| <= QUEUE_FRAMES
  }

  predicate Ordered(s: Socket) {
    && s.accepted == OnWire(s.wire) + s.abandoned + InHand(s.writer) + s.queue
    && (s.abandoned != [] ==> s.quit && (s.writer.Top? || s.writer.Exited?))
  }

  predicate Woken(s: Socket) {
    s.queue != [] ==> s.token || s.sender.Posting? || s.writer.Taking?
  }

  predicate NoClose(wire: seq<Written>) {
    forall j :: 0 <= j < |wire| ==> !wire[j].Close?
  }

  /** A close frame is the ending's, and the last thing written. */
  predicate ClosedLast(s: Socket) {
    && (s.writer.Exited? ==> s.quit)
    && (!s.writer.Exited? ==> NoClose(s.wire))
    && (s.wire != [] ==> NoClose(s.wire[..|s.wire| - 1]))
    && (s.wire != [] && s.wire[|s.wire| - 1].Close? ==> s.closing == Some(s.wire[|s.wire| - 1].code))
  }

  predicate Sound(s: Socket) {
    Accounted(s) && Ordered(s) && Woken(s) && ClosedLast(s)
  }

  lemma {:induction false} SizeAppend(a: seq<Outgoing>, b: seq<Outgoing>)
    ensures Size(a + b) == Size(a) + Size(b)
  {
    if a == [] {
      assert a + b == b;
    } else {
      assert (a + b)[1..] == a[1..] + b;
      SizeAppend(a[1..], b);
    }
  }

  lemma SizeOne(frame: Outgoing)
    ensures Size([frame]) == |frame.bytes|
  {
    assert [frame][1..] == [];
  }

  lemma WireAppend(wire: seq<Written>, w: Written)
    ensures OnWire(wire + [w]) == if w.Data? then OnWire(wire) + [w.frame] else OnWire(wire)
  {
    assert (wire + [w])[..|wire|] == wire;
  }

  /** Neither the queue nor what the writer holds is touched. */
  predicate Aside(step: Step) {
    match step
    case SendLocks => false
    case Takes => false
    case WritesNext(_) => false
    case EndsBatch => false
    case SaysWrote => false
    case LooksAgain => false
    case _ => true
  }

  /** The fields a step beside the queue leaves alone. */
  predicate SameQueue(s: Socket, s': Socket) {
    && s'.queue == s.queue && s'.queued == s.queued && s'.pending == s.pending
    && s'.accepted == s.accepted && s'.abandoned == s.abandoned
    && Counted(s'.writer) == Counted(s.writer) && InHand(s'.writer) == InHand(s.writer)
    && OnWire(s'.wire) == OnWire(s.wire)
  }

  lemma AsideKeepsQueue(s: Socket, step: Step)
    requires Enabled(s, step) && Aside(step)
    ensures SameQueue(s, Do(s, step))
  {
    hide OnWire;
    WireAppend(s.wire, Pong);
    WireAppend(s.wire, Ping);
    if s.closing.Some? {
      WireAppend(s.wire, Close(s.closing.value));
    }
    assert s.abandoned + [] == s.abandoned;
  }

  lemma DoIsAccounted(s: Socket, step: Step)
    requires Sound(s) && Enabled(s, step)
    ensures Accounted(Do(s, step))
  {
    hide Size, OnWire, Ordered, Woken, ClosedLast, SameQueue;
    if Aside(step) {
      AsideKeepsAccounts(s, step);
    } else {
      MovesKeepAccounts(s, step);
    }
  }

  lemma AsideKeepsAccounts(s: Socket, step: Step)
    requires Accounted(s) && Enabled(s, step) && Aside(step)
    ensures Accounted(Do(s, step))
  {
    hide Size, OnWire, Counted, InHand, Do;
    AsideKeepsQueue(s, step);
  }

  lemma MovesKeepAccounts(s: Socket, step: Step)
    requires Accounted(s) && Enabled(s, step) && !Aside(step)
    ensures Accounted(Do(s, step))
  {
    hide Size, OnWire;
    SizeNothing();
    match step
    case SendLocks =>
      SizeAppend(s.queue, [s.sender.frame]);
      SizeOne(s.sender.frame);
    case WritesNext(ok) =>
      var rest := s.writer.rest;
      assert rest == [rest[0]] + rest[1..];
      SizeAppend(s.abandoned, rest);
    case SaysWrote =>
      SizeAppend([s.writer.frame], s.writer.rest);
      SizeOne(s.writer.frame);
    case LooksAgain =>
      SizeAppend(s.abandoned, s.writer.rest);
    case _ =>
  }

  lemma SizeNothing()
    ensures Size([]) == 0
  {
  }

  lemma DoIsOrdered(s: Socket, step: Step)
    requires Ordered(s) && Enabled(s, step) && (s.writer.Exited? ==> s.quit)
    ensures Ordered(Do(s, step))
  {
    hide OnWire, Ordered, Do, IsFull;
    if Aside(step) {
      AsideKeepsOrder(s, step);
    } else {
      match step
      case SendLocks => LockKeepsOrder(s);
      case WritesNext(ok) => WriteKeepsOrder(s, ok);
      case Takes => TakeKeepsOrder(s, step);
      case _ => BatchKeepsOrder(s, step);
    }
  }

  lemma LockKeepsOrder(s: Socket)
    requires Ordered(s) && Enabled(s, SendLocks)
    ensures Ordered(Do(s, SendLocks))
  {
    hide OnWire, IsFull;
    Regroup(OnWire(s.wire) + s.abandoned + InHand(s.writer), s.queue, [s.sender.frame]);
  }

  lemma Regroup(a: seq<Outgoing>, b: seq<Outgoing>, c: seq<Outgoing>)
    ensures (a + b) + c == a + (b + c)
  {
  }

  lemma WriteKeepsOrder(s: Socket, ok: bool)
    requires Ordered(s) && Enabled(s, WritesNext(ok))
    ensures Ordered(Do(s, WritesNext(ok)))
  {
    hide OnWire;
    var rest := s.writer.rest;
    WireAppend(s.wire, Data(rest[0]));
    assert rest == [rest[0]] + rest[1..];
    assert s.abandoned == [];
    if ok {
      assert OnWire(s.wire) + [] + rest == (OnWire(s.wire) + [rest[0]]) + [] + rest[1..];
    } else {
      assert OnWire(s.wire) + [] + rest == OnWire(s.wire) + ([] + rest) + [];
    }
  }

  lemma TakeKeepsOrder(s: Socket, step: Step)
    requires Ordered(s) && Enabled(s, step) && step.Takes?
    ensures Ordered(Do(s, step))
  {
    hide OnWire;
    assert OnWire(s.wire) + s.abandoned + [] + s.queue == OnWire(s.wire) + s.abandoned + s.queue + [];
  }

  lemma BatchKeepsOrder(s: Socket, step: Step)
    requires Ordered(s) && Enabled(s, step) && (step.EndsBatch? || step.SaysWrote? || step.LooksAgain?)
    ensures Ordered(Do(s, step))
  {
    hide OnWire;
    if step.LooksAgain? && s.quit {
      assert s.abandoned == [];
      var wired, rest := OnWire(s.wire), s.writer.rest;
      assert wired + [] + rest == wired + ([] + rest) + [];
    }
  }

  lemma AsideKeepsOrder(s: Socket, step: Step)
    requires Ordered(s) && Enabled(s, step) && Aside(step)
    ensures Ordered(Do(s, step))
  {
    hide OnWire, Counted, InHand;
    AsideKeepsQueue(s, step);
    hide SameQueue;
    if s.abandoned != [] {
      assert Do(s, step).quit;
    }
  }

  lemma DoIsWoken(s: Socket, step: Step)
    requires Woken(s) && Enabled(s, step)
    ensures Woken(Do(s, step))
  {
    hide OnWire, IsFull;
  }

  /** An ending is decided once. */
  predicate Decided(s: Socket, s': Socket) {
    s.quit ==> s'.quit && s'.closing == s.closing
  }

  lemma DoDecides(s: Socket, step: Step)
    requires Enabled(s, step)
    ensures Decided(s, Do(s, step))
    ensures s.writer.Exited? ==> Do(s, step).writer.Exited? && Do(s, step).wire == s.wire
  {
    hide IsFull;
  }

  lemma SameWireCloses(s: Socket, s': Socket)
    requires ClosedLast(s) && Decided(s, s') && s'.wire == s.wire && (s'.writer.Exited? <==> s.writer.Exited?)
    ensures ClosedLast(s')
  {
  }

  lemma MoreWireCloses(s: Socket, s': Socket, w: Written)
    requires ClosedLast(s) && Decided(s, s') && !s.writer.Exited? && s'.wire == s.wire + [w]
    requires if w.Close? then s'.writer.Exited? && s'.quit && s'.closing == Some(w.code) else !s'.writer.Exited?
    ensures ClosedLast(s')
  {
    assert s'.wire[..|s'.wire| - 1] == s.wire;
  }

  lemma DoClosesLast(s: Socket, step: Step)
    requires ClosedLast(s) && Enabled(s, step)
    ensures ClosedLast(Do(s, step))
  {
    hide ClosedLast, IsFull, Decided;
    DoDecides(s, step);
    var s' := Do(s, step);
    match step
    case LooksForEnd(ok) =>
      LookClosesLast(s, ok);
    case WritesPong(ok) =>
      if ok { MoreWireCloses(s, s', Pong); } else { SameWireCloses(s, s'); }
    case WritesPing(ok) =>
      if ok { MoreWireCloses(s, s', Ping); } else { SameWireCloses(s, s'); }
    case WritesNext(ok) =>
      if ok { MoreWireCloses(s, s', Data(s.writer.rest[0])); } else { SameWireCloses(s, s'); }
    case _ =>
      SameWireCloses(s, s');
  }

  lemma LookClosesLast(s: Socket, ok: bool)
    requires ClosedLast(s) && Enabled(s, LooksForEnd(ok))
    ensures ClosedLast(Do(s, LooksForEnd(ok)))
  {
    if s.quit && s.closing.Some? && ok {
      MoreWireCloses(s, Do(s, LooksForEnd(ok)), Close(s.closing.value));
    }
  }

  lemma DoIsSound(s: Socket, step: Step)
    requires Sound(s) && Enabled(s, step)
    ensures Sound(Do(s, step))
  {
    hide Accounted, Ordered, Woken, Do;
    DoIsAccounted(s, step);
    DoIsOrdered(s, step);
    DoIsWoken(s, step);
    DoClosesLast(s, step);
  }

  // ---- over every run ---------------------------------------------------------------------------

  predicate IsSocketRun(trace: seq<Socket>, steps: seq<Step>) {
    && |trace| == |steps| + 1
    && trace[0] == FRESH
    && forall i :: 0 <= i < |steps| ==> Enabled(trace[i], steps[i]) && trace[i + 1] == Do(trace[i], steps[i])
  }

  lemma FreshIsSound()
    ensures Sound(FRESH)
  {
    hide Accounted, Ordered, Woken, ClosedLast;
    EmptyIsAccounted(FRESH);
    EmptyIsOrdered(FRESH);
  }

  lemma EmptyIsAccounted(s: Socket)
    requires s.queue == [] && s.writer == Top && s.abandoned == [] && s.queued == 0 && s.pending == 0
    ensures Accounted(s) && Woken(s)
  {
    hide Size;
    SizeNothing();
  }

  lemma EmptyIsOrdered(s: Socket)
    requires s.queue == [] && s.writer == Top && s.abandoned == [] && s.wire == [] && s.accepted == []
    ensures Ordered(s) && ClosedLast(s)
  {
    hide OnWire;
    WireNothing();
  }

  lemma WireNothing()
    ensures OnWire([]) == []
  {
  }

  lemma {:induction false} EverySocketIsSound(trace: seq<Socket>, steps: seq<Step>, i: nat)
    requires IsSocketRun(trace, steps) && i < |trace|
    ensures Sound(trace[i])
  {
    hide Sound, Enabled, Do;
    if i == 0 {
      FreshIsSound();
    } else {
      EverySocketIsSound(trace, steps, i - 1);
      DoIsSound(trace[i - 1], steps[i - 1]);
    }
  }

  /**
   What a socket counts is what it holds: until it ends, the bytes and the frames of the queue and
   of the batch the writer has not said it wrote, and never more than the bounds.
   */
  lemma QueueIsBounded(trace: seq<Socket>, steps: seq<Step>, i: nat)
    requires IsSocketRun(trace, steps) && i < |trace|
    ensures var s := trace[i];
            && 0 <= s.queued <= QUEUE_BYTES && 0 <= s.pending <= QUEUE_FRAMES
            && (!s.quit ==> s.queued == Size(s.queue) + Size(Counted(s.writer))
                            && s.pending == |s.queue| + |Counted(s.writer)|)
  {
    hide Size, OnWire;
    EverySocketIsSound(trace, steps, i);
    SizeNothing();
  }

  /** The first ending decides, and nothing is written after a close frame. */
  lemma {:induction false} FirstEndingDecides(trace: seq<Socket>, steps: seq<Step>, i: nat, j: nat)
    requires IsSocketRun(trace, steps) && i <= j < |trace|
    ensures trace[i].quit ==> trace[j].quit && trace[j].closing == trace[i].closing
    ensures !NoClose(trace[i].wire) ==> trace[j].wire == trace[i].wire
    decreases j
  {
    hide Enabled, Do, OnWire, Accounted, Ordered, Woken;
    if i < j {
      FirstEndingDecides(trace, steps, i, j - 1);
      EverySocketIsSound(trace, steps, j - 1);
      DoDecides(trace[j - 1], steps[j - 1]);
    }
  }

  /** At most one close frame is written, it is the decided one, and it comes last. */
  lemma OneCloseLast(trace: seq<Socket>, steps: seq<Step>, i: nat, at: nat)
    requires IsSocketRun(trace, steps) && i < |trace| && at < |trace[i].wire| && trace[i].wire[at].Close?
    ensures at == |trace[i].wire| - 1 && trace[i].quit && trace[i].closing == Some(trace[i].wire[at].code)
  {
    hide Enabled, Do, OnWire, Accounted, Ordered, Woken;
    EverySocketIsSound(trace, steps, i);
    CloseIsLast(trace[i], at);
  }

  lemma CloseIsLast(s: Socket, at: nat)
    requires ClosedLast(s) && at < |s.wire| && s.wire[at].Close?
    ensures at == |s.wire| - 1 && s.quit && s.closing == Some(s.wire[at].code)
  {
    if at < |s.wire| - 1 {
      NoCloseBefore(s.wire, at);
    }
  }

  lemma NoCloseBefore(wire: seq<Written>, at: nat)
    requires at < |wire| - 1 && NoClose(wire[..|wire| - 1])
    ensures !wire[at].Close?
  {
    assert wire[..|wire| - 1][at] == wire[at];
  }

  /** The data on the wire is a prefix of what was accepted, in the order it was accepted. */
  lemma WireIsPrefix(trace: seq<Socket>, steps: seq<Step>, i: nat)
    requires IsSocketRun(trace, steps) && i < |trace|
    ensures OnWire(trace[i].wire) <= trace[i].accepted
  {
    hide OnWire, Size, ClosedLast;
    EverySocketIsSound(trace, steps, i);
  }

  /** No wake-up is lost: a writer that has nothing to wait for has written everything. */
  lemma NothingIsLeftWaiting(trace: seq<Socket>, steps: seq<Step>, i: nat)
    requires IsSocketRun(trace, steps) && i < |trace|
    requires var s := trace[i]; s.writer.Selecting? && !s.token && s.sender.Idle? && !s.quit
    ensures trace[i].queue == [] && trace[i].queued == 0 && OnWire(trace[i].wire) == trace[i].accepted
  {
    hide OnWire, ClosedLast;
    EverySocketIsSound(trace, steps, i);
    SizeNothing();
  }

  // ---- one whole send ----------------------------------------------------------------------------

  /** `send`, when nothing comes between its steps. */
  function Offer(s: Socket, frame: Outgoing): Socket {
    var begun := Begin(s, frame);
    if !begun.sender.Admitted? then begun
    else
      var locked := Enqueue(begun);
      if locked.sender.Full? then Finish(locked, Some(TRY_AGAIN_LATER)).(sender := Idle)
      else locked.(token := true, sender := Idle)
  }
}
