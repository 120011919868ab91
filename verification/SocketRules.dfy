/** What a socket does, in its own numbers (websocket_conn.go): who is turned away, what an end says, which pings are answered. */
module SocketRules {
  import opened SocketQueue
  import opened Wrappers

  /** What still counts against the bounds: queued, in the writer's hands, or given up on. */
  function Outstanding(s: Socket): seq<Outgoing> {
    s.queue + Counted(s.writer) + s.abandoned
  }

  lemma {:induction false} SizeOf(a: seq<Outgoing>, b: seq<Outgoing>)
    ensures Size(a + b) == Size(a) + Size(b)
  {
    if a == [] {
      assert a + b == b;
    } else {
      assert (a + b)[1..] == a[1..] + b;
      SizeOf(a[1..], b);
    }
  }

  lemma OutstandingCounts(s: Socket)
    requires Sound(s)
    ensures s.pending == |Outstanding(s)| <= 16384 && s.queued == Size(Outstanding(s)) <= 4194304
  {
    hide Size, Ordered, Woken, ClosedLast;
    SizeOf(s.queue + Counted(s.writer), s.abandoned);
    SizeOf(s.queue, Counted(s.writer));
  }

  /**
   Over every run: a frame is turned away when 16,384 frames are outstanding, or its bytes would take
   those of them past 4 MiB, and only then; otherwise it is queued, behind all that were before it.
   */
  lemma TurnedAwayAtTheBounds(trace: seq<Socket>, steps: seq<Step>, i: nat, frame: Outgoing)
    requires IsSocketRun(trace, steps) && i < |steps| && steps[i] == SendLocks && trace[i].sender == Admitted(frame)
    ensures if |Outstanding(trace[i])| >= 16384 || Size(Outstanding(trace[i])) + |frame.bytes| > 4194304
            then trace[i + 1] == trace[i].(sender := Full(frame))
            else trace[i + 1].queue == trace[i].queue + [frame] && trace[i + 1].accepted == trace[i].accepted + [frame]
                 && trace[i + 1].sender == Posting
  {
    hide Sound, Size;
    EverySocketIsSound(trace, steps, i);
    OutstandingCounts(trace[i]);
  }

  /** And within the bounds always. */
  lemma AlwaysWithinBounds(trace: seq<Socket>, steps: seq<Step>, i: nat)
    requires IsSocketRun(trace, steps) && i < |trace|
    ensures |Outstanding(trace[i])| <= 16384 && Size(Outstanding(trace[i])) <= 4194304
  {
    hide Sound, Size;
    EverySocketIsSound(trace, steps, i);
    OutstandingCounts(trace[i]);
  }

  // ---- how a socket ends -----------------------------------------------------------------------

  /** The code a step would end a socket with. */
  function Ending(step: Step): Option<Option<nat>> {
    match step
    case SendCloses => Some(Some(1013))
    case ChoosesShutdown => Some(Some(1001))
    case Ends(closing) => Some(closing)
    case WritesPong(ok) => if ok then None else Some(None)
    case WritesPing(ok) => if ok then None else Some(None)
    case WritesNext(ok) => if ok then None else Some(None)
    case _ => None
  }

  /**
   Over every run, a socket ends at the first step that ends it and with that step's code: 1013 when it
   fell too far behind, 1001 at a shutdown, none when a write failed; and nothing else ends it.
   */
  lemma EndsByTheFirst(trace: seq<Socket>, steps: seq<Step>, i: nat)
    requires IsSocketRun(trace, steps) && i < |steps|
    ensures trace[i].quit ==> trace[i + 1].quit && trace[i + 1].closing == trace[i].closing
    ensures !trace[i].quit ==>
              (trace[i + 1].quit <==> Ending(steps[i]).Some?)
              && trace[i + 1].closing == match Ending(steps[i]) case Some(code) => code case None => trace[i].closing
  {
    assert Enabled(trace[i], steps[i]) && trace[i + 1] == Do(trace[i], steps[i]);
  }

  predicate Fails(step: Step) {
    step == WritesPong(false) || step == WritesPing(false) || step == WritesNext(false)
  }

  lemma BreaksIff(s: Socket, step: Step)
    requires Enabled(s, step)
    ensures Do(s, step).open <==> s.open && !Fails(step)
    ensures !s.open ==> Do(s, step).wire == s.wire
  {
    hide IsFull, Size, Sound;
    StepPuts(s, step);
  }

  /** Over every run: the connection takes writes until one fails, and none after. */
  lemma {:induction false} OpenUntilAWriteFails(trace: seq<Socket>, steps: seq<Step>, i: nat)
    requires IsSocketRun(trace, steps) && i < |trace|
    ensures trace[i].open <==> forall j: nat :: j < i ==> !Fails(steps[j])
    ensures !trace[i].open && i < |steps| ==> trace[i + 1].wire == trace[i].wire
  {
    hide Do, Enabled, Fails;
    if i > 0 {
      var m := i - 1;
      OpenUntilAWriteFails(trace, steps, m);
      assert Enabled(trace[m], steps[m]) && trace[i] == Do(trace[m], steps[m]);
      BreaksIff(trace[m], steps[m]);
    }
    if i < |steps| {
      assert Enabled(trace[i], steps[i]) && trace[i + 1] == Do(trace[i], steps[i]);
      BreaksIff(trace[i], steps[i]);
    }
  }

  /** The writer left at this step: with the close frame the socket ended with, if there is one and it could be written. */
  ghost predicate LeftAt(trace: seq<Socket>, steps: seq<Step>, j: nat, i: nat) {
    && j < |steps| && j < i < |trace| && j + 1 < |trace|
    && steps[j].LooksForEnd? && trace[j].quit
    && trace[i].wire == trace[j].wire + if steps[j].ok && trace[j].closing.Some? then [Close(trace[j].closing.value)] else []
  }

  /** Over every run: a writer that has left, left so; and it leaves only a socket that has ended. */
  lemma {:induction false} ExitSaysTheEnd(trace: seq<Socket>, steps: seq<Step>, i: nat)
    requires IsSocketRun(trace, steps) && i < |trace| && trace[i].writer.Exited?
    ensures exists j: nat :: LeftAt(trace, steps, j, i)
  {
    hide Do, Enabled;
    if i > 0 {
      var m := i - 1;
      assert Enabled(trace[m], steps[m]) && trace[i] == Do(trace[m], steps[m]);
      if trace[m].writer.Exited? {
        ExitSaysTheEnd(trace, steps, m);
        var j: nat :| LeftAt(trace, steps, j, m);
        ExitedWritesNothing(trace[m], steps[m]);
        assert LeftAt(trace, steps, j, i);
      } else {
        Leaves(trace[m], steps[m]);
        assert LeftAt(trace, steps, m, i);
      }
    }
  }

  lemma Leaves(s: Socket, step: Step)
    requires Enabled(s, step) && !s.writer.Exited? && Do(s, step).writer.Exited?
    ensures step.LooksForEnd? && s.quit
    ensures Do(s, step).wire == s.wire + if step.ok && s.closing.Some? then [Close(s.closing.value)] else []
  {
  }

  lemma ExitedWritesNothing(s: Socket, step: Step)
    requires Enabled(s, step) && s.writer.Exited?
    ensures Do(s, step).wire == s.wire
  {
  }

  /** What the writer of a socket that has ended may still write: what it is about to, and the close frame. */
  function Rest(w: Writer): nat {
    match w
    case Exited => 0
    case Top => 1
    case Sent(_, _) => 1
    case Looking(_) => 1
    case Batch(rest) => if rest == [] then 1 else 2
    case _ => 2
  }

  lemma RestShrinks(s: Socket, step: Step)
    requires Enabled(s, step) && s.quit
    ensures Do(s, step).quit && |Do(s, step).wire| + Rest(Do(s, step).writer) <= |s.wire| + Rest(s.writer)
  {
    hide IsFull, Size, Sound;
    StepPuts(s, step);
  }

  /** Over every run: what is still queued when a socket ends is not sent. At most one frame more is written, and then the close frame. */
  lemma {:induction false} BacklogIsNotSent(trace: seq<Socket>, steps: seq<Step>, i: nat, j: nat)
    requires IsSocketRun(trace, steps) && i <= j < |trace| && trace[i].quit
    ensures trace[j].quit && |trace[j].wire| + Rest(trace[j].writer) <= |trace[i].wire| + Rest(trace[i].writer)
    decreases j
  {
    hide Do, Enabled, Rest;
    if i < j {
      var m := j - 1;
      BacklogIsNotSent(trace, steps, i, m);
      assert Enabled(trace[m], steps[m]) && trace[j] == Do(trace[m], steps[m]);
      RestShrinks(trace[m], steps[m]);
    }
  }

  /** A shutdown that the writer takes is answered next: nothing goes out after it but the close frame. */
  lemma ShutdownIsNext(trace: seq<Socket>, steps: seq<Step>, i: nat, j: nat)
    requires IsSocketRun(trace, steps) && i < j < |trace| && steps[i] == ChoosesShutdown
    ensures |trace[j].wire| <= |trace[i].wire| + 1
  {
    hide Do, Enabled, Rest;
    assert Enabled(trace[i], steps[i]) && trace[i + 1] == Do(trace[i], steps[i]);
    ShutdownEnds(trace[i]);
    BacklogIsNotSent(trace, steps, i + 1, j);
  }

  lemma ShutdownEnds(s: Socket)
    requires Enabled(s, ChoosesShutdown)
    ensures var s' := Do(s, ChoosesShutdown); s'.quit && s'.wire == s.wire && Rest(s'.writer) == 1
  {
  }

  // ---- pings -----------------------------------------------------------------------------------------

  /** Over every run: a ping that came is waiting to be answered, being answered, or has been tried since. */
  lemma {:induction false} PingsAreAnswered(trace: seq<Socket>, steps: seq<Step>, p: nat, i: nat)
    requires IsSocketRun(trace, steps) && p < i < |trace| && steps[p] == PingArrives
    ensures trace[i].pong || trace[i].writer.Ponging? || exists q: nat :: p < q < i && steps[q].WritesPong?
    decreases i
  {
    var m := i - 1;
    assert Enabled(trace[m], steps[m]) && trace[i] == Do(trace[m], steps[m]);
    if m > p {
      PingsAreAnswered(trace, steps, p, m);
      if steps[m].WritesPong? {
        assert p < m < i;
      } else if trace[m].pong || trace[m].writer.Ponging? {
        PongWaits(trace[m], steps[m]);
      }
    }
  }

  /** Over every run: a ping the ticker asked for is written next by the writer, or has been tried since. */
  lemma {:induction false} PingsAreSent(trace: seq<Socket>, steps: seq<Step>, p: nat, i: nat)
    requires IsSocketRun(trace, steps) && p < i < |trace| && steps[p] == ChoosesPing
    ensures trace[i].writer.Pinging? || exists q: nat :: p < q < i && steps[q].WritesPing?
    decreases i
  {
    var m := i - 1;
    assert Enabled(trace[m], steps[m]) && trace[i] == Do(trace[m], steps[m]);
    hide IsSocketRun;
    if m > p && trace[m].writer.Pinging? && !steps[m].WritesPing? {
      PingWaits(trace[m], steps[m]);
    } else if m > p {
      PingsAreSent(trace, steps, p, m);
    }
  }

  lemma PingWaits(s: Socket, step: Step)
    requires Enabled(s, step) && s.writer.Pinging? && !step.WritesPing?
    ensures Do(s, step).writer.Pinging?
  {
  }

  lemma PongWaits(s: Socket, step: Step)
    requires Enabled(s, step) && (s.pong || s.writer.Ponging?) && !step.WritesPong?
    ensures Do(s, step).pong || Do(s, step).writer.Ponging?
  {
  }

  function Pongs(wire: seq<Written>): nat {
    if wire == [] then 0 else Pongs(wire[..|wire| - 1]) + if wire[|wire| - 1].Pong? then 1 else 0
  }

  function Pings(steps: seq<Step>): nat {
    if steps == [] then 0 else Pings(steps[..|steps| - 1]) + if steps[|steps| - 1].PingArrives? then 1 else 0
  }

  function Due(s: Socket): nat {
    (if s.pong then 1 else 0) + if s.writer.Ponging? then 1 else 0
  }

  lemma PongsNext(wire: seq<Written>, w: Written)
    ensures Pongs(wire + [w]) == Pongs(wire) + if w.Pong? then 1 else 0
  {
    assert (wire + [w])[..|wire|] == wire;
  }

  /** What a step puts on the wire. */
  function Puts(s: Socket, step: Step): seq<Written> {
    match step
    case WritesPong(ok) => if ok then [Pong] else []
    case WritesPing(ok) => if ok then [Ping] else []
    case WritesNext(ok) => if ok && s.writer.Batch? && s.writer.rest != [] then [Data(s.writer.rest[0])] else []
    case LooksForEnd(ok) => if ok && s.quit && s.closing.Some? then [Close(s.closing.value)] else []
    case _ => []
  }

  lemma StepPuts(s: Socket, step: Step)
    requires Enabled(s, step)
    ensures Do(s, step).wire == s.wire + Puts(s, step)
  {
    hide IsFull;
    assert s.wire + [] == s.wire;
    match step
    case WritesNext(ok) =>
    case LooksForEnd(ok) =>
    case _ =>
  }

  lemma StepOwes(s: Socket, step: Step)
    requires Enabled(s, step)
    ensures Due(Do(s, step)) + (if step.WritesPong? then 1 else 0) <= Due(s) + if step.PingArrives? then 1 else 0
  {
  }

  lemma StepPongs(s: Socket, step: Step)
    requires Enabled(s, step)
    ensures Pongs(Do(s, step).wire) + Due(Do(s, step)) <= Pongs(s.wire) + Due(s) + if step.PingArrives? then 1 else 0
  {
    hide Pongs, Due, Do, Enabled;
    StepPuts(s, step);
    StepOwes(s, step);
    var put := Puts(s, step);
    if put == [] {
      assert s.wire + put == s.wire;
    } else {
      assert put == [put[0]];
      PongsNext(s.wire, put[0]);
    }
  }

  /** And nothing but a ping is answered: there are never more pongs than pings. */
  lemma {:induction false} NoPongUnasked(trace: seq<Socket>, steps: seq<Step>, i: nat)
    requires IsSocketRun(trace, steps) && i < |trace|
    ensures Pongs(trace[i].wire) + Due(trace[i]) <= Pings(steps[..i])
  {
    if i > 0 {
      var m := i - 1;
      NoPongUnasked(trace, steps, m);
      assert Enabled(trace[m], steps[m]) && trace[i] == Do(trace[m], steps[m]);
      StepPongs(trace[m], steps[m]);
      assert steps[..i][..m] == steps[..m];
    }
  }

  // ---- nothing is stuck, and nothing runs for nothing ----------------------------------------

  /** The writer has something to do, beside a shutdown or its own ping. */
  predicate HasWork(s: Socket) {
    !s.writer.Exited? && (s.writer.Selecting? ==> s.quit || s.pong || s.token)
  }

  /** A step of the writer's, that it can take whatever the connection does. */
  function Next(s: Socket): Step
    requires HasWork(s)
  {
    match s.writer
    case Top => LooksForEnd(false)
    case Selecting => if s.quit then ChoosesQuit else if s.pong then ChoosesPong else ChoosesWake
    case Ponging => WritesPong(false)
    case Pinging => WritesPing(false)
    case Taking => Takes
    case Batch(rest) => if rest == [] then EndsBatch else WritesNext(false)
    case Sent(_, _) => SaysWrote
    case Looking(_) => LooksAgain
  }

  /**
   A socket is never stuck: its writer can always go on while there is something for it to do, a send
   under way can always take its next step, and a ping, an ending and a shutdown are always taken.
   */
  lemma NeverStuck(s: Socket, closing: Option<nat>)
    ensures HasWork(s) ==> Enabled(s, Next(s))
    ensures s.writer.Selecting? ==> Enabled(s, ChoosesShutdown) && Enabled(s, ChoosesPing)
    ensures s.writer.Selecting? ==> (s.quit ==> Enabled(s, ChoosesQuit)) && (s.pong ==> Enabled(s, ChoosesPong))
                                     && (s.token ==> Enabled(s, ChoosesWake))
    ensures s.open ==> (s.writer.Ponging? ==> Enabled(s, WritesPong(true))) && (s.writer.Pinging? ==> Enabled(s, WritesPing(true)))
    ensures s.open && s.writer.Batch? && s.writer.rest != [] ==> Enabled(s, WritesNext(true))
    ensures s.open && s.writer.Top? ==> Enabled(s, LooksForEnd(true))
    ensures forall frame :: s.sender.Idle? ==> Enabled(s, SendBegins(frame))
    ensures s.sender.Admitted? ==> Enabled(s, SendLocks)
    ensures s.sender.Posting? ==> Enabled(s, SendPosts)
    ensures s.sender.Full? ==> Enabled(s, SendCloses)
    ensures Enabled(s, PingArrives) && Enabled(s, Ends(closing))
  {
  }

  /** A bound on what the writer still does of itself. */
  function Work(s: Socket): nat {
    (if s.pong then 10 else 0) + (if s.token then 10 else 0) + 4 * |s.queue|
    + match s.writer
      case Exited => 0
      case Selecting => if s.quit then 2 else 0
      case Top => 1
      case Ponging => 2
      case Pinging => 2
      case Taking => 3
      case Batch(rest) => 2 + 4 * |rest|
      case Sent(_, rest) => 4 + 4 * |rest|
      case Looking(rest) => 3 + 4 * |rest|
  }

  /** What a step from outside adds to it; the ticker and the shutdown are outside. */
  function Adds(step: Step): nat {
    match step
    case SendLocks => 4
    case SendPosts => 10
    case SendCloses => 2
    case Ends(_) => 2
    case PingArrives => 10
    case ChoosesShutdown => 1
    case ChoosesPing => 2
    case _ => 0
  }

  predicate OfWriter(step: Step) {
    Adds(step) == 0 && !step.SendBegins?
  }

  lemma WorkShrinks(s: Socket, step: Step)
    requires Enabled(s, step)
    ensures Work(Do(s, step)) + (if OfWriter(step) then 1 else 0) <= Work(s) + Adds(step)
  {
    if OfWriter(step) {
      WriterWorks(s, step);
    } else {
      OutsideAdds(s, step);
    }
  }

  lemma WriterWorks(s: Socket, step: Step)
    requires Enabled(s, step) && OfWriter(step)
    ensures Work(Do(s, step)) < Work(s)
  {
    hide IsFull, Size, Enqueue, Begin;
  }

  lemma OutsideAdds(s: Socket, step: Step)
    requires Enabled(s, step) && !OfWriter(step)
    ensures Work(Do(s, step)) <= Work(s) + Adds(step)
  {
    hide IsFull, Size, Broken, Wrote, TakeQueue;
  }

  function Added(steps: seq<Step>): nat {
    if steps == [] then 0 else Added(steps[..|steps| - 1]) + Adds(steps[|steps| - 1])
  }

  function Done(steps: seq<Step>): nat {
    if steps == [] then 0 else Done(steps[..|steps| - 1]) + if OfWriter(steps[|steps| - 1]) then 1 else 0
  }

  /**
   Over every run: the writer never runs on for nothing. However its steps fall, there are only so many
   for what came from outside, and so it comes to rest: with nothing to do, or gone.
   */
  lemma {:induction false} WriterComesToRest(trace: seq<Socket>, steps: seq<Step>, i: nat)
    requires IsSocketRun(trace, steps) && i < |trace|
    ensures Done(steps[..i]) + Work(trace[i]) <= 1 + Added(steps[..i])
  {
    hide Do, Enabled, Work, Adds, OfWriter;
    if i == 0 {
      FreshWork();
    } else {
      var m := i - 1;
      WriterComesToRest(trace, steps, m);
      assert Enabled(trace[m], steps[m]) && trace[i] == Do(trace[m], steps[m]);
      WorkShrinks(trace[m], steps[m]);
      assert steps[..i][..m] == steps[..m];
    }
  }

  lemma FreshWork()
    ensures Work(FRESH) == 1
  {
  }

  function Wakes(steps: seq<Step>): nat {
    if steps == [] then 0 else Wakes(steps[..|steps| - 1]) + if steps[|steps| - 1].ChoosesWake? then 1 else 0
  }

  function Posts(steps: seq<Step>): nat {
    if steps == [] then 0 else Posts(steps[..|steps| - 1]) + if steps[|steps| - 1].SendPosts? then 1 else 0
  }

  lemma StepWakes(s: Socket, step: Step)
    requires Enabled(s, step)
    ensures (if step.ChoosesWake? then 1 else 0) + (if Do(s, step).token then 1 else 0)
            <= (if s.token then 1 else 0) + if step.SendPosts? then 1 else 0
  {
    hide IsFull;
  }

  /** Over every run: the writer wakes for what was posted, and never more often. */
  lemma {:induction false} NoWakeUnposted(trace: seq<Socket>, steps: seq<Step>, i: nat)
    requires IsSocketRun(trace, steps) && i < |trace|
    ensures Wakes(steps[..i]) + (if trace[i].token then 1 else 0) <= Posts(steps[..i])
  {
    hide Do, Enabled;
    if i > 0 {
      var m := i - 1;
      NoWakeUnposted(trace, steps, m);
      assert Enabled(trace[m], steps[m]) && trace[i] == Do(trace[m], steps[m]);
      StepWakes(trace[m], steps[m]);
      assert steps[..i][..m] == steps[..m];
    }
  }
}
