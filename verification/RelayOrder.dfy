/** What the relay keeps over every run: one order per topic, counts that converge, topics kept to. */
module RelayOrder {
  import opened Relay
  import opened SocketQueue
  import opened Wrappers

  // ---- what a socket is owed, step by step -----------------------------------------------

  lemma OnTopicsAppend(log: seq<Outgoing>, frame: Outgoing, held: set<string>)
    ensures OnTopics(log + [frame], held) == if frame.topic in held then OnTopics(log, held) + [frame] else OnTopics(log, held)
  {
    assert (log + [frame])[..|log|] == log;
  }

  lemma LastCountAppend(log: seq<Outgoing>, frame: Outgoing, topic: string)
    ensures LastCount(log + [frame], topic) ==
            if frame.topic == topic && frame.origin.Window? then Some(frame.origin.members) else LastCount(log, topic)
  {
    assert (log + [frame])[..|log|] == log;
  }

  /** A socket no step has touched, served as far as before. */
  lemma ConnKept(r: State, r': State, c: nat)
    requires c in r.conns && c in r'.conns && r'.conns[c] == r.conns[c] && ConnSound(r, c)
    requires Served(r', c) == Served(r, c) && r.log <= r'.log
    requires r.conns[c].socket.sender.Idle? || (r'.section.Fanout? && r'.section.sending == Some(c))
    ensures ConnSound(r', c)
  {
    hide SocketQueue.Sound, Follows, Served;
    var joined, served := r.conns[c].joined, Served(r, c);
    assert r'.log[joined..served] == r.log[joined..served];
  }

  /** A socket one event further on, of a topic it does not hold. */
  lemma ConnPassedOver(r: State, r': State, c: nat, frame: Outgoing)
    requires c in r.conns && c in r'.conns && r'.conns[c] == r.conns[c] && ConnSound(r, c)
    requires r'.log == r.log + [frame] && frame.topic !in r.conns[c].topics
    requires Served(r, c) == |r.log| && Served(r', c) == |r'.log|
    requires r.conns[c].socket.sender.Idle?
    ensures ConnSound(r', c)
  {
    hide SocketQueue.Sound, Follows, Served, OnTopics;
    var joined := r.conns[c].joined;
    SliceAppend(r.log, joined, frame);
    OnTopicsAppend(r.log[joined..|r.log|], frame, r.conns[c].topics);
  }

  lemma SliceAppend(log: seq<Outgoing>, from: nat, frame: Outgoing)
    requires from <= |log|
    ensures (log + [frame])[from..|log + [frame]|] == log[from..|log|] + [frame]
  {
  }

  /** A socket that has moved, and was served as far as before. */
  lemma ConnMoved(r: State, r': State, c: nat, step: Step)
    requires c in r.conns && c in r'.conns && ConnSound(r, c) && Enabled(r.conns[c].socket, step)
    requires r'.conns[c] == r.conns[c].(socket := Do(r.conns[c].socket, step))
    requires !step.SendBegins? && Served(r', c) == Served(r, c) && r.log == r'.log
    requires r'.section == r.section
    ensures ConnSound(r', c)
  {
    hide SocketQueue.Sound, Served, Do, Enabled, Follows;
    DoIsSound(r.conns[c].socket, step);
    StepFollows(r.conns[c].socket, step, Owed(r, c));
    StepKeepsIdle(r.conns[c].socket, step);
  }

  lemma StepKeepsIdle(s: Socket, step: Step)
    requires Enabled(s, step) && !step.SendBegins?
    ensures s.sender.Idle? ==> Do(s, step).sender.Idle?
  {
    hide IsFull;
  }

  lemma StepFollows(s: Socket, step: Step, owed: seq<Outgoing>)
    requires Enabled(s, step) && !step.SendBegins? && Follows(s, owed)
    ensures Follows(Do(s, step), owed)
  {
    hide IsFull;
  }

  /** The event under way reaches a socket: it is the next one the socket is owed. */
  lemma ConnReached(r: State, r': State, c: nat, frame: Outgoing)
    requires c in r.conns && c in r'.conns && ConnSound(r, c) && Enabled(r.conns[c].socket, SendBegins(frame))
    requires r'.conns[c] == r.conns[c].(socket := Do(r.conns[c].socket, SendBegins(frame)))
    requires r.log == r'.log && r.log != [] && frame == r.log[|r.log| - 1] && frame.topic in r.conns[c].topics
    requires Served(r, c) == |r.log| - 1 && Served(r', c) == |r.log|
    requires r'.section.Fanout? && r'.section.sending == Some(c)
    ensures ConnSound(r', c)
  {
    hide SocketQueue.Sound, Served;
    DoIsSound(r.conns[c].socket, SendBegins(frame));
    var joined := r.conns[c].joined;
    assert r.log[joined..|r.log|] == r.log[joined..|r.log| - 1] + [frame];
    OnTopicsAppend(r.log[joined..|r.log| - 1], frame, r.conns[c].topics);
  }

  // ---- the start of a fan-out -------------------------------------------------------------

  /** Nothing is being fanned out: every socket has been served the whole log. */
  predicate Settled(r: State) {
    r.section.Free? || Between(r)
  }

  lemma SettledServes(r: State, c: nat)
    requires Settled(r) && RelaySound(r) && c in r.conns
    ensures r.conns[c].socket.sender.Idle?
    ensures Served(r, c) == if r.conns[c].left.Some? then r.conns[c].left.value else |r.log|
  {
    hide Registered, Armed, FansOut, Counts, FromBrowsersOnly, SocketQueue.Sound, Follows, Owed;
  }

  lemma FanoutKeepsConns(r: State, frame: Outgoing, counts: bool, c: nat)
    requires Settled(r) && RelaySound(r) && c in r.conns
    ensures ConnSound(StartFanout(r, frame, counts), c)
  {
    hide Armed, FansOut, Counts, FromBrowsersOnly, ConnSound, Owed;
    SettledServes(r, c);
    var r' := StartFanout(r, frame, counts);
    assert c in Subs(r.topics, frame.topic) <==> r.conns[c].left.None? && frame.topic in r.conns[c].topics;
    if r.conns[c].left.Some? || c in Subs(r.topics, frame.topic) {
      ConnKept(r, r', c);
    } else {
      ConnPassedOver(r, r', c, frame);
    }
  }

  lemma FanoutFansOut(r: State, frame: Outgoing, counts: bool)
    requires Settled(r) && RelaySound(r)
    ensures FansOut(StartFanout(r, frame, counts)) && Registered(StartFanout(r, frame, counts))
  {
    hide Armed, FansOut, Counts, FromBrowsersOnly, SocketQueue.Sound, Follows, Owed;
    forall c | c in Subs(r.topics, frame.topic)
      ensures c in r.conns && r.conns[c].joined <= |r.log| && r.conns[c].left.None? && frame.topic in r.conns[c].topics
    {
      assert ConnSound(r, c);
    }
    hide ConnSound, Registered;
    FansOutNow(r, StartFanout(r, frame, counts), frame);
    RegisteredAlike(r, StartFanout(r, frame, counts));
  }

  lemma FansOutNow(r: State, r': State, frame: Outgoing)
    requires r'.log == r.log + [frame] && r'.conns == r.conns && r'.section.Fanout?
    requires r'.section.todo == Subs(r.topics, frame.topic) && r'.section.sending.None?
    requires forall c :: c in Subs(r.topics, frame.topic) ==>
               c in r.conns && r.conns[c].joined <= |r.log| && r.conns[c].left.None? && frame.topic in r.conns[c].topics
    ensures FansOut(r')
  {
  }

  /** Who holds what, and who has left. */
  ghost predicate SameMembers(r: State, r': State) {
    && r'.topics == r.topics && r'.conns.Keys == r.conns.Keys
    && forall c :: c in r.conns ==> r'.conns[c] == r.conns[c].(socket := r'.conns[c].socket)
  }

  lemma RegisteredAlike(r: State, r': State)
    requires Registered(r) && SameMembers(r, r')
    ensures Registered(r')
  {
    hide Subs;
  }

  predicate JoinedInTime(r: State) {
    forall c :: c in r.conns ==> r.conns[c].joined <= |r.log|
  }

  /** The last counts, after one event more: those it does not speak of are as they were. */
  lemma CountsAppend(r: State, r': State, frame: Outgoing)
    requires Counts(r) && JoinedInTime(r) && SameMembers(r, r') && r'.log == r.log + [frame]
    requires frame.origin.Window? ==> frame.origin.members == |Subs(r.topics, frame.topic)|
    requires forall t :: t in r.changed && t !in r'.changed ==> frame.origin.Window? && frame.topic == t
    ensures Counts(r')
  {
    hide Subs, LastCount;
    forall t, c | t !in r'.changed && c in Subs(r'.topics, t) && c in r'.conns && r'.conns[c].joined <= |r'.log|
      ensures LastCount(r'.log[r'.conns[c].joined..], t) == Some(|Subs(r'.topics, t)|)
    {
      var joined := r.conns[c].joined;
      assert r'.log[joined..] == r.log[joined..] + [frame];
      LastCountAppend(r.log[joined..], frame, t);
    }
  }

  predicate BrowserMay(r: State, frame: Outgoing) {
    if frame.origin.Browser? then
      frame.event != COUNT_EVENT && frame.origin.socket in r.conns && frame.topic in r.conns[frame.origin.socket].topics
    else true
  }

  lemma BrowsersAppend(r: State, r': State, frame: Outgoing)
    requires FromBrowsersOnly(r) && SameMembers(r, r') && r'.log == r.log + [frame]
    requires BrowserMay(r, frame)
    ensures FromBrowsersOnly(r')
  {
  }

  lemma SoundIsInTime(r: State)
    requires RelaySound(r)
    ensures JoinedInTime(r)
  {
    hide Registered, Armed, FansOut, Counts, FromBrowsersOnly, SocketQueue.Sound, Follows, Owed, Served;
    forall c | c in r.conns ensures r.conns[c].joined <= |r.log| {
      assert ConnSound(r, c);
    }
  }

  lemma PublishIsSound(r: State, frame: Outgoing)
    requires r.section.Free? && RelaySound(r) && !frame.origin.Window?
    requires BrowserMay(r, frame)
    ensures RelaySound(StartFanout(r, frame, false))
  {
    hide Registered, FansOut, Counts, FromBrowsersOnly, ConnSound;
    var r' := StartFanout(r, frame, false);
    FanoutFansOut(r, frame, false);
    SoundIsInTime(r);
    CountsAppend(r, r', frame);
    BrowsersAppend(r, r', frame);
    forall c | c in r'.conns ensures ConnSound(r', c) {
      FanoutKeepsConns(r, frame, false, c);
    }
  }

  lemma CountIsSound(r: State, topic: string, bytes: seq<Utf8.Byte>)
    requires RelaySound(r) && CanAct(r, NextCount(topic, bytes))
    ensures RelaySound(Act(r, NextCount(topic, bytes)))
  {
    hide Registered, FansOut, Counts, FromBrowsersOnly, ConnSound, Subs;
    var frame := Outgoing(topic, COUNT_EVENT, Window(|Subs(r.topics, topic)|), bytes);
    var r' := Act(r, NextCount(topic, bytes));
    assert r' == StartFanout(r, frame, true).(changed := r.changed - {topic});
    FanoutFansOut(r, frame, true);
    SoundIsInTime(r);
    CountsAppend(r, r', frame);
    BrowsersAppend(r, r', frame);
    forall c | c in r'.conns ensures ConnSound(r', c) {
      FanoutKeepsConns(r, frame, true, c);
      SectionDecides(StartFanout(r, frame, true), r', c);
    }
    OfMembers(StartFanout(r, frame, true), r');
  }

  /** A socket's soundness reads the sockets, the log and the section, and nothing else. */
  lemma SectionDecides(r: State, r': State, c: nat)
    requires c in r.conns && ConnSound(r, c) && r'.conns == r.conns && r'.log == r.log && r'.section == r.section
    ensures ConnSound(r', c)
  {
    hide SocketQueue.Sound, Follows, OnTopics;
  }

  lemma OfMembers(r: State, r': State)
    requires Registered(r) && FansOut(r)
    requires r'.conns == r.conns && r'.log == r.log && r'.section == r.section && r'.topics == r.topics
    ensures Registered(r') && FansOut(r')
  {
    hide Subs;
  }

  // ---- joins and leaves ---------------------------------------------------------------------

  lemma SubscribedSubs(topics: map<string, set<nat>>, c: nat, held: set<string>, t: string)
    ensures Subs(Subscribed(topics, c, held), t) == if t in held then Subs(topics, t) + {c} else Subs(topics, t)
  {
  }

  lemma UnsubscribedSubs(topics: map<string, set<nat>>, c: nat, held: set<string>, t: string)
    ensures Subs(Unsubscribed(topics, c, held), t) == if t in held then Subs(topics, t) - {c} else Subs(topics, t)
  {
  }

  lemma JoinIsRegistered(r: State, c: nat, held: set<string>)
    requires Registered(r) && c !in r.conns
    ensures Registered(Join(r, c, held))
  {
    hide Subs, Subscribed;
    var r' := Join(r, c, held);
    forall t, x ensures x in Subs(r'.topics, t) <==> x in r'.conns && r'.conns[x].left.None? && t in r'.conns[x].topics {
      SubscribedSubs(r.topics, c, held, t);
    }
  }

  lemma LeaveIsRegistered(r: State, c: nat)
    requires Registered(r) && c in r.conns && r.conns[c].left.None?
    ensures Registered(Leave(r, c))
  {
    hide Subs, Unsubscribed;
    var r' := Leave(r, c);
    forall t, x ensures x in Subs(r'.topics, t) <==> x in r'.conns && r'.conns[x].left.None? && t in r'.conns[x].topics {
      UnsubscribedSubs(r.topics, c, r.conns[c].topics, t);
    }
  }

  /** A topic whose membership changed has its count still to come; the others keep theirs. */
  lemma CountsElsewhere(r: State, r': State, held: set<string>)
    requires Counts(r) && r'.changed == r.changed + held && r'.log == r.log
    requires forall t :: t !in held ==> Subs(r'.topics, t) == Subs(r.topics, t)
    requires forall t, x :: t !in held && x in Subs(r.topics, t) && x in r'.conns ==>
               x in r.conns && r'.conns[x].joined == r.conns[x].joined
    ensures Counts(r')
  {
    hide Subs, LastCount;
  }

  lemma FreshConnIsSound(r: State, c: nat, held: set<string>)
    requires r.section.Free? && c !in r.conns
    ensures ConnSound(Join(r, c, held), c)
  {
    hide SocketQueue.Sound;
    FreshIsSound();
    assert r.log[|r.log|..|r.log|] == [];
  }

  lemma JoinIsSound(r: State, c: nat, held: set<string>)
    requires RelaySound(r) && CanAct(r, Joins(c, held))
    ensures RelaySound(Join(r, c, held))
  {
    hide Registered, Counts, ConnSound, Subscribed, Subs;
    var r' := Join(r, c, held);
    JoinIsRegistered(r, c, held);
    FreshConnIsSound(r, c, held);
    forall x | x in r'.conns ensures ConnSound(r', x) {
      if x != c {
        SettledServes(r, x);
        FreeServes(r', x);
        ConnKept(r, r', x);
      }
    }
    forall t | t !in held ensures Subs(r'.topics, t) == Subs(r.topics, t) {
      SubscribedSubs(r.topics, c, held, t);
    }
    MembersAreConns(r);
    CountsElsewhere(r, r', held);
  }

  lemma MembersAreConns(r: State)
    requires Registered(r)
    ensures forall t, x :: x in Subs(r.topics, t) ==> x in r.conns
  {
    hide Subs;
  }

  lemma FreeServes(r: State, c: nat)
    requires r.section.Free? && c in r.conns
    ensures Served(r, c) == if r.conns[c].left.Some? then r.conns[c].left.value else |r.log|
  {
  }

  lemma LeaveIsSound(r: State, c: nat)
    requires RelaySound(r) && CanAct(r, Leaves(c))
    ensures RelaySound(Leave(r, c))
  {
    hide Registered, Counts, ConnSound, Unsubscribed, Subs;
    var r', held := Leave(r, c), r.conns[c].topics;
    LeaveIsRegistered(r, c);
    forall x | x in r'.conns ensures ConnSound(r', x) {
      SettledServes(r, x);
      FreeServes(r', x);
      if x != c {
        ConnKept(r, r', x);
      } else {
        LeftIsKept(r, r', c);
      }
    }
    forall t | t !in held ensures Subs(r'.topics, t) == Subs(r.topics, t) {
      UnsubscribedSubs(r.topics, c, held, t);
    }
    MembersAreConns(r);
    CountsElsewhere(r, r', held);
  }

  lemma LeftIsKept(r: State, r': State, c: nat)
    requires c in r.conns && c in r'.conns && ConnSound(r, c) && r.conns[c].socket.sender.Idle?
    requires r'.log == r.log && Served(r', c) == Served(r, c)
    requires r'.conns[c] == r.conns[c].(left := r'.conns[c].left)
    ensures ConnSound(r', c)
  {
    hide SocketQueue.Sound, Follows, Served, OnTopics;
  }

  // ---- the steps of a fan-out, and of the sockets ---------------------------------------------

  /** A step that moves a socket, or the lock, and leaves the log and the memberships. */
  lemma StepAside(r: State, r': State)
    requires RelaySound(r) && SameMembers(r, r') && r'.log == r.log && r'.changed == r.changed
    ensures Registered(r') && Counts(r') && FromBrowsersOnly(r')
  {
    hide Subs, LastCount, ConnSound, FansOut, Armed;
  }

  lemma SocketMoves(r: State, c: nat, step: Step)
    requires RelaySound(r) && c in r.conns && Enabled(r.conns[c].socket, step) && !step.SendBegins?
    ensures RelaySound(WithSocket(r, c, Do(r.conns[c].socket, step)))
  {
    hide Registered, Counts, FromBrowsersOnly, ConnSound, Do, Enabled;
    var r' := WithSocket(r, c, Do(r.conns[c].socket, step));
    StepAside(r, r');
    forall x | x in r'.conns ensures ConnSound(r', x) {
      if x == c {
        ConnMoved(r, r', c, step);
      } else {
        ConnBeside(r, r', x);
      }
    }
  }

  lemma ConnBeside(r: State, r': State, c: nat)
    requires c in r.conns && ConnSound(r, c) && c in r'.conns && r'.conns[c] == r.conns[c]
    requires r'.log == r.log && r'.section == r.section
    ensures ConnSound(r', c)
  {
    hide SocketQueue.Sound, Follows, OnTopics;
  }

  lemma SendIsSound(r: State, c: nat)
    requires RelaySound(r) && CanAct(r, SendsTo(c))
    ensures RelaySound(Act(r, SendsTo(c)))
  {
    hide Registered, Counts, FromBrowsersOnly, ConnSound, Do;
    var r', frame := Act(r, SendsTo(c)), r.log[|r.log| - 1];
    StepAside(r, r');
    forall x | x in r'.conns ensures ConnSound(r', x) {
      if x == c {
        ConnReached(r, r', c, frame);
      } else {
        IdleBetween(r, x);
        ConnKept(r, r', x);
      }
    }
  }

  lemma IdleBetween(r: State, c: nat)
    requires RelaySound(r) && c in r.conns && !(r.section.Fanout? && r.section.sending == Some(c))
    ensures r.conns[c].socket.sender.Idle?
  {
    hide Registered, Counts, FromBrowsersOnly, Armed, FansOut, SocketQueue.Sound, Follows, Owed, Served;
    assert ConnSound(r, c);
  }

  lemma LockMoves(r: State, r': State)
    requires RelaySound(r) && r' == r.(section := r'.section, counting := r'.counting) && Armed(r') && FansOut(r')
    requires forall c :: c in r.conns ==> Served(r', c) == Served(r, c) && r.conns[c].socket.sender.Idle?
    ensures RelaySound(r')
  {
    hide Subs, LastCount, ConnSound, FansOut, Armed, Registered, Counts, FromBrowsersOnly, Served;
    forall c | c in r'.conns ensures ConnSound(r', c) {
      ConnKept(r, r', c);
    }
    AsideFromLock(r, r');
  }

  lemma AsideFromLock(r: State, r': State)
    requires Registered(r) && Counts(r) && FromBrowsersOnly(r) && r' == r.(section := r'.section, counting := r'.counting)
    ensures Registered(r') && Counts(r') && FromBrowsersOnly(r')
  {
    hide Subs, LastCount;
  }

  lemma LockStepIsSound(r: State, a: Action)
    requires RelaySound(r) && CanAct(r, a) && (a.FiresWindow? || a.SendReturns? || a.Unlocks?)
    ensures RelaySound(Act(r, a))
  {
    hide Registered, Counts, FromBrowsersOnly, ConnSound;
    forall c | c in r.conns ensures r.conns[c].socket.sender.Idle? {
      if !(r.section.Fanout? && r.section.sending == Some(c)) {
        IdleBetween(r, c);
      }
    }
    LockMoves(r, Act(r, a));
  }

  lemma ActIsSound(r: State, a: Action)
    requires RelaySound(r) && CanAct(r, a)
    ensures RelaySound(Act(r, a))
  {
    hide RelaySound, Enabled, Do, StartFanout, Join, Leave;
    match a
    case Joins(c, held) => JoinIsSound(r, c, held);
    case Leaves(c) => LeaveIsSound(r, c);
    case Pushes(topic, event, bytes) => PublishIsSound(r, Outgoing(topic, event, Server, bytes));
    case Relays(c, m, allowed) => PublishIsSound(r, FromClient(r.conns[c].topics, c, m, allowed).value);
    case NextCount(topic, bytes) => CountIsSound(r, topic, bytes);
    case SendsTo(c) => SendIsSound(r, c);
    case SendMoves(c, step) => SocketMoves(r, c, step);
    case Moves(c, step) => SocketMoves(r, c, step);
    case _ => LockStepIsSound(r, a);
  }

  // ---- over every run -----------------------------------------------------------------------------

  predicate IsRelayRun(trace: seq<State>, actions: seq<Action>) {
    && |trace| == |actions| + 1
    && trace[0] == START
    && forall i :: 0 <= i < |actions| ==> CanAct(trace[i], actions[i]) && trace[i + 1] == Act(trace[i], actions[i])
  }

  lemma StartIsSound()
    ensures RelaySound(START)
  {
    hide SocketQueue.Sound, Follows;
  }

  lemma {:induction false} EveryRelayIsSound(trace: seq<State>, actions: seq<Action>, i: nat)
    requires IsRelayRun(trace, actions) && i < |trace|
    ensures RelaySound(trace[i])
  {
    hide RelaySound, CanAct, Act;
    if i == 0 {
      StartIsSound();
    } else {
      EveryRelayIsSound(trace, actions, i - 1);
      ActIsSound(trace[i - 1], actions[i - 1]);
    }
  }

  lemma {:induction false} OnTopicsPlus(a: seq<Outgoing>, b: seq<Outgoing>, held: set<string>)
    ensures OnTopics(a + b, held) == OnTopics(a, held) + OnTopics(b, held)
    decreases |b|
  {
    if b == [] {
      assert a + b == a;
    } else {
      var last := b[|b| - 1];
      assert a + b == (a + b[..|b| - 1]) + [last] && b == b[..|b| - 1] + [last];
      OnTopicsAppend(a + b[..|b| - 1], last, held);
      OnTopicsAppend(b[..|b| - 1], last, held);
      OnTopicsPlus(a, b[..|b| - 1], held);
    }
  }

  lemma OnTopicsPrefix(a: seq<Outgoing>, b: seq<Outgoing>, held: set<string>)
    requires a <= b
    ensures OnTopics(a, held) <= OnTopics(b, held)
  {
    hide OnTopics;
    assert b == a + b[|a|..];
    OnTopicsPlus(a, b[|a|..], held);
  }

  lemma {:induction false} OnTopicOfTopics(log: seq<Outgoing>, held: set<string>, t: string)
    requires t in held
    ensures OnTopics(OnTopics(log, held), {t}) == OnTopics(log, {t})
    ensures LastCount(OnTopics(log, held), t) == LastCount(log, t)
  {
    if log != [] {
      var before, last := log[..|log| - 1], log[|log| - 1];
      OnTopicOfTopics(before, held, t);
      OnTopicsAppend(OnTopics(before, held), last, {t});
      LastCountAppend(OnTopics(before, held), last, t);
    }
  }

  /** What a socket accepts is what the relay fans out from its join on, of its topics, unbroken. */
  lemma AcceptedIsOwed(r: State, c: nat)
    requires RelaySound(r) && c in r.conns
    ensures r.conns[c].joined <= |r.log|
    ensures r.conns[c].socket.accepted <= OnTopics(r.log[r.conns[c].joined..], r.conns[c].topics)
  {
    hide Registered, Counts, FromBrowsersOnly, Armed, FansOut, SocketQueue.Sound, Served, OnTopics;
    assert ConnSound(r, c);
    var served, joined := Served(r, c), r.conns[c].joined;
    assert r.log[joined..served] <= r.log[joined..];
    OnTopicsPrefix(r.log[joined..served], r.log[joined..], r.conns[c].topics);
  }

  /**
   One order end to end: of every topic a socket holds, what is on its wire is a prefix of what it
   accepted, and what it accepted is the topic's log from its join on, without a gap.
   */
  lemma OneOrderPerTopic(trace: seq<State>, actions: seq<Action>, i: nat, c: nat, t: string)
    requires IsRelayRun(trace, actions) && i < |trace| && c in trace[i].conns && t in trace[i].conns[c].topics
    ensures var r := trace[i]; var conn := r.conns[c];
            && conn.joined <= |r.log|
            && OnWire(conn.socket.wire) <= conn.socket.accepted
            && OnTopics(conn.socket.accepted, {t}) <= OnTopics(r.log[conn.joined..], {t})
  {
    hide RelaySound, OnTopics, OnWire;
    EveryRelayIsSound(trace, actions, i);
    var r, conn := trace[i], trace[i].conns[c];
    AcceptedIsOwed(r, c);
    OnTopicsPrefix(conn.socket.accepted, OnTopics(r.log[conn.joined..], conn.topics), {t});
    OnTopicOfTopics(r.log[conn.joined..], conn.topics, t);
    SocketOfRelay(r, c);
  }

  lemma SocketOfRelay(r: State, c: nat)
    requires RelaySound(r) && c in r.conns
    ensures OnWire(r.conns[c].socket.wire) <= r.conns[c].socket.accepted
    ensures SocketQueue.Sound(r.conns[c].socket)
  {
    hide Registered, Counts, FromBrowsersOnly, Armed, FansOut, Accounted, Woken, ClosedLast, Served, OnTopics, OnWire;
    assert ConnSound(r, c);
  }

  /** Two subscribers of a topic: the later one's log is the end of the earlier one's. */
  lemma SubscribersAgree(trace: seq<State>, actions: seq<Action>, i: nat, c: nat, d: nat, t: string)
    requires IsRelayRun(trace, actions) && i < |trace| && c in trace[i].conns && d in trace[i].conns
    requires t in trace[i].conns[c].topics && t in trace[i].conns[d].topics
    requires trace[i].conns[c].joined <= trace[i].conns[d].joined
    ensures var r := trace[i]; var earlier, later := r.conns[c], r.conns[d];
            && later.joined <= |r.log|
            && var missed := OnTopics(r.log[earlier.joined..later.joined], {t});
               var log := OnTopics(r.log[later.joined..], {t});
               OnTopics(earlier.socket.accepted, {t}) <= missed + log && OnTopics(later.socket.accepted, {t}) <= log
  {
    hide OnTopics, OnWire;
    OneOrderPerTopic(trace, actions, i, c, t);
    OneOrderPerTopic(trace, actions, i, d, t);
    var r := trace[i];
    var from, to := r.conns[c].joined, r.conns[d].joined;
    assert r.log[from..] == r.log[from..to] + r.log[to..];
    OnTopicsPlus(r.log[from..to], r.log[to..], {t});
  }

  /**
   Convergence: once a topic is no longer waiting for its count, every live subscriber has been
   sent, last, a count that is the number of its members - and the members are the live holders.
   */
  lemma CountsConverge(trace: seq<State>, actions: seq<Action>, i: nat, c: nat, t: string)
    requires IsRelayRun(trace, actions) && i < |trace| && trace[i].section.Free? && t !in trace[i].changed
    requires c in trace[i].conns && trace[i].conns[c].left.None? && t in trace[i].conns[c].topics
    requires !trace[i].conns[c].socket.quit
    ensures var r := trace[i];
            && LastCount(r.conns[c].socket.accepted, t) == Some(|Subs(r.topics, t)|)
            && forall x :: x in Subs(r.topics, t) <==> x in r.conns && r.conns[x].left.None? && t in r.conns[x].topics
  {
    hide OnTopics, OnWire, LastCount, ConnSound, FansOut, FromBrowsersOnly;
    EveryRelayIsSound(trace, actions, i);
    var r := trace[i];
    FreeIsServed(r, c);
    assert c in Subs(r.topics, t);
    OnTopicOfTopics(r.log[r.conns[c].joined..], r.conns[c].topics, t);
  }

  lemma FreeIsServed(r: State, c: nat)
    requires RelaySound(r) && r.section.Free? && c in r.conns && r.conns[c].left.None? && !r.conns[c].socket.quit
    ensures r.conns[c].joined <= |r.log|
    ensures r.conns[c].socket.accepted == OnTopics(r.log[r.conns[c].joined..], r.conns[c].topics)
  {
    hide Registered, Counts, FromBrowsersOnly, Armed, FansOut, SocketQueue.Sound, OnTopics;
    assert ConnSound(r, c);
    assert r.log[r.conns[c].joined..|r.log|] == r.log[r.conns[c].joined..];
  }

  /** A topic waiting for its count has the window armed, or its counts being sent. */
  lemma WindowIsArmed(trace: seq<State>, actions: seq<Action>, i: nat)
    requires IsRelayRun(trace, actions) && i < |trace| && trace[i].changed != {}
    ensures trace[i].counting || (trace[i].section.Fanout? && trace[i].section.counts)
  {
    hide Registered, Counts, FromBrowsersOnly, FansOut, ConnSound;
    EveryRelayIsSound(trace, actions, i);
  }

  /** A browser's message adds no count, and reaches no topic its socket does not hold. */
  lemma BrowsersKeepToTheirTopics(trace: seq<State>, actions: seq<Action>, i: nat, j: nat)
    requires IsRelayRun(trace, actions) && i < |trace| && j < |trace[i].log| && trace[i].log[j].origin.Browser?
    ensures var frame := trace[i].log[j];
            && frame.event != COUNT_EVENT
            && frame.origin.socket in trace[i].conns && frame.topic in trace[i].conns[frame.origin.socket].topics
  {
    hide Registered, Counts, Armed, FansOut, ConnSound;
    EveryRelayIsSound(trace, actions, i);
  }

  // ---- what a browser may publish ------------------------------------------------------------

  /** The topic of a message and its event, both strings, the topic one the socket holds and not half a surrogate pair. */
  predicate Publishes(held: set<string>, m: Option<ClientMessage>, topic: string, event: string) {
    && m.Some? && m.value.topic == Some(topic) && !m.value.lone && topic in held
    && m.value.event == Some(event) && event != "__count"
  }

  /**
   Exactly which messages are relayed: with the lock free, one the policy allows that publishes on a
   topic its socket holds, and no other.
   */
  lemma RelayedIsAllowed(r: State, c: nat, m: Option<ClientMessage>, allowed: bool)
    ensures CanAct(r, Relays(c, m, allowed)) <==>
              r.section.Free? && c in r.conns && allowed && exists topic, event :: Publishes(r.conns[c].topics, m, topic, event)
  {
    if m.Some? && m.value.topic.Some? && m.value.event.Some? && c in r.conns {
      assert forall topic, event :: Publishes(r.conns[c].topics, m, topic, event) ==>
               topic == m.value.topic.value && event == m.value.event.value;
      assert m.value.topic.value in r.conns[c].topics && !m.value.lone && m.value.event.value != "__count" ==>
               Publishes(r.conns[c].topics, m, m.value.topic.value, m.value.event.value);
    }
  }

  /** And what goes out is that message, from that socket, to the topic's subscribers. */
  lemma RelayedIsTheMessage(r: State, c: nat, m: Option<ClientMessage>, allowed: bool, topic: string, event: string)
    requires CanAct(r, Relays(c, m, allowed)) && Publishes(r.conns[c].topics, m, topic, event)
    ensures var r' := Act(r, Relays(c, m, allowed));
            && r'.log == r.log + [Outgoing(topic, event, Browser(c), m.value.bytes)]
            && r'.section == Fanout(Subs(r.topics, topic), None, false)
            && r'.topics == r.topics && r'.changed == r.changed && r'.counting == r.counting && r'.conns == r.conns
  {
  }

  /** Over every run: a message is relayed only where it may be, and then it is all that is added to the log. */
  lemma BrowsersPublishWhatTheyMay(trace: seq<State>, actions: seq<Action>, i: nat, c: nat, m: Option<ClientMessage>, allowed: bool)
    requires IsRelayRun(trace, actions) && i < |actions| && actions[i] == Relays(c, m, allowed)
    ensures allowed && c in trace[i].conns
    ensures exists topic, event :: Publishes(trace[i].conns[c].topics, m, topic, event)
              && trace[i + 1].log == trace[i].log + [Outgoing(topic, event, Browser(c), m.value.bytes)]
  {
    assert CanAct(trace[i], actions[i]) && trace[i + 1] == Act(trace[i], actions[i]);
    hide CanAct, Act, Publishes;
    RelayedIsAllowed(trace[i], c, m, allowed);
    var topic, event :| Publishes(trace[i].conns[c].topics, m, topic, event);
    RelayedIsTheMessage(trace[i], c, m, allowed, topic, event);
  }

  /** Every count in the log is the window's, under the event's own name; no push of the server's is one by origin. */
  lemma CountsAreTheWindows(trace: seq<State>, actions: seq<Action>, i: nat, topic: string, bytes: seq<Utf8.Byte>)
    requires IsRelayRun(trace, actions) && i < |actions| && actions[i] == NextCount(topic, bytes)
    ensures trace[i + 1].log == trace[i].log + [Outgoing(topic, "__count", Window(|Subs(trace[i].topics, topic)|), bytes)]
    ensures topic in trace[i].changed && trace[i + 1].changed == trace[i].changed - {topic}
  {
    assert CanAct(trace[i], actions[i]) && trace[i + 1] == Act(trace[i], actions[i]);
  }
}
