/** When the relay acts (ws_relay.go): who leaves, when the window fires, and that what holds the lock always gets done. */
module RelayRules {
  import opened Relay
  import opened RelayOrder
  import opened SocketQueue
  import opened Wrappers

  // ---- who leaves -----------------------------------------------------------------------

  lemma QuitStays(s: Socket, step: Step)
    requires Enabled(s, step) && s.quit
    ensures Do(s, step).quit
  {
  }

  predicate LeftHasEnded(r: State, c: nat) {
    c in r.conns && r.conns[c].left.Some? ==> r.conns[c].socket.quit
  }

  lemma LeavesEnded(r: State, a: Action, c: nat)
    requires CanAct(r, a) && LeftHasEnded(r, c)
    ensures LeftHasEnded(Act(r, a), c)
  {
    hide Do, Enabled, FromClient;
    if (a.SendMoves? || a.Moves?) && a.c == c && r.conns[c].socket.quit {
      QuitStays(r.conns[c].socket, a.step);
    } else if a.SendsTo? && a.c == c && r.conns[c].socket.quit {
      QuitStays(r.conns[c].socket, SendBegins(r.log[|r.log| - 1]));
    }
  }

  /** Over every run: only a socket that has ended leaves, and it can whenever the lock is free. */
  lemma {:induction false} OnlyTheEndedLeave(trace: seq<State>, actions: seq<Action>, i: nat, c: nat)
    requires IsRelayRun(trace, actions) && i < |trace|
    ensures LeftHasEnded(trace[i], c)
    ensures c in trace[i].conns && trace[i].conns[c].left.None? && trace[i].section.Free? ==>
              (CanAct(trace[i], Leaves(c)) <==> trace[i].conns[c].socket.quit)
  {
    hide Act, LeftHasEnded;
    if i == 0 {
      NobodyLeft(c);
    } else {
      var m := i - 1;
      OnlyTheEndedLeave(trace, actions, m, c);
      assert CanAct(trace[m], actions[m]) && trace[i] == Act(trace[m], actions[m]);
      LeavesEnded(trace[m], actions[m], c);
    }
  }

  lemma NobodyLeft(c: nat)
    ensures LeftHasEnded(START, c)
  {
  }

  // ---- the window ---------------------------------------------------------------------------

  /** Somebody with a topic came or went at `m`, and the window has not fired since. */
  ghost predicate Pending(trace: seq<State>, actions: seq<Action>, m: nat, i: nat) {
    && m < i <= |actions| && m < |trace|
    && (actions[m].Joins? || actions[m].Leaves?)
    && forall k :: m < k < i ==> !actions[k].FiresWindow?
  }

  lemma CountingNext(r: State, a: Action)
    requires CanAct(r, a)
    ensures Act(r, a).counting ==> (r.counting && !a.FiresWindow?) || a.Joins? || a.Leaves?
    ensures a.FiresWindow? ==> r.counting
  {
    hide Do, Enabled, FromClient;
  }

  lemma {:induction false} CountingIsPending(trace: seq<State>, actions: seq<Action>, i: nat)
    requires IsRelayRun(trace, actions) && i < |trace| && trace[i].counting
    ensures exists m: nat :: Pending(trace, actions, m, i)
  {
    hide CanAct, Act;
    if i > 0 {
      var k := i - 1;
      assert CanAct(trace[k], actions[k]) && trace[i] == Act(trace[k], actions[k]);
      CountingNext(trace[k], actions[k]);
      if actions[k].Joins? || actions[k].Leaves? {
        assert Pending(trace, actions, k, i);
      } else {
        CountingIsPending(trace, actions, k);
        var m: nat :| Pending(trace, actions, m, k);
        assert Pending(trace, actions, m, i);
      }
    }
  }

  /** Over every run: the window fires at most once for what came and went before it, and never for nothing. */
  lemma WindowFiresForAChange(trace: seq<State>, actions: seq<Action>, i: nat)
    requires IsRelayRun(trace, actions) && i < |actions| && actions[i].FiresWindow?
    ensures exists m: nat :: Pending(trace, actions, m, i)
  {
    hide CanAct, Act;
    assert CanAct(trace[i], actions[i]);
    CountingNext(trace[i], actions[i]);
    CountingIsPending(trace, actions, i);
  }

  /** The window fired at `m`, and what it began has held the lock ever since. */
  ghost predicate Counting(actions: seq<Action>, m: nat, i: nat) {
    && m < i <= |actions| && actions[m].FiresWindow?
    && forall k :: m < k < i ==> actions[k] != Unlocks
  }

  lemma CountsNext(r: State, a: Action)
    requires CanAct(r, a)
    ensures Act(r, a).section.Fanout? && Act(r, a).section.counts ==>
              a.FiresWindow? || (r.section.Fanout? && r.section.counts && a != Unlocks)
    ensures a.NextCount? ==> r.section.Fanout? && r.section.counts
  {
    hide Do, Enabled, FromClient;
  }

  lemma {:induction false} CountsAreOfAWindow(trace: seq<State>, actions: seq<Action>, i: nat)
    requires IsRelayRun(trace, actions) && i < |trace| && trace[i].section.Fanout? && trace[i].section.counts
    ensures exists m: nat :: Counting(actions, m, i)
  {
    hide CanAct, Act;
    if i > 0 {
      var k := i - 1;
      assert CanAct(trace[k], actions[k]) && trace[i] == Act(trace[k], actions[k]);
      CountsNext(trace[k], actions[k]);
      if actions[k].FiresWindow? {
        assert Counting(actions, k, i);
      } else {
        CountsAreOfAWindow(trace, actions, k);
        var m: nat :| Counting(actions, m, k);
        assert Counting(actions, m, i);
      }
    }
  }

  /** Over every run: a count goes out only in the section that the window began. */
  lemma CountsFollowTheWindow(trace: seq<State>, actions: seq<Action>, i: nat)
    requires IsRelayRun(trace, actions) && i < |actions| && actions[i].NextCount?
    ensures exists m: nat :: Counting(actions, m, i)
  {
    hide CanAct, Act;
    assert CanAct(trace[i], actions[i]);
    CountsNext(trace[i], actions[i]);
    CountsAreOfAWindow(trace, actions, i);
  }

  // ---- what holds the lock gets done ------------------------------------------------------------

  /** The next step of what holds the lock. */
  ghost function NextOf(r: State): Action
    requires r.section.Fanout?
  {
    if r.section.sending.Some? then
      var c := r.section.sending.value;
      if c !in r.conns then Unlocks
      else match r.conns[c].socket.sender
        case Admitted(_) => SendMoves(c, SendLocks)
        case Posting => SendMoves(c, SendPosts)
        case Full(_) => SendMoves(c, SendCloses)
        case Idle => SendReturns(c)
    else if r.section.todo != {} then
      var c :| c in r.section.todo;
      SendsTo(c)
    else if r.section.counts && r.changed != {} then
      var topic :| topic in r.changed;
      NextCount(topic, [])
    else Unlocks
  }

  lemma SectionGoesOn(r: State)
    requires RelaySound(r) && r.section.Fanout?
    ensures CanAct(r, NextOf(r))
  {
    hide SocketQueue.Sound, Follows, Registered, Counts, FromBrowsersOnly, Do, Owed;
    if r.section.sending.None? && r.section.todo != {} {
      var c :| c in r.section.todo && NextOf(r) == SendsTo(c);
      assert ConnSound(r, c);
    }
  }

  /** How many steps a send still takes, its return included. */
  function StepsLeft(sender: Sender): nat {
    match sender
    case Admitted(_) => 3
    case Idle => 1
    case _ => 2
  }

  function SendLeft(r: State): nat {
    if r.section.Fanout? && r.section.sending.Some? && r.section.sending.value in r.conns
    then StepsLeft(r.conns[r.section.sending.value].socket.sender)
    else 0
  }

  lemma SendAdvances(s: Socket, step: Step)
    requires Enabled(s, step)
    ensures OfSend(step) && !step.SendBegins? ==> StepsLeft(Do(s, step).sender) < StepsLeft(s.sender)
    ensures !OfSend(step) ==> Do(s, step).sender == s.sender
  {
    hide IsFull, Size;
  }

  lemma SomeLeft(sender: Sender)
    ensures StepsLeft(sender) > 0
  {
  }

  predicate OfSection(a: Action) {
    a.NextCount? || a.SendsTo? || a.SendMoves? || a.SendReturns?
  }

  /** What is left to send: topics still to be counted, then sockets still to be offered the frame, then steps of a send. */
  ghost predicate Less(r': State, r: State)
    requires r.section.Fanout? && r'.section.Fanout?
  {
    || |r'.changed| < |r.changed|
    || (r'.changed == r.changed && |r'.section.todo| < |r.section.todo|)
    || (r'.changed == r.changed && r'.section.todo == r.section.todo && SendLeft(r') < SendLeft(r))
  }

  /** With the lock held each step of what holds it brings it nearer to the end, which is the only way out. */
  lemma SectionEnds(r: State, a: Action)
    requires CanAct(r, a) && r.section.Fanout?
    ensures OfSection(a) ==> Act(r, a).section.Fanout? && Less(Act(r, a), r)
    ensures !OfSection(a) && a != Unlocks ==>
              a.Moves? && Act(r, a).section == r.section && Act(r, a).changed == r.changed && SendLeft(Act(r, a)) == SendLeft(r)
    ensures a == Unlocks ==> Act(r, a) == r.(section := Free)
  {
    hide FromClient, Do, Enabled, StepsLeft, Less;
    if OfSection(a) {
      SectionAdvances(r, a);
    } else if a.Moves? {
      SendAdvances(r.conns[a.c].socket, a.step);
    }
  }

  lemma SectionAdvances(r: State, a: Action)
    requires CanAct(r, a) && r.section.Fanout? && OfSection(a)
    ensures Act(r, a).section.Fanout? && Less(Act(r, a), r)
  {
    hide FromClient, Do, Enabled, StepsLeft;
    match a
    case SendMoves(c, step) => SendAdvances(r.conns[c].socket, step);
    case SendReturns(c) => assert SendLeft(r) > 0 by { SomeLeft(r.conns[c].socket.sender); }
    case NextCount(topic, _) => assert |r.changed - {topic}| < |r.changed|;
    case SendsTo(c) => assert |r.section.todo - {c}| < |r.section.todo|;
  }

  /** Over every run: while the lock is held, what holds it can go on. */
  lemma LockIsReleased(trace: seq<State>, actions: seq<Action>, i: nat)
    requires IsRelayRun(trace, actions) && i < |trace| && trace[i].section.Fanout?
    ensures CanAct(trace[i], NextOf(trace[i])) && (OfSection(NextOf(trace[i])) || NextOf(trace[i]) == Unlocks)
  {
    hide RelaySound, CanAct, Act;
    EveryRelayIsSound(trace, actions, i);
    SectionGoesOn(trace[i]);
  }
}
