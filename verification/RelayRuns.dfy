/**
 Runs of the relay from one moment to another, and the state its object's fields stand for.

 Every section of the object is a run: a join and a leave are one step, a publish and a window are
 a step, a turn for each subscriber, and the unlocking.
 */
module RelayRuns {
  import opened Relay
  import opened RelayOrder
  import opened SocketQueue
  import opened Wrappers

  predicate RunsTo(r: State, actions: seq<Action>, r': State)
    decreases |actions|
  {
    if actions == [] then r == r' else CanAct(r, actions[0]) && RunsTo(Act(r, actions[0]), actions[1..], r')
  }

  ghost predicate Reaches(r: State, r': State) {
    exists actions :: RunsTo(r, actions, r')
  }

  lemma {:induction false} RunsOn(r: State, a: seq<Action>, m: State, b: seq<Action>, r': State)
    requires RunsTo(r, a, m) && RunsTo(m, b, r')
    ensures RunsTo(r, a + b, r')
    decreases |a|
  {
    hide CanAct, Act;
    if a == [] {
      assert a + b == b;
    } else {
      assert (a + b)[1..] == a[1..] + b;
      RunsOn(Act(r, a[0]), a[1..], m, b, r');
    }
  }

  lemma ReachesItself(r: State)
    ensures Reaches(r, r)
  {
    assert RunsTo(r, [], r);
  }

  lemma ReachesThrough(r: State, m: State, r': State)
    requires Reaches(r, m) && Reaches(m, r')
    ensures Reaches(r, r')
  {
    hide RunsTo;
    var a :| RunsTo(r, a, m);
    var b :| RunsTo(m, b, r');
    RunsOn(r, a, m, b, r');
  }

  lemma ReachesNext(r: State, m: State, a: Action)
    requires Reaches(r, m) && CanAct(m, a)
    ensures Reaches(r, Act(m, a))
  {
    hide CanAct, Act;
    var m' := Act(m, a);
    assert RunsTo(m, [a], m') by {
      assert [a][1..] == [];
      assert RunsTo(m', [], m');
    }
    hide RunsTo;
    ReachesThrough(r, m, m');
  }

  // ---- what is reached is a moment of a run ----------------------------------------------

  ghost function Trace(r: State, actions: seq<Action>, r': State): (trace: seq<State>)
    requires RunsTo(r, actions, r')
    ensures |trace| == |actions| + 1 && trace[0] == r && trace[|actions|] == r'
    decreases |actions|
  {
    if actions == [] then [r] else [r] + Trace(Act(r, actions[0]), actions[1..], r')
  }

  lemma {:induction false} TraceSteps(r: State, actions: seq<Action>, r': State, i: nat)
    requires RunsTo(r, actions, r') && i < |actions|
    ensures var trace := Trace(r, actions, r'); CanAct(trace[i], actions[i]) && trace[i + 1] == Act(trace[i], actions[i])
    decreases |actions|
  {
    hide CanAct, Act;
    if i > 0 {
      TraceSteps(Act(r, actions[0]), actions[1..], r', i - 1);
    }
  }

  /** Whatever holds of every run holds of a state that is reached from the start. */
  lemma ReachedIsOfARun(r: State) returns (trace: seq<State>, actions: seq<Action>)
    requires Reaches(START, r)
    ensures IsRelayRun(trace, actions) && trace[|actions|] == r
  {
    hide CanAct, Act, RunsTo;
    actions :| RunsTo(START, actions, r);
    trace := Trace(START, actions, r);
    forall i | 0 <= i < |actions| ensures CanAct(trace[i], actions[i]) && trace[i + 1] == Act(trace[i], actions[i]) {
      TraceSteps(START, actions, r, i);
    }
  }

  lemma RunLength(trace: seq<State>, actions: seq<Action>)
    requires IsRelayRun(trace, actions)
    ensures |trace| == |actions| + 1
  {
  }

  // ---- one subscriber's turn -----------------------------------------------------------------

  /** The state once the send to `c` is over. */
  function AfterTurn(r: State, c: nat, s: Socket): State
    requires c in r.conns && r.section.Fanout?
  {
    WithSocket(r, c, s).(section := r.section.(todo := r.section.todo - {c}, sending := None))
  }

  /** A step of the send under way moves its socket, and nothing else. */
  lemma SendStep(r: State, m: State, c: nat, step: Step)
    requires Reaches(r, m) && m.section.Fanout? && m.section.sending == Some(c) && c in m.conns
    requires OfSend(step) && !step.SendBegins? && Enabled(m.conns[c].socket, step)
    ensures Reaches(r, WithSocket(m, c, Do(m.conns[c].socket, step)))
  {
    hide Reaches, Do, Enabled;
    ReachesNext(r, m, SendMoves(c, step));
  }

  lemma WithTwice(r: State, c: nat, s: Socket, s': Socket)
    requires c in r.conns
    ensures c in WithSocket(r, c, s).conns && WithSocket(r, c, s).conns[c].socket == s
    ensures WithSocket(WithSocket(r, c, s), c, s') == WithSocket(r, c, s')
  {
  }

  /** The steps of a send with nothing between them end where `Offer` says. */
  lemma OfferInSteps(r: State, m: State, c: nat, frame: Outgoing)
    requires c in m.conns && m.section.Fanout? && m.section.sending == Some(c)
    requires m.conns[c].socket.sender.Idle?
    requires Reaches(r, WithSocket(m, c, Do(m.conns[c].socket, SendBegins(frame))))
    ensures Reaches(r, WithSocket(m, c, Offer(m.conns[c].socket, frame))) && Offer(m.conns[c].socket, frame).sender.Idle?
  {
    hide Reaches, WithSocket, IsFull;
    var s := m.conns[c].socket;
    var begun := Begin(s, frame);
    if begun.sender.Admitted? {
      var locked := Enqueue(begun);
      WithTwice(m, c, begun, locked);
      WithKeeps(m, c, begun);
      SendStep(r, WithSocket(m, c, begun), c, SendLocks);
      WithKeeps(m, c, locked);
      var last := if locked.sender.Full? then SendCloses else SendPosts;
      WithTwice(m, c, locked, Do(locked, last));
      SendStep(r, WithSocket(m, c, locked), c, last);
    }
  }

  lemma WithKeeps(r: State, c: nat, s: Socket)
    requires c in r.conns
    ensures var r' := WithSocket(r, c, s); r'.section == r.section && r'.conns.Keys == r.conns.Keys && r'.conns[c].socket == s
  {
  }

  /** A subscriber's turn is a run: the send begins, takes its steps, and returns. */
  lemma TurnIsARun(r: State, m: State, c: nat)
    requires Reaches(r, m) && CanAct(m, SendsTo(c))
    ensures Reaches(r, AfterTurn(m, c, Offer(m.conns[c].socket, m.log[|m.log| - 1])))
  {
    hide Reaches, Offer, Do, WithSocket;
    var frame, s := m.log[|m.log| - 1], m.conns[c].socket;
    ReachesNext(r, m, SendsTo(c));
    var under := m.(section := m.section.(todo := m.section.todo - {c}, sending := Some(c)));
    SectionApart(m, c, Do(s, SendBegins(frame)), under.section);
    OfferInSteps(r, under, c, frame);
    var offered := WithSocket(under, c, Offer(s, frame));
    WithKeeps(under, c, Offer(s, frame));
    ReachesNext(r, offered, SendReturns(c));
    SectionApart(m, c, Offer(s, frame), under.section);
    SectionApart(m, c, Offer(s, frame), under.section.(sending := None));
  }

  lemma SectionApart(r: State, c: nat, s: Socket, section: Section)
    requires c in r.conns
    ensures WithSocket(r, c, s).(section := section) == WithSocket(r.(section := section), c, s)
  {
  }

  // ---- the relay's fields, and the state they stand for ----------------------------------------

  /** Fields of the relay's object, over its sockets' objects; each that ever joined has a number. */
  datatype Fields<C(==)> = Fields(topics: map<string, set<C>>, changed: set<string>, counting: bool, ids: map<C, nat>)

  predicate OneToOne<C>(ids: map<C, nat>) {
    forall c, d :: c in ids && d in ids && ids[c] == ids[d] ==> c == d
  }

  ghost function Numbers<C>(ids: map<C, nat>, conns: set<C>): set<nat> {
    set c | c in conns && c in ids :: ids[c]
  }

  /** The topics by the numbers of their subscribers. */
  ghost function Numbered<C>(ids: map<C, nat>, topics: map<string, set<C>>): map<string, set<nat>> {
    map t | t in topics :: Numbers(ids, topics[t])
  }

  predicate MembersJoined<C>(topics: map<string, set<C>>, ids: map<C, nat>) {
    forall t :: t in topics ==> topics[t] <= ids.Keys && topics[t] != {}
  }

  ghost predicate SocketsAre<C>(ids: map<C, nat>, sockets: map<C, Socket>, conns: map<nat, Conn>) {
    && OneToOne(ids) && ids.Values == conns.Keys && sockets.Keys == ids.Keys
    && forall c :: c in ids ==> conns[ids[c]].socket == sockets[c]
  }

  ghost predicate FieldsAre<C>(f: Fields<C>, r: State) {
    && r.topics == Numbered(f.ids, f.topics) && r.changed == f.changed && r.counting == f.counting
    && MembersJoined(f.topics, f.ids)
  }

  /** The fields and the sockets stand for a state, and it is reached from that one. */
  ghost predicate Stands<C>(f: Fields<C>, sockets: map<C, Socket>, from: State, r: State) {
    FieldsAre(f, r) && SocketsAre(f.ids, sockets, r.conns) && Reaches(from, r)
  }

  lemma StandsThrough<C>(f: Fields<C>, sockets: map<C, Socket>, first: State, from: State, r: State)
    requires Stands(f, sockets, from, r) && Reaches(first, from)
    ensures Stands(f, sockets, first, r)
  {
    hide Reaches, FieldsAre, SocketsAre;
    ReachesThrough(first, from, r);
  }

  lemma StandsNow<C>(f: Fields<C>, sockets: map<C, Socket>, from: State, r: State)
    requires Stands(f, sockets, from, r)
    ensures Stands(f, sockets, r, r) && Reaches(from, r)
  {
    hide FieldsAre, SocketsAre;
    ReachesItself(r);
  }

  lemma NothingStands<C>()
    ensures var f: Fields<C> := Fields(map[], {}, false, map[]); Stands(f, map[], START, START)
  {
    ReachesItself(START);
  }

  lemma MembersStand<C>(f: Fields<C>, sockets: map<C, Socket>, from: State, r: State)
    requires Stands(f, sockets, from, r)
    ensures forall t :: t in f.topics ==> f.topics[t] <= f.ids.Keys && f.topics[t] != {}
  {
    hide Reaches, Numbered, SocketsAre;
  }

  lemma NumberStands<C>(f: Fields<C>, sockets: map<C, Socket>, from: State, r: State, c: C)
    requires Stands(f, sockets, from, r) && c in f.ids
    ensures f.ids[c] in r.conns && c in sockets && r.conns[f.ids[c]].socket == sockets[c]
  {
    hide Reaches, FieldsAre;
  }

  /** The step may be taken, and leads there. */
  predicate Acts(r: State, a: Action, r': State) {
    CanAct(r, a) && r' == Act(r, a)
  }

  lemma ActsReach(from: State, r: State, a: Action, r': State)
    requires Reaches(from, r) && Acts(r, a, r')
    ensures Reaches(from, r')
  {
    hide Reaches, CanAct, Act;
    ReachesNext(from, r, a);
  }

  // ---- joining and leaving -----------------------------------------------------------------------

  lemma NumbersLess<C>(ids: map<C, nat>, conns: set<C>, c: C)
    requires OneToOne(ids) && c in ids && conns <= ids.Keys
    ensures Numbers(ids, conns - {c}) == Numbers(ids, conns) - {ids[c]}
  {
  }

  lemma {:induction false} NumbersCount<C>(ids: map<C, nat>, conns: set<C>)
    requires OneToOne(ids) && conns <= ids.Keys
    ensures |Numbers(ids, conns)| == |conns|
    decreases conns
  {
    if conns == {} {
      assert Numbers(ids, conns) == {};
    } else {
      var c :| c in conns;
      NumbersLess(ids, conns, c);
      NumbersCount(ids, conns - {c});
      hide OneToOne;
      assert ids[c] in Numbers(ids, conns);
    }
  }

  /** A socket that has not joined is in no topic: its number adds nothing there. */
  lemma NumbersJoin<C>(ids: map<C, nat>, conns: set<C>, c: C, id: nat)
    requires c !in ids && conns <= ids.Keys
    ensures Numbers(ids[c := id], conns) == Numbers(ids, conns)
    ensures Numbers(ids[c := id], conns + {c}) == Numbers(ids, conns) + {id}
  {
    var after := ids[c := id];
    assert after[c] == id && c in conns + {c};
    forall n ensures n in Numbers(after, conns + {c}) <==> n in Numbers(ids, conns) + {id} {
      if n in Numbers(ids, conns) {
        var d :| d in conns && d in ids && ids[d] == n;
        assert d in conns + {c} && after[d] == n;
      }
    }
    forall n ensures n in Numbers(after, conns) <==> n in Numbers(ids, conns) {
      if n in Numbers(ids, conns) {
        var d :| d in conns && d in ids && ids[d] == n;
        assert after[d] == n;
      }
    }
  }

  lemma JoinIsNumbered<C>(ids: map<C, nat>, topics: map<string, set<C>>, c: C, id: nat, held: set<string>)
    requires c !in ids && MembersJoined(topics, ids)
    ensures Numbered(ids[c := id], Subscribed(topics, c, held)) == Subscribed(Numbered(ids, topics), id, held)
  {
    hide Numbers, MembersJoined;
    var a, b := Numbered(ids[c := id], Subscribed(topics, c, held)), Subscribed(Numbered(ids, topics), id, held);
    assert a.Keys == b.Keys;
    forall t | t in a ensures a[t] == b[t] {
      JoinInTopic(ids, topics, c, id, t);
    }
  }

  lemma JoinInTopic<C>(ids: map<C, nat>, topics: map<string, set<C>>, c: C, id: nat, t: string)
    requires c !in ids && MembersJoined(topics, ids)
    ensures Numbers(ids[c := id], Subs(topics, t) + {c}) == Subs(Numbered(ids, topics), t) + {id}
    ensures t in topics ==> Numbers(ids[c := id], topics[t]) == Numbered(ids, topics)[t]
  {
    NumbersJoin(ids, Subs(topics, t), c, id);
    if t !in topics {
      assert Numbers(ids, {}) == {};
    }
  }

  lemma LeaveIsNumbered<C>(ids: map<C, nat>, topics: map<string, set<C>>, c: C, held: set<string>)
    requires c in ids && OneToOne(ids) && MembersJoined(topics, ids)
    ensures Numbered(ids, Unsubscribed(topics, c, held)) == Unsubscribed(Numbered(ids, topics), ids[c], held)
  {
    hide Numbers, OneToOne;
    var a, b := Numbered(ids, Unsubscribed(topics, c, held)), Unsubscribed(Numbered(ids, topics), ids[c], held);
    forall t | t in topics
      ensures t in a <==> t in b
      ensures t in a ==> a[t] == b[t]
    {
      LeaveInTopic(ids, topics[t], c);
    }
    assert a.Keys == b.Keys;
  }

  lemma LeaveInTopic<C>(ids: map<C, nat>, conns: set<C>, c: C)
    requires c in ids && OneToOne(ids) && conns <= ids.Keys
    ensures Numbers(ids, conns - {c}) == Numbers(ids, conns) - {ids[c]}
    ensures conns - {c} == {} <==> Numbers(ids, conns) - {ids[c]} == {}
  {
    NumbersLess(ids, conns, c);
    hide OneToOne;
    if conns - {c} != {} {
      var d :| d in conns - {c};
      assert ids[d] in Numbers(ids, conns - {c});
    } else {
      assert Numbers(ids, {}) == {};
    }
  }

  lemma SocketJoins<C>(ids: map<C, nat>, sockets: map<C, Socket>, conns: map<nat, Conn>, c: C, id: nat, conn: Conn)
    requires SocketsAre(ids, sockets, conns) && c !in ids && id !in conns
    ensures SocketsAre(ids[c := id], sockets[c := conn.socket], conns[id := conn])
  {
    var after := ids[c := id];
    assert after.Values == conns.Keys + {id} by {
      assert after[c] == id;
      forall d | d in ids ensures ids[d] in after.Values {
        assert after[d] == ids[d];
      }
    }
  }

  function Joined<C(==)>(f: Fields<C>, c: C, id: nat, held: set<string>): Fields<C> {
    f.(topics := Subscribed(f.topics, c, held), changed := f.changed + held,
       counting := f.counting || f.changed + held != {}, ids := f.ids[c := id])
  }

  lemma JoinActs(r: State, id: nat, held: set<string>)
    requires r.section.Free? && id !in r.conns
    ensures Acts(r, Joins(id, held), Join(r, id, held))
    ensures var r' := Join(r, id, held);
            && r'.section.Free? && r'.topics == Subscribed(r.topics, id, held)
            && r'.changed == r.changed + held && r'.counting == (r.counting || r.changed + held != {})
            && r'.conns == r.conns[id := Conn(held, |r.log|, None, FRESH)]
  {
    hide Subscribed;
  }

  lemma MembersJoin<C>(topics: map<string, set<C>>, ids: map<C, nat>, c: C, id: nat, held: set<string>)
    requires MembersJoined(topics, ids)
    ensures MembersJoined(Subscribed(topics, c, held), ids[c := id])
  {
  }

  /** A join is the state's step. */
  lemma JoinStands<C>(f: Fields<C>, sockets: map<C, Socket>, from: State, r: State, c: C, id: nat, held: set<string>)
    requires Stands(f, sockets, from, r) && r.section.Free? && c !in f.ids && id !in r.conns
    ensures Acts(r, Joins(id, held), Join(r, id, held))
    ensures Stands(Joined(f, c, id, held), sockets[c := FRESH], from, Join(r, id, held)) && Join(r, id, held).section.Free?
  {
    hide Acts, Join, Reaches, Numbered, Subscribed, SocketsAre, MembersJoined;
    JoinActs(r, id, held);
    ActsReach(from, r, Joins(id, held), Join(r, id, held));
    JoinIsNumbered(f.ids, f.topics, c, id, held);
    SocketJoins(f.ids, sockets, r.conns, c, id, Conn(held, |r.log|, None, FRESH));
    MembersJoin(f.topics, f.ids, c, id, held);
  }

  function LeftFields<C(==)>(f: Fields<C>, c: C, held: set<string>): Fields<C> {
    f.(topics := Unsubscribed(f.topics, c, held), changed := f.changed + held, counting := f.counting || f.changed + held != {})
  }

  lemma LeaveActs(r: State, id: nat)
    requires r.section.Free? && id in r.conns && r.conns[id].left.None? && r.conns[id].socket.quit
    ensures Acts(r, Leaves(id), Leave(r, id))
    ensures var r', held := Leave(r, id), r.conns[id].topics;
            && r'.section.Free? && r'.topics == Unsubscribed(r.topics, id, held)
            && r'.changed == r.changed + held && r'.counting == (r.counting || r.changed + held != {})
            && r'.conns == r.conns[id := r.conns[id].(left := Some(|r.log|))]
  {
    hide Unsubscribed;
  }

  lemma MembersLeave<C>(topics: map<string, set<C>>, ids: map<C, nat>, c: C, held: set<string>)
    requires MembersJoined(topics, ids)
    ensures MembersJoined(Unsubscribed(topics, c, held), ids)
  {
  }

  lemma SocketLeaves<C>(ids: map<C, nat>, sockets: map<C, Socket>, conns: map<nat, Conn>, id: nat, left: nat)
    requires SocketsAre(ids, sockets, conns) && id in conns
    ensures SocketsAre(ids, sockets, conns[id := conns[id].(left := Some(left))])
  {
  }

  /** A leave is the state's step. */
  lemma LeaveStands<C>(f: Fields<C>, sockets: map<C, Socket>, from: State, r: State, c: C)
    requires Stands(f, sockets, from, r) && r.section.Free? && c in f.ids && f.ids[c] in r.conns && c in sockets
    requires sockets[c].quit && r.conns[f.ids[c]].left.None?
    ensures Acts(r, Leaves(f.ids[c]), Leave(r, f.ids[c]))
    ensures Stands(LeftFields(f, c, r.conns[f.ids[c]].topics), sockets, from, Leave(r, f.ids[c])) && Leave(r, f.ids[c]).section.Free?
  {
    assert r.conns[f.ids[c]].socket == sockets[c] && OneToOne(f.ids);
    hide Acts, Leave, Reaches, Numbered, Unsubscribed, SocketsAre, MembersJoined, OneToOne;
    var id, held := f.ids[c], r.conns[f.ids[c]].topics;
    LeaveActs(r, id);
    ActsReach(from, r, Leaves(id), Leave(r, id));
    LeaveIsNumbered(f.ids, f.topics, c, held);
    MembersLeave(f.topics, f.ids, c, held);
    SocketLeaves(f.ids, sockets, r.conns, id, |r.log|);
  }

  lemma MoveActs(r: State, id: nat, step: Step)
    requires id in r.conns && !OfSend(step) && Enabled(r.conns[id].socket, step)
    ensures Acts(r, Moves(id, step), WithSocket(r, id, Do(r.conns[id].socket, step)))
  {
    hide Do, Enabled;
  }

  lemma SocketMoved<C>(f: Fields<C>, sockets: map<C, Socket>, r: State, c: C, s: Socket)
    requires FieldsAre(f, r) && SocketsAre(f.ids, sockets, r.conns) && c in f.ids
    ensures f.ids[c] in r.conns
    ensures var r' := WithSocket(r, f.ids[c], s);
            FieldsAre(f, r') && SocketsAre(f.ids, sockets[c := s], r'.conns) && r'.section == r.section
  {
    hide Numbered, MembersJoined;
  }

  /** A socket's own step is the state's. */
  lemma MoveStands<C>(f: Fields<C>, sockets: map<C, Socket>, from: State, r: State, c: C, step: Step)
    requires Stands(f, sockets, from, r) && r.section.Free? && c in f.ids && f.ids[c] in r.conns && c in sockets
    requires !OfSend(step) && Enabled(sockets[c], step)
    ensures var r' := WithSocket(r, f.ids[c], Do(sockets[c], step));
            Acts(r, Moves(f.ids[c], step), r') && Stands(f, sockets[c := Do(sockets[c], step)], from, r') && r'.section.Free?
  {
    assert r.conns[f.ids[c]].socket == sockets[c];
    hide Reaches, FieldsAre, SocketsAre, Do, Enabled, WithSocket, Acts;
    var s := Do(sockets[c], step);
    MoveActs(r, f.ids[c], step);
    ActsReach(from, r, Moves(f.ids[c], step), WithSocket(r, f.ids[c], s));
    SocketMoved(f, sockets, r, c, s);
  }

  // ---- a fan-out ------------------------------------------------------------------------------------

  /** A fan-out of the last event in the log is under way, with these subscribers before it. */
  ghost predicate FansTo<C>(f: Fields<C>, sockets: map<C, Socket>, from: State, r: State, frame: Outgoing, todo: set<C>, counts: bool) {
    && Stands(f, sockets, from, r) && r.section == Fanout(Numbers(f.ids, todo), None, counts)
    && r.log != [] && r.log[|r.log| - 1] == frame
  }

  /** Nobody is left before it. */
  ghost predicate Halts<C>(f: Fields<C>, sockets: map<C, Socket>, from: State, r: State, counts: bool) {
    Stands(f, sockets, from, r) && r.section == Fanout({}, None, counts)
  }

  lemma MembersHalt<C>(f: Fields<C>, sockets: map<C, Socket>, from: State, r: State, counts: bool)
    requires Halts(f, sockets, from, r, counts)
    ensures forall t :: t in f.topics ==> f.topics[t] <= f.ids.Keys && f.topics[t] != {}
  {
    MembersStand(f, sockets, from, r);
  }

  lemma DoneHalts<C>(f: Fields<C>, sockets: map<C, Socket>, from: State, r: State, frame: Outgoing, counts: bool)
    requires FansTo(f, sockets, from, r, frame, {}, counts)
    ensures Halts(f, sockets, from, r, counts)
  {
    hide Stands;
    assert Numbers(f.ids, {}) == {};
  }

  lemma StartStands<C>(f: Fields<C>, sockets: map<C, Socket>, from: State, r: State, frame: Outgoing, counts: bool)
    requires FieldsAre(f, r) && SocketsAre(f.ids, sockets, r.conns) && Reaches(from, StartFanout(r, frame, counts))
    ensures FansTo(f, sockets, from, StartFanout(r, frame, counts), frame, Subs(f.topics, frame.topic), counts)
  {
    hide Reaches, SocketsAre, MembersJoined;
    if frame.topic !in f.topics {
      assert Numbers(f.ids, {}) == {};
    }
  }

  lemma PublishStands<C>(f: Fields<C>, sockets: map<C, Socket>, from: State, r: State, frame: Outgoing, act: Action)
    requires Stands(f, sockets, from, r) && Acts(r, act, StartFanout(r, frame, false))
    ensures FansTo(f, sockets, from, StartFanout(r, frame, false), frame, Subs(f.topics, frame.topic), false)
    ensures StartFanout(r, frame, false).log == r.log + [frame]
  {
    assert StartFanout(r, frame, false).log == r.log + [frame];
    hide Reaches, Acts, SocketsAre, FieldsAre, StartFanout, FansTo;
    ActsReach(from, r, act, StartFanout(r, frame, false));
    StartStands(f, sockets, from, r, frame, false);
  }

  /** The window fires: the lock is taken for its counts. */
  function Fired(r: State): State {
    r.(counting := false, section := Fanout({}, None, true))
  }

  lemma WindowStands<C>(f: Fields<C>, sockets: map<C, Socket>, from: State, r: State)
    requires Stands(f, sockets, from, r) && r.section.Free? && f.counting
    ensures Acts(r, FiresWindow, Fired(r)) && Halts(f.(counting := false), sockets, from, Fired(r), true)
    ensures Fired(r).log == r.log
  {
    hide Reaches, Numbered;
    ActsReach(from, r, FiresWindow, Fired(r));
    assert SocketsAre(f.ids, sockets, Fired(r).conns);
  }

  /** The count that goes out is the number of the topic's subscribers. */
  lemma CountStands<C>(f: Fields<C>, sockets: map<C, Socket>, from: State, r: State, topic: string, frame: Outgoing)
    requires Halts(f, sockets, from, r, true) && topic in f.changed
    requires frame == Outgoing(topic, COUNT_EVENT, Window(|Subs(f.topics, topic)|), frame.bytes)
    ensures var r' := StartFanout(r.(changed := r.changed - {topic}), frame, true);
            && Acts(r, NextCount(topic, frame.bytes), r')
            && FansTo(f.(changed := f.changed - {topic}), sockets, from, r', frame, Subs(f.topics, topic), true)
            && r'.log == r.log + [frame]
  {
    hide Reaches, Numbers;
    var before := r.(changed := r.changed - {topic});
    var r' := StartFanout(before, frame, true);
    SameCount(f, sockets, from, r, topic);
    assert Acts(r, NextCount(topic, frame.bytes), r');
    ActsReach(from, r, NextCount(topic, frame.bytes), r');
    hide Acts, StartFanout, OneToOne, MembersJoined, FansTo, Numbered;
    StartStands(f.(changed := f.changed - {topic}), sockets, from, before, frame, true);
  }

  lemma SameCount<C>(f: Fields<C>, sockets: map<C, Socket>, from: State, r: State, topic: string)
    requires Stands(f, sockets, from, r)
    ensures |Subs(r.topics, topic)| == |Subs(f.topics, topic)|
  {
    hide Reaches;
    if topic in f.topics {
      NumbersCount(f.ids, f.topics[topic]);
    }
  }

  lemma UnlockStands<C>(f: Fields<C>, sockets: map<C, Socket>, from: State, r: State, counts: bool)
    requires Halts(f, sockets, from, r, counts) && (counts ==> f.changed == {})
    ensures Acts(r, Unlocks, Act(r, Unlocks)) && Stands(f, sockets, from, Act(r, Unlocks)) && Act(r, Unlocks).section.Free?
    ensures Act(r, Unlocks).log == r.log
  {
    hide Reaches, Numbered;
    var r' := Act(r, Unlocks);
    ActsReach(from, r, Unlocks, r');
    assert SocketsAre(f.ids, sockets, r'.conns);
  }

  /** One subscriber's turn leaves the others before the fan-out. */
  lemma TurnStands<C>(f: Fields<C>, sockets: map<C, Socket>, from: State, r: State, frame: Outgoing, todo: set<C>, counts: bool, c: C)
    requires FansTo(f, sockets, from, r, frame, todo, counts) && c in todo && todo <= f.ids.Keys
    requires sockets[c].sender.Idle?
    ensures f.ids[c] in r.conns && r.section.Fanout?
    ensures var r' := AfterTurn(r, f.ids[c], Offer(sockets[c], frame));
            FansTo(f, sockets[c := Offer(sockets[c], frame)], from, r', frame, todo - {c}, counts) && r'.log == r.log
  {
    hide Reaches, Numbered, Offer;
    var id, s := f.ids[c], Offer(sockets[c], frame);
    var r' := AfterTurn(r, id, s);
    assert id in Numbers(f.ids, todo);
    assert CanAct(r, SendsTo(id));
    TurnIsARun(from, r, id);
    hide CanAct;
    NumbersLess(f.ids, todo, c);
    hide Numbers;
    TurnKeepsOthers(f.ids, sockets, r, c, s);
  }

  lemma TurnKeepsOthers<C>(ids: map<C, nat>, sockets: map<C, Socket>, r: State, c: C, s: Socket)
    requires SocketsAre(ids, sockets, r.conns) && c in ids && r.section.Fanout?
    ensures SocketsAre(ids, sockets[c := s], AfterTurn(r, ids[c], s).conns)
  {
  }
}
