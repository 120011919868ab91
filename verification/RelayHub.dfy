/**
 `wsRelay` (ws_relay.go): the object behind the relay's lock.

 One method a section, and the loops over topics and subscribers inside them, each proved to be a
 run of the relay's state machine: what its fields stand for is a state that is reached from the
 start, whose theorems then hold of the object. A subscriber is a socket's object.
 */
module RelayHub {
  import opened Relay
  import opened RelayOrder
  import opened RelayRuns
  import opened SocketConn
  import opened SocketQueue
  import opened Utf8
  import opened Wrappers

  function Listed(topics: seq<string>): set<string> {
    set t | t in topics
  }

  /** The frames offered to a socket one after the other. */
  function OfferAll(s: Socket, frames: seq<Outgoing>): Socket {
    if frames == [] then s else Offer(OfferAll(s, frames[..|frames| - 1]), frames[|frames| - 1])
  }

  lemma OfferAllNext(s: Socket, frames: seq<Outgoing>, frame: Outgoing)
    ensures OfferAll(s, frames + [frame]) == Offer(OfferAll(s, frames), frame)
  {
    assert (frames + [frame])[..|frames|] == frames;
  }

  lemma OfferIsIdle(s: Socket, frame: Outgoing)
    requires s.sender.Idle?
    ensures Offer(s, frame).sender.Idle?
  {
  }

  /** The sockets as they are now. */
  ghost function SocketsOf(conns: set<WsConn>): map<WsConn, Socket>
    reads conns
  {
    map c | c in conns :: c.socket
  }

  /** Every socket offered the frame that is among these, and no other. */
  ghost function Offered(sockets: map<WsConn, Socket>, to: set<WsConn>, frame: Outgoing): map<WsConn, Socket> {
    map c | c in sockets :: if c in to then Offer(sockets[c], frame) else sockets[c]
  }

  lemma OfferedToNone(sockets: map<WsConn, Socket>, frame: Outgoing)
    ensures Offered(sockets, {}, frame) == sockets
  {
  }

  lemma OfferedToNext(sockets: map<WsConn, Socket>, to: set<WsConn>, frame: Outgoing, c: WsConn)
    requires c in sockets && c !in to
    ensures Offered(sockets, to, frame)[c] == sockets[c]
    ensures Offered(sockets, to + {c}, frame) == Offered(sockets, to, frame)[c := Offer(sockets[c], frame)]
  {
    hide Offer;
  }

  lemma SocketsHave(conns: set<WsConn>)
    ensures SocketsOf(conns).Keys == conns
  {
  }

  lemma SocketIs(conns: set<WsConn>, c: WsConn)
    requires c in conns
    ensures SocketsOf(conns).Keys == conns && SocketsOf(conns)[c] == c.socket
  {
  }

  class WsRelay {
    const encode: (string, nat) -> seq<Byte>      // a count as it goes out
    var topics: map<string, set<WsConn>>
    var changed: set<string>
    var counting: bool
    ghost var ids: map<WsConn, nat>               // every socket that ever joined, and its number
    ghost var state: State                        // what the fields stand for, with its sockets and its log

    ghost function Now(): Fields<WsConn>
      reads this
    {
      Fields(topics, changed, counting, ids)
    }

    /** No socket is in the middle of a send. */
    ghost predicate AllReady()
      reads this, ids.Keys
    {
      forall c :: c in ids ==> Ready(c)
    }

    /** The fields and the sockets stand for a state reached from the start, and the lock is free. */
    ghost predicate Valid()
      reads this, ids.Keys
    {
      Stands(Now(), SocketsOf(ids.Keys), START, state) && state.section.Free? && AllReady()
    }

    constructor (encode: (string, nat) -> seq<Byte>)
      ensures this.encode == encode && topics == map[] && changed == {} && !counting
      ensures Valid() && state == START && ids == map[]
    {
      this.encode := encode;
      topics, changed, counting := map[], {}, false;
      ids, state := map[], START;
      new;
      NothingStands<WsConn>();
      assert SocketsOf(ids.Keys) == map[];
    }

    /** A socket has made a step of its own: its writer's, its reader's, or an ending's. */
    ghost method Observe(c: WsConn, before: Socket, step: Step)
      requires c in ids && Stands(Now(), SocketsOf(ids.Keys)[c := before], START, state) && state.section.Free? && AllReady()
      requires !OfSend(step) && Enabled(before, step) && c.socket == Do(before, step)
      modifies this`state
      ensures Valid() && ids[c] in old(state).conns && Acts(old(state), Moves(ids[c], step), state)
    {
      hide Do, Enabled, Stands, Acts, Ready, WithSocket;
      NumberStands(Now(), SocketsOf(ids.Keys)[c := before], START, state, c);
      MoveStands(Now(), SocketsOf(ids.Keys)[c := before], START, state, c, step);
      assert SocketsOf(ids.Keys)[c := before][c := c.socket] == SocketsOf(ids.Keys);
      state := WithSocket(state, ids[c], Do(before, step));
    }

    /** One order end to end, of the objects as they are: what is on a socket's wire, and its topic's log. */
    lemma InOrder(c: WsConn, t: string)
      requires Valid() && c in ids && ids[c] in state.conns && t in state.conns[ids[c]].topics
      ensures var conn := state.conns[ids[c]];
              && conn.joined <= |state.log|
              && OnWire(c.socket.wire) <= c.socket.accepted
              && OnTopics(c.socket.accepted, {t}) <= OnTopics(state.log[conn.joined..], {t})
    {
      NumberStands(Now(), SocketsOf(ids.Keys), START, state, c);
      StandsNow(Now(), SocketsOf(ids.Keys), START, state);
      hide Stands, Ready, Reaches, OnTopics, OnWire, IsRelayRun;
      var trace, actions := ReachedIsOfARun(state);
      RunLength(trace, actions);
      OneOrderPerTopic(trace, actions, |actions|, ids[c], t);
    }

    /** `countSoon`: the window is armed, once. */
    method CountSoon()
      modifies this`counting
      ensures counting == (old(counting) || changed != {})
    {
      if counting || changed == {} {
        return;
      }
      counting := true;
    }

    method Subscribe(c: WsConn, held: seq<string>)
      modifies this`topics, this`changed, this`counting
      ensures topics == Subscribed(old(topics), c, Listed(held))
      ensures changed == old(changed) + Listed(held)
      ensures counting == (old(counting) || changed != {})
    {
      SubscribedNone(topics, c);
      for i := 0 to |held|
        invariant topics == Subscribed(old(topics), c, Listed(held[..i]))
        invariant changed == old(changed) + Listed(held[..i]) && counting == old(counting)
      {
        ListedNext(held, i);
        var topic := held[i];
        SubscribedNext(old(topics), c, Listed(held[..i]), topic);
        var subs := Subs(topics, topic);
        topics := topics[topic := subs + {c}];
        changed := changed + {topic};
      }
      assert held[..|held|] == held;
      CountSoon();
    }

    /** `join`, a step of the relay; `id` is the number the socket will go by. */
    method JoinTopics(c: WsConn, held: seq<string>, ghost id: nat)
      requires Valid() && Ready(c) && c.socket == FRESH && c !in ids && id !in state.conns
      modifies this
      ensures topics == Subscribed(old(topics), c, Listed(held))
      ensures changed == old(changed) + Listed(held)
      ensures counting == (old(counting) || changed != {})
      ensures Valid() && ids == old(ids)[c := id] && Acts(old(state), Joins(id, Listed(held)), state)
    {
      hide Stands, Ready, Subscribed, Acts, Join, Listed;
      JoinStands(Now(), SocketsOf(ids.Keys), START, state, c, id, Listed(held));
      Subscribe(c, held);
      ids := ids[c := id];
      state := Join(state, id, Listed(held));
      assert SocketsOf(ids.Keys) == SocketsOf(old(ids).Keys)[c := FRESH];
    }

    method Unsubscribe(c: WsConn, held: seq<string>)
      requires forall t :: t in topics ==> topics[t] != {}
      modifies this`topics, this`changed, this`counting
      ensures topics == Unsubscribed(old(topics), c, Listed(held))
      ensures changed == old(changed) + Listed(held)
      ensures counting == (old(counting) || changed != {})
    {
      UnsubscribedNone(topics, c);
      for i := 0 to |held|
        invariant topics == Unsubscribed(old(topics), c, Listed(held[..i]))
        invariant changed == old(changed) + Listed(held[..i]) && counting == old(counting)
      {
        ListedNext(held, i);
        var topic := held[i];
        UnsubscribedNext(old(topics), c, Listed(held[..i]), topic);
        var subs := Subs(topics, topic) - {c};
        if subs == {} {
          topics := topics - {topic};
        } else {
          topics := topics[topic := subs];
        }
        changed := changed + {topic};
      }
      assert held[..|held|] == held;
      CountSoon();
    }

    /** `leave`, a step of the relay: the socket has ended, and held these topics. */
    method LeaveTopics(c: WsConn, held: seq<string>)
      requires Valid() && c in ids && c.socket.quit && ids[c] in state.conns
      requires state.conns[ids[c]].topics == Listed(held) && state.conns[ids[c]].left.None?
      modifies this
      ensures topics == Unsubscribed(old(topics), c, Listed(held))
      ensures changed == old(changed) + Listed(held)
      ensures counting == (old(counting) || changed != {})
      ensures Valid() && ids == old(ids) && Acts(old(state), Leaves(ids[c]), state)
    {
      hide Stands, Ready, Unsubscribed, Acts, Leave, Listed;
      MembersStand(Now(), SocketsOf(ids.Keys), START, state);
      LeaveStands(Now(), SocketsOf(ids.Keys), START, state, c);
      Unsubscribe(c, held);
      state := Leave(state, ids[c]);
    }

    /** One subscriber's turn; a send never waits. */
    method SendOne(frame: Outgoing, c: WsConn, ghost from: State, ghost todo: set<WsConn>, ghost counts: bool)
      requires FansTo(Now(), SocketsOf(ids.Keys), from, state, frame, todo, counts) && AllReady() && c in todo && todo <= ids.Keys
      modifies c, this`state
      ensures FansTo(Now(), SocketsOf(ids.Keys), from, state, frame, todo - {c}, counts) && AllReady()
      ensures SocketsOf(ids.Keys) == old(SocketsOf(ids.Keys))[c := Offer(old(c.socket), frame)] && state.log == old(state).log
    {
      hide Offer, SocketQueue.Sound, FansTo, AfterTurn;
      ghost var sockets := SocketsOf(ids.Keys);
      OfferIsIdle(c.socket, frame);
      TurnStands(Now(), sockets, from, state, frame, todo, counts, c);
      var sent := c.Send(frame);
      state := AfterTurn(state, ids[c], c.socket);
      assert SocketsOf(ids.Keys) == sockets[c := c.socket];
    }

    /** The loop over a topic's subscribers, under the lock. */
    method FanOut(frame: Outgoing, ghost from: State, ghost counts: bool)
      requires FansTo(Now(), SocketsOf(ids.Keys), from, state, frame, Subs(topics, frame.topic), counts) && AllReady()
      requires Subs(topics, frame.topic) <= ids.Keys
      modifies Subs(topics, frame.topic), this`state
      ensures SocketsOf(ids.Keys) == Offered(old(SocketsOf(ids.Keys)), Subs(topics, frame.topic), frame)
      ensures AllReady() && Halts(Now(), SocketsOf(ids.Keys), from, state, counts) && state.log == old(state).log
    {
      hide Offer, Ready, FansTo, Halts, Offered, SocketsOf;
      var subs := Subs(topics, frame.topic);
      var todo := subs;
      ghost var before := SocketsOf(ids.Keys);
      OfferedToNone(before, frame);
      SocketsHave(ids.Keys);
      assert subs - todo == {};
      while todo != {}
        invariant todo <= subs && AllReady() && state.log == old(state).log
        invariant FansTo(Now(), SocketsOf(ids.Keys), from, state, frame, todo, counts)
        invariant SocketsOf(ids.Keys) == Offered(before, subs - todo, frame)
        decreases todo
      {
        var c :| c in todo;
        SocketIs(ids.Keys, c);
        OfferedToNext(before, subs - todo, frame, c);
        SendOne(frame, c, from, todo, counts);
        assert subs - (todo - {c}) == (subs - todo) + {c};
        todo := todo - {c};
      }
      assert subs - todo == subs;
      DoneHalts(Now(), SocketsOf(ids.Keys), from, state, frame, counts);
    }

    /** `publishFrame`, a run of the relay: one event to every subscriber of its topic, nothing to another. */
    method PublishFrame(frame: Outgoing, ghost act: Action)
      requires Valid() && Acts(state, act, StartFanout(state, frame, false))
      modifies Subs(topics, frame.topic), this`state
      ensures SocketsOf(ids.Keys) == Offered(old(SocketsOf(ids.Keys)), Subs(topics, frame.topic), frame)
      ensures Valid() && Reaches(old(state), state) && state.log == old(state).log + [frame]
    {
      hide Offer, Ready, Stands, FansTo, Halts, Acts, SocketsOf, Offered, StartFanout, Reaches;
      ghost var from := state;
      StandsNow(Now(), SocketsOf(ids.Keys), START, from);
      MembersStand(Now(), SocketsOf(ids.Keys), from, from);
      PublishStands(Now(), SocketsOf(ids.Keys), from, from, frame, act);
      state := StartFanout(state, frame, false);
      FanOut(frame, from, false);
      Unlock(from, false);
      StandsNow(Now(), SocketsOf(ids.Keys), from, state);
      StandsThrough(Now(), SocketsOf(ids.Keys), START, from, state);
    }

    /** `fromClient`: what a browser sent is published where it may be, and dropped in silence where not. */
    method FromBrowser(id: nat, held: seq<string>, m: Option<ClientMessage>, allowed: bool) returns (published: bool)
      requires Valid() && id in state.conns && state.conns[id].topics == Listed(held)
      modifies ids.Keys, this`state
      ensures published <==> allowed && exists topic, event :: Publishes(old(state).conns[id].topics, m, topic, event)
      ensures Valid() && Reaches(old(state), state)
      ensures !published ==> state == old(state) && SocketsOf(ids.Keys) == old(SocketsOf(ids.Keys))
      ensures published ==> exists topic, event ::
                && Publishes(old(state).conns[id].topics, m, topic, event)
                && state.log == old(state).log + [Outgoing(topic, event, Browser(id), m.value.bytes)]
                && SocketsOf(ids.Keys) == Offered(old(SocketsOf(ids.Keys)), Subs(topics, topic),
                                                  Outgoing(topic, event, Browser(id), m.value.bytes))
    {
      MayBeRelayed(id, held, m);
      hide Ready, Stands, SocketsOf, Offered, StartFanout, Reaches, Publishes, Acts, Listed;
      ReachesItself(state);
      published := false;
      if m.None? || m.value.topic.None? || m.value.lone || m.value.topic.value !in held {
        return;
      }
      if m.value.event.None? || m.value.event.value == COUNT_EVENT {
        return;
      }
      if !allowed {
        return;
      }
      var frame := Outgoing(m.value.topic.value, m.value.event.value, Browser(id), m.value.bytes);
      PublishFrame(frame, Relays(id, m, true));
      published := true;
    }

    /** Nothing but these tests decides: they are the state's own. */
    lemma MayBeRelayed(id: nat, held: seq<string>, m: Option<ClientMessage>)
      requires state.section.Free? && id in state.conns && state.conns[id].topics == Listed(held)
      ensures m.None? || m.value.topic.None? || m.value.lone || m.value.topic.value !in held
              || m.value.event.None? || m.value.event.value == COUNT_EVENT ==>
                forall topic, event :: !Publishes(state.conns[id].topics, m, topic, event)
      ensures m.Some? && m.value.topic.Some? && !m.value.lone && m.value.topic.value in held
              && m.value.event.Some? && m.value.event.value != COUNT_EVENT ==>
                var frame := Outgoing(m.value.topic.value, m.value.event.value, Browser(id), m.value.bytes);
                && Publishes(state.conns[id].topics, m, frame.topic, frame.event)
                && Acts(state, Relays(id, m, true), StartFanout(state, frame, false))
    {
      hide StartFanout;
    }

    ghost method Unlock(from: State, counts: bool)
      requires Halts(Now(), SocketsOf(ids.Keys), from, state, counts) && AllReady() && (counts ==> changed == {})
      modifies this`state
      ensures Stands(Now(), SocketsOf(ids.Keys), from, state) && AllReady() && state.section.Free? && state.log == old(state).log
    {
      hide Ready, Stands, Halts;
      UnlockStands(Now(), SocketsOf(ids.Keys), from, state, counts);
      state := Act(state, Unlocks);
    }

    function CountFrame(topic: string, n: nat): Outgoing {
      Outgoing(topic, COUNT_EVENT, Window(n), encode(topic, n))
    }

    /** The counts of the topics in `order`, of those whose subscriber `c` is. */
    function CountsFor(topics: map<string, set<WsConn>>, order: seq<string>, c: WsConn): (r: seq<Outgoing>) {
      if order == [] then []
      else
        var topic := order[|order| - 1];
        var before := CountsFor(topics, order[..|order| - 1], c);
        if c in Subs(topics, topic) then before + [CountFrame(topic, |Subs(topics, topic)|)] else before
    }

    lemma CountsForNext(topics: map<string, set<WsConn>>, order: seq<string>, topic: string, c: WsConn)
      ensures CountsFor(topics, order + [topic], c) ==
              if c in Subs(topics, topic) then CountsFor(topics, order, c) + [CountFrame(topic, |Subs(topics, topic)|)]
              else CountsFor(topics, order, c)
    {
      assert (order + [topic])[..|order|] == order;
    }

    /** What every socket has been offered once the counts of the topics in `order` are out. */
    ghost function Counted(before: map<WsConn, Socket>, topics: map<string, set<WsConn>>, order: seq<string>): map<WsConn, Socket> {
      map c | c in before :: OfferAll(before[c], CountsFor(topics, order, c))
    }

    lemma CountedNext(before: map<WsConn, Socket>, topics: map<string, set<WsConn>>, order: seq<string>, topic: string)
      ensures Counted(before, topics, order + [topic]) ==
              Offered(Counted(before, topics, order), Subs(topics, topic), CountFrame(topic, |Subs(topics, topic)|))
    {
      hide Offer, OfferAll, CountsFor;
      var frame := CountFrame(topic, |Subs(topics, topic)|);
      forall c | c in before
        ensures OfferAll(before[c], CountsFor(topics, order + [topic], c)) ==
                if c in Subs(topics, topic) then Offer(OfferAll(before[c], CountsFor(topics, order, c)), frame)
                else OfferAll(before[c], CountsFor(topics, order, c))
      {
        CountsForNext(topics, order, topic, c);
        OfferAllNext(before[c], CountsFor(topics, order, c), frame);
      }
    }

    lemma CountedNone(before: map<WsConn, Socket>, topics: map<string, set<WsConn>>)
      ensures Counted(before, topics, []) == before
    {
    }

    /** A topic of the window: the lock stays held, the count goes out. */
    method SendCount(topic: string, ghost from: State)
      requires Halts(Now(), SocketsOf(ids.Keys), from, state, true) && AllReady() && topic in changed
      modifies this`changed, this`state, Subs(topics, topic)
      ensures Halts(Now(), SocketsOf(ids.Keys), from, state, true) && AllReady() && changed == old(changed) - {topic}
      ensures |state.log| == |old(state).log| + 1
      ensures SocketsOf(ids.Keys) ==
              Offered(old(SocketsOf(ids.Keys)), Subs(topics, topic), CountFrame(topic, |Subs(topics, topic)|))
    {
      hide Offer, Ready, Stands, FansTo, Halts, Acts, SocketsOf, Offered, StartFanout;
      MembersHalt(Now(), SocketsOf(ids.Keys), from, state, true);
      var frame := CountFrame(topic, |Subs(topics, topic)|);
      CountStands(Now(), SocketsOf(ids.Keys), from, state, topic, frame);
      state := StartFanout(state.(changed := state.changed - {topic}), frame, true);
      changed := changed - {topic};
      FanOut(frame, from, true);
    }

    /** The loop over the topics whose membership changed, under the lock. */
    method SendEach(ghost from: State) returns (ghost order: seq<string>)
      requires Halts(Now(), SocketsOf(ids.Keys), from, state, true) && AllReady()
      modifies this`changed, this`state, ids.Keys
      ensures Halts(Now(), SocketsOf(ids.Keys), from, state, true) && AllReady() && changed == {}
      ensures Listed(order) == old(changed) && Distinct(order)
      ensures SocketsOf(ids.Keys) == Counted(old(SocketsOf(ids.Keys)), topics, order)
      ensures |state.log| == |old(state).log| + |order|
    {
      hide Offer, Ready, Stands, Halts, Counted, SocketsOf, Offered, Acts, Listed, CountFrame, Distinct;
      ghost var before := SocketsOf(ids.Keys);
      order := [];
      ListedNone();
      CountedNone(before, topics);
      while changed != {}
        invariant changed <= old(changed) && Listed(order) == old(changed) - changed && Distinct(order)
        invariant SocketsOf(ids.Keys) == Counted(before, topics, order)
        invariant AllReady() && Halts(Now(), SocketsOf(ids.Keys), from, state, true)
        invariant |state.log| == |old(state).log| + |order|
        decreases changed
      {
        var topic :| topic in changed;
        ListedAppend(order, topic);
        CountedNext(before, topics, order, topic);
        MembersHalt(Now(), SocketsOf(ids.Keys), from, state, true);
        SendCount(topic, from);
        order := order + [topic];
      }
    }

    /**
     `sendCounts`, a run of the relay: of each topic whose membership changed, the count as it
     stands now, once, to each of its subscribers and to nobody else.
     */
    method SendCounts() returns (ghost order: seq<string>)
      requires Valid() && counting
      modifies this`changed, this`counting, this`state, ids.Keys
      ensures !counting && changed == {} && Listed(order) == old(changed) && Distinct(order)
      ensures SocketsOf(ids.Keys) == Counted(old(SocketsOf(ids.Keys)), topics, order)
      ensures Valid() && Reaches(old(state), state) && |state.log| == |old(state).log| + |order|
    {
      hide Offer, Ready, Stands, Halts, Counted, SocketsOf, Acts, Listed, Fired, Distinct, Reaches;
      ghost var from := state;
      StandsNow(Now(), SocketsOf(ids.Keys), START, from);
      WindowStands(Now(), SocketsOf(ids.Keys), from, from);
      counting := false;
      state := Fired(state);
      order := SendEach(from);
      Unlock(from, true);
      StandsNow(Now(), SocketsOf(ids.Keys), from, state);
      StandsThrough(Now(), SocketsOf(ids.Keys), START, from, state);
    }
  }

  /** Nothing is under way on the socket: the relay's lock is held, and nobody else sends. */
  ghost predicate Ready(c: WsConn)
    reads c
  {
    c.Valid() && c.socket.sender.Idle?
  }

  lemma ListedNext(held: seq<string>, i: nat)
    requires i < |held|
    ensures Listed(held[..i + 1]) == Listed(held[..i]) + {held[i]}
  {
    assert held[..i + 1] == held[..i] + [held[i]];
  }

  predicate Distinct(held: seq<string>) {
    forall i, j :: 0 <= i < j < |held| ==> held[i] != held[j]
  }

  lemma ListedAppend(held: seq<string>, topic: string)
    ensures Listed(held + [topic]) == Listed(held) + {topic}
    ensures Distinct(held) && topic !in Listed(held) ==> Distinct(held + [topic])
  {
    assert (held + [topic])[..|held|] == held;
    assert forall j :: 0 <= j < |held| ==> held[j] in Listed(held);
  }

  lemma ListedNone()
    ensures Listed([]) == {} && Distinct([])
  {
  }

  lemma SubscribedNone<C>(topics: map<string, set<C>>, c: C)
    ensures Subscribed(topics, c, Listed([])) == topics
  {
  }

  lemma SubscribedNext<C>(topics: map<string, set<C>>, c: C, held: set<string>, topic: string)
    ensures Subscribed(topics, c, held + {topic})
            == var done := Subscribed(topics, c, held); done[topic := Subs(done, topic) + {c}]
  {
  }

  lemma UnsubscribedNone<C>(topics: map<string, set<C>>, c: C)
    ensures Unsubscribed(topics, c, Listed([])) == topics
  {
    assert Listed([]) == {};
  }

  lemma UnsubscribedNext<C>(topics: map<string, set<C>>, c: C, held: set<string>, topic: string)
    requires forall t :: t in topics ==> topics[t] != {}
    ensures var done := Unsubscribed(topics, c, held); var subs := Subs(done, topic) - {c};
            Unsubscribed(topics, c, held + {topic}) == if subs == {} then done - {topic} else done[topic := subs]
  {
    var done := Unsubscribed(topics, c, held);
    var subs := Subs(done, topic) - {c};
    assert topic in topics && topic in done ==> subs == topics[topic] - {c};
    var next := if subs == {} then done - {topic} else done[topic := subs];
    var whole := Unsubscribed(topics, c, held + {topic});
    forall t ensures (t in whole <==> t in next) && (t in whole ==> whole[t] == next[t]) {
      if t == topic && t in topics && t !in done {
        assert topics[t] - {c} == {};
      }
    }
  }
}
