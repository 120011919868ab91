/**
 The topic relay (ws_relay.go) as a state machine over its sockets: joins and leaves, publishes,
 and the counts of a window, with the writers and readers of every socket moving in between.
 */
module Relay {
  import opened SocketQueue
  import opened Utf8
  import opened Wrappers

  const COUNT_EVENT := "__count"

  // ---- what a browser may publish -----------------------------------------------------

  /**
   A browser's message as JSON reads it: `topic` and `event` when they are strings, whether the
   topic is spelled with half of a surrogate pair, and the frame its fields would be relayed in.
   */
  datatype ClientMessage = ClientMessage(topic: Option<string>, lone: bool, event: Option<string>, bytes: seq<Byte>)

  /** `fromClient`: on a topic the socket holds, an event that is not the relay's own. */
  function FromClient(held: set<string>, socket: nat, m: Option<ClientMessage>, allowed: bool): Option<Outgoing> {
    if m.None? then None
    else if m.value.topic.None? || m.value.lone || m.value.topic.value !in held then None
    else if m.value.event.None? || m.value.event.value == COUNT_EVENT then None
    else if !allowed then None
    else Some(Outgoing(m.value.topic.value, m.value.event.value, Browser(socket), m.value.bytes))
  }

  // ---- the relay ------------------------------------------------------------------------

  /** A socket from its join on; `joined` and `left` are history: how long the log was then. */
  datatype Conn = Conn(topics: set<string>, joined: nat, left: Option<nat>, socket: Socket)

  /** What holds the relay's lock: nothing, or a fan-out, of one publish or of a window's counts. */
  datatype Section = Free | Fanout(todo: set<nat>, sending: Option<nat>, counts: bool)

  datatype State = State(
    topics: map<string, set<nat>>,
    changed: set<string>,
    counting: bool,
    section: Section,
    conns: map<nat, Conn>,
    log: seq<Outgoing>)            // history: every event, in the order it was fanned out

  const START := State(map[], {}, false, Free, map[], [])

  function Subs<C>(topics: map<string, set<C>>, topic: string): set<C> {
    if topic in topics then topics[topic] else {}
  }

  function Subscribed<C(==)>(topics: map<string, set<C>>, c: C, held: set<string>): map<string, set<C>> {
    map t | t in topics.Keys + held :: if t in held then Subs(topics, t) + {c} else topics[t]
  }

  /** A topic nobody holds any more leaves the map. */
  function Unsubscribed<C(==)>(topics: map<string, set<C>>, c: C, held: set<string>): map<string, set<C>> {
    map t | t in topics && (t in held ==> topics[t] - {c} != {}) :: if t in held then topics[t] - {c} else topics[t]
  }

  /** `countSoon`. */
  function CountSoon(r: State): State {
    if r.counting || r.changed == {} then r else r.(counting := true)
  }

  function Join(r: State, c: nat, held: set<string>): State {
    CountSoon(r.(topics := Subscribed(r.topics, c, held), changed := r.changed + held,
                 conns := r.conns[c := Conn(held, |r.log|, None, FRESH)]))
  }

  function Leave(r: State, c: nat): State
    requires c in r.conns
  {
    var held := r.conns[c].topics;
    CountSoon(r.(topics := Unsubscribed(r.topics, c, held), changed := r.changed + held,
                 conns := r.conns[c := r.conns[c].(left := Some(|r.log|))]))
  }

  /** One event to every subscriber of its topic. */
  function StartFanout(r: State, frame: Outgoing, counts: bool): State {
    r.(log := r.log + [frame], section := Fanout(Subs(r.topics, frame.topic), None, counts))
  }

  function WithSocket(r: State, c: nat, s: Socket): State
    requires c in r.conns
  {
    r.(conns := r.conns[c := r.conns[c].(socket := s)])
  }

  datatype Action =
    | Joins(c: nat, held: set<string>)
    | Leaves(c: nat)
    | Pushes(topic: string, event: string, bytes: seq<Byte>)
    | Relays(c: nat, message: Option<ClientMessage>, allowed: bool)
    | FiresWindow
    | NextCount(topic: string, bytes: seq<Byte>)
    | SendsTo(c: nat)
    | SendMoves(c: nat, step: Step)
    | SendReturns(c: nat)
    | Unlocks
    | Moves(c: nat, step: Step)

  predicate OfSend(step: Step) {
    step.SendBegins? || step.SendLocks? || step.SendPosts? || step.SendCloses?
  }

  predicate Between(r: State) {
    r.section.Fanout? && r.section.todo == {} && r.section.sending.None?
  }

  predicate CanAct(r: State, a: Action) {
    match a
    case Joins(c, _) => r.section.Free? && c !in r.conns
    case Leaves(c) => r.section.Free? && c in r.conns && r.conns[c].left.None? && r.conns[c].socket.quit
    case Pushes(_, _, _) => r.section.Free?
    case Relays(c, m, allowed) => r.section.Free? && c in r.conns && FromClient(r.conns[c].topics, c, m, allowed).Some?
    case FiresWindow => r.section.Free? && r.counting
    case NextCount(topic, _) => Between(r) && r.section.counts && topic in r.changed
    case SendsTo(c) => r.section.Fanout? && r.section.sending.None? && c in r.section.todo && c in r.conns && r.log != []
                       && r.conns[c].socket.sender.Idle?
    case SendMoves(c, step) => r.section.Fanout? && r.section.sending == Some(c) && c in r.conns
                               && OfSend(step) && !step.SendBegins? && Enabled(r.conns[c].socket, step)
    case SendReturns(c) => r.section.Fanout? && r.section.sending == Some(c) && c in r.conns && r.conns[c].socket.sender.Idle?
    case Unlocks => Between(r) && (r.section.counts ==> r.changed == {})
    case Moves(c, step) => c in r.conns && !OfSend(step) && Enabled(r.conns[c].socket, step)
  }

  function Act(r: State, a: Action): State
    requires CanAct(r, a)
  {
    match a
    case Joins(c, held) => Join(r, c, held)
    case Leaves(c) => Leave(r, c)
    case Pushes(topic, event, bytes) => StartFanout(r, Outgoing(topic, event, Server, bytes), false)
    case Relays(c, m, allowed) => StartFanout(r, FromClient(r.conns[c].topics, c, m, allowed).value, false)
    case FiresWindow => r.(counting := false, section := Fanout({}, None, true))
    case NextCount(topic, bytes) =>
      StartFanout(r.(changed := r.changed - {topic}),
                  Outgoing(topic, COUNT_EVENT, Window(|Subs(r.topics, topic)|), bytes), true)
    case SendsTo(c) =>
      WithSocket(r, c, Do(r.conns[c].socket, SendBegins(r.log[|r.log| - 1]))).(
        section := r.section.(todo := r.section.todo - {c}, sending := Some(c)))
    case SendMoves(c, step) => WithSocket(r, c, Do(r.conns[c].socket, step))
    case SendReturns(c) => r.(section := r.section.(sending := None))
    case Unlocks => r.(section := Free)
    case Moves(c, step) => WithSocket(r, c, Do(r.conns[c].socket, step))
  }

  // ---- what a socket is owed --------------------------------------------------------------

  function OnTopics(log: seq<Outgoing>, held: set<string>): seq<Outgoing> {
    if log == [] then []
    else
      var before := OnTopics(log[..|log| - 1], held);
      if log[|log| - 1].topic in held then before + [log[|log| - 1]] else before
  }

  /** How far down the log a socket has been served. */
  function Served(r: State, c: nat): nat
    requires c in r.conns
  {
    if r.conns[c].left.Some? then r.conns[c].left.value
    else if r.section.Fanout? && c in r.section.todo && r.log != [] then |r.log| - 1
    else |r.log|
  }

  /** The events a socket has been served, of the topics it holds. */
  function Owed(r: State, c: nat): seq<Outgoing>
    requires c in r.conns && r.conns[c].joined <= Served(r, c) <= |r.log|
  {
    OnTopics(r.log[r.conns[c].joined..Served(r, c)], r.conns[c].topics)
  }

  /** The last count of a topic in a stretch of the log. */
  function LastCount(log: seq<Outgoing>, topic: string): Option<nat> {
    if log == [] then None
    else if log[|log| - 1].topic == topic && log[|log| - 1].origin.Window? then Some(log[|log| - 1].origin.members)
    else LastCount(log[..|log| - 1], topic)
  }

  // ---- what every step keeps ----------------------------------------------------------------

  /** The map of topics is the sockets that hold them. */
  ghost predicate Registered(r: State) {
    forall t, c :: c in Subs(r.topics, t) <==> c in r.conns && r.conns[c].left.None? && t in r.conns[c].topics
  }

  predicate Armed(r: State) {
    r.changed != {} ==> r.counting || (r.section.Fanout? && r.section.counts)
  }

  predicate FansOut(r: State) {
    r.section.Fanout? ==>
      && (forall c :: c in r.section.todo ==>
            && c in r.conns && r.conns[c].left.None? && r.conns[c].joined < |r.log|
            && r.log[|r.log| - 1].topic in r.conns[c].topics)
      && (r.section.sending.Some? ==>
            r.section.sending.value in r.conns && r.section.sending.value !in r.section.todo
            && r.conns[r.section.sending.value].left.None?)
  }

  /** Queued is what was served, up to where the socket ended; a frame under way is the next. */
  predicate Follows(s: Socket, owed: seq<Outgoing>) {
    match s.sender
    case Admitted(frame) => owed == s.accepted + [frame]
    case Full(frame) => owed == s.accepted + [frame]
    case Posting => owed == s.accepted
    case Idle => s.accepted <= owed && (!s.quit ==> s.accepted == owed)
  }

  predicate InTime(r: State, c: nat)
    requires c in r.conns
  {
    r.conns[c].joined <= Served(r, c) <= |r.log|
  }

  predicate ConnSound(r: State, c: nat)
    requires c in r.conns
  {
    && InTime(r, c) && SocketQueue.Sound(r.conns[c].socket)
    && Follows(r.conns[c].socket, Owed(r, c))
    && (r.conns[c].socket.sender.Idle? || (r.section.Fanout? && r.section.sending == Some(c)))
  }

  ghost predicate Counts(r: State) {
    forall t, c :: t !in r.changed && c in Subs(r.topics, t) && c in r.conns && r.conns[c].joined <= |r.log| ==>
      LastCount(r.log[r.conns[c].joined..], t) == Some(|Subs(r.topics, t)|)
  }

  predicate FromBrowsersOnly(r: State) {
    forall j :: 0 <= j < |r.log| && r.log[j].origin.Browser? ==>
      && r.log[j].event != COUNT_EVENT
      && r.log[j].origin.socket in r.conns && r.log[j].topic in r.conns[r.log[j].origin.socket].topics
  }

  ghost predicate RelaySound(r: State) {
    && Registered(r) && Armed(r) && FansOut(r) && Counts(r) && FromBrowsersOnly(r)
    && forall c :: c in r.conns ==> ConnSound(r, c)
  }
}
