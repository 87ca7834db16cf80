/**
 The client together with its environment: the socket, the server and the user.

 Assumptions about the environment, all in `Enabled`:
 - a successful answer arrives only on the connection that sent the request, while an error may
   arrive at any later time (but not after MAX_SAFE_INTEGER further closes);
 - the server never hands out a subscription id twice;
 - close code 1000 only follows the client's own idle `close()`, and `open` only follows a close;
 - live listeners on one topic use distinct callback values (the source keeps them in a `Set`).
 - a final signature notification concerns an id handed out on the present connection.
 User callbacks re-enter the client only by subscribing and disposing, which are events of their own;
 those of signature listeners may throw.
 */
module SubscriptionSystem {
  import opened Wrappers
  import opened SubscriptionModel
  import opened SubscriptionSweep

  datatype SocketState = Down | Up | Closing

  /** The topic and the connection a server id was handed out for. */
  datatype Grant = Grant(hash: Hash, conn: nat)

  /** `answered` holds the calls that got an answer, `retired` the ids the server confirmed
      unsubscribing, `disposed` the ids the server announced to have disposed of. */
  datatype Sys = Sys(
    c: Client,
    socket: SocketState,
    answered: set<nat>,
    issued: map<ServerId, Grant>,
    retired: set<ServerId>,
    disposed: set<ServerId>)

  const START: Sys := Sys(INITIAL, Down, {}, map[], {}, {})

  datatype Event =
    | UserSubscribe(hash: Hash, callback: Callback)
    | UserDispose(id: ClientId)
    | SocketOpen
    | SocketError
    | SocketClose(code: nat)
    | IdleTimeout
    | Success(call: nat, sid: ServerId)
    | Failure(call: nat)
    | SignatureDone(sid: ServerId, threw: set<ClientId>)

  predicate Waiting(s: Sys, i: nat) {
    i < |s.c.calls| && i !in s.answered
  }

  /** A request of the present connection that has not been answered. */
  predicate Current(s: Sys, i: nat) {
    Waiting(s, i) && s.c.calls[i].conn == s.c.closes
  }

  ghost predicate Enabled(s: Sys, e: Event) {
    match e
    case UserSubscribe(h, cb) => Fresh(s.c, h, cb)
    case UserDispose(_) => true
    case SocketOpen => s.socket == Down
    case SocketError => true
    case SocketClose(code) => code == NORMAL_CLOSURE ==> s.socket == Closing
    case IdleTimeout => s.c.idleTimer
    case Success(i, sid) => Current(s, i) && (s.c.calls[i].kind == SubscribeCall ==> sid !in s.issued)
    case Failure(i) => Waiting(s, i) && s.c.closes - s.c.calls[i].conn < MAX_SAFE_INTEGER
    case SignatureDone(sid, _) => sid in s.issued && s.issued[sid].conn == s.c.closes
  }

  /** No live listener on `h` already uses this callback value. */
  ghost predicate Fresh(c: Client, h: Hash, cb: Callback) {
    forall id :: id in c.listeners ==> c.listeners[id] != Listener(h, cb)
  }

  function Next(s: Sys, e: Event): (r: Sys) {
    match e
    case UserSubscribe(h, cb) => s.(c := Make(s.c, h, cb))
    case UserDispose(id) => s.(c := Dispose(s.c, id))
    case SocketOpen => s.(c := Opened(s.c), socket := Up)
    case SocketError => s.(c := Errored(s.c))
    case SocketClose(code) => s.(c := Closed(s.c, code), socket := Down)
    case IdleTimeout => s.(c := TimerFired(s.c), socket := if s.socket == Up then Closing else s.socket)
    case Success(i, sid) =>
      if i >= |s.c.calls| then s
      else
        var call := s.c.calls[i];
        s.(c := Answered(s.c, i, sid),
           answered := s.answered + {i},
           issued := if call.kind == SubscribeCall then s.issued[sid := Grant(call.hash, s.c.closes)] else s.issued,
           retired := if call.kind == UnsubscribeCall && call.captured.serverId.Some?
                      then s.retired + {call.captured.serverId.value} else s.retired)
    case Failure(i) =>
      if i >= |s.c.calls| then s else s.(c := Failed(s.c, i), answered := s.answered + {i})
    case SignatureDone(sid, threw) => s.(c := SignatureNotified(s.c, sid, threw), disposed := s.disposed + {sid})
  }

  // ----- the invariant

  /** The callbacks the user has registered on a topic and not disposed of. */
  function Registered(listeners: map<ClientId, Listener>, h: Hash): set<Callback> {
    set id | id in listeners && listeners[id].hash == h :: listeners[id].callback
  }

  predicate InProgress(sub: Subscription) {
    sub.phase == Subscribing || sub.phase == Unsubscribing
  }

  ghost predicate InFlight(s: Sys, h: Hash) {
    exists i: nat :: Current(s, i) && s.c.calls[i].hash == h
  }

  /** An unanswered request of this connection and the record of its topic. */
  ghost predicate Matches(s: Sys, i: nat)
    requires i < |s.c.calls|
  {
    var call := s.c.calls[i];
    && call.hash in s.c.table
    && s.c.table[call.hash] ==
         call.captured.(phase := if call.kind == SubscribeCall then Subscribing else Unsubscribing)
    && (call.kind == UnsubscribeCall ==> call.captured.phase == Subscribed)
  }

  /** At most one request is outstanding for a topic, and it is the one the record waits for. */
  ghost predicate Requests(s: Sys, h: Hash) {
    && (forall i: nat :: Current(s, i) && s.c.calls[i].hash == h ==> Matches(s, i))
    && (forall i: nat, j: nat :: Current(s, i) && Current(s, j) && s.c.calls[i].hash == h && s.c.calls[j].hash == h ==> i == j)
    && (h in s.c.table && InProgress(s.c.table[h]) ==> InFlight(s, h))
  }

  /** The record's id was given to this topic on this connection and is in the index; no
      unsubscribe of it was confirmed, and its disposal by the server is known to the client. */
  ghost predicate HoldsId(s: Sys, h: Hash)
    requires h in s.c.table
  {
    var sub := s.c.table[h];
    && sub.serverId.Some?
    && var sid := sub.serverId.value;
       && sid in s.issued && s.issued[sid] == Grant(h, s.c.closes)
       && sid in s.c.index && s.c.index[sid] == sub.callbacks
       && (sub.phase != Unsubscribed ==> sid !in s.retired)
       && (sub.phase != Unsubscribed && sid in s.disposed ==> sid in s.c.autoDisposed)
  }

  /** The topic's set holds exactly its registered callbacks, and a listener never loses its topic. */
  ghost predicate Record(s: Sys, h: Hash) {
    if h in s.c.table then
      && s.c.table[h].callbacks < |s.c.sets|
      && ListenersOf(s.c, h) == Registered(s.c.listeners, h)
      && (s.c.table[h].phase != Pending && s.c.table[h].phase != Subscribing ==> HoldsId(s, h))
    else Registered(s.c.listeners, h) == {}
  }

  /** Each topic has a set of its own. */
  ghost predicate OwnSets(s: Sys) {
    forall g, h :: g in s.c.table && h in s.c.table && g != h ==> s.c.table[g].callbacks != s.c.table[h].callbacks
  }

  ghost predicate Users(s: Sys) {
    && (forall id :: id in s.c.listeners ==> id < s.c.nextClientId)
    && (forall i, j :: i in s.c.listeners && j in s.c.listeners && i != j ==> s.c.listeners[i] != s.c.listeners[j])
  }

  /** The flags agree with the socket, and without a connection every topic is pending. */
  ghost predicate Flow(s: Sys) {
    && (s.c.connected ==> s.socket == Up)
    && (s.c.idleTimer ==> s.socket == Up && !s.c.connected)
    && (s.socket != Up ==> forall h :: h in s.c.table ==> s.c.table[h].phase == Pending)
  }

  /** An index entry leads to the live set of the topic it was issued for, or to a dead empty set. */
  ghost predicate IndexEntry(s: Sys, sid: ServerId)
    requires sid in s.c.index
  {
    && sid in s.issued && s.c.index[sid] < |s.c.sets|
    && var h := s.issued[sid].hash;
       || (h in s.c.table && s.c.table[h].callbacks == s.c.index[sid])
       || (&& s.c.sets[s.c.index[sid]] == {}
           && forall g :: g in s.c.table ==> s.c.table[g].callbacks != s.c.index[sid])
  }

  ghost predicate Index(s: Sys) {
    forall sid :: sid in s.c.index ==> IndexEntry(s, sid)
  }

  /** Every unsubscribe ever sent carried the id its topic had been given on its connection. */
  ghost predicate LogEntry(s: Sys, i: nat)
    requires i < |s.c.calls|
  {
    var call := s.c.calls[i];
    && call.conn <= s.c.closes && call.captured.callbacks < |s.c.sets|
    && (call.kind == UnsubscribeCall ==>
          && call.captured.serverId.Some? && call.captured.serverId.value in s.issued
          && s.issued[call.captured.serverId.value] == Grant(call.hash, call.conn))
  }

  ghost predicate Log(s: Sys) {
    && (forall i :: 0 <= i < |s.c.calls| ==> LogEntry(s, i))
    && (forall i :: i in s.answered ==> i < |s.c.calls|)
    && s.c.autoDisposed <= s.disposed <= s.issued.Keys
    && s.retired <= s.issued.Keys
  }

  ghost predicate Topics(s: Sys) {
    && (forall h :: Record(s, h))
    && (forall h :: Requests(s, h))
  }

  /** What holds in the middle of an event, too. */
  ghost predicate Core(s: Sys) {
    KeysListed(s.c) && OwnSets(s) && Users(s) && Flow(s) && Topics(s) && Index(s) && Log(s)
  }

  /** What holds between events. */
  ghost predicate Inv(s: Sys) {
    && Core(s)
    && (s.c.connected ==> AllSettled(s.c) && s.c.order != [])
    && (s.c.idleTimer ==> s.c.order == [])
  }
}
