/**
 The subscription bookkeeping of the RPC client (`Connection`).

 A topic is identified by the hash of its method and arguments.  Its record holds a phase, the
 server's id for it, and a reference to the `Set` of listener callbacks.  Records are copied on
 every phase change while the `Set` is shared, so the model keeps the sets in a heap (`sets`) and
 records hold indices into it.  The table's keys are kept in JavaScript's insertion order, which
 is the order `Object.keys` scans them in.
 */
module SubscriptionModel {
  import opened Wrappers

  type Hash = string
  type Callback = nat
  type SetRef = nat
  type ServerId = nat
  type ClientId = nat

  /** The wrap-around point of the generation counter: `Number.MAX_SAFE_INTEGER`. */
  const MAX_SAFE_INTEGER: nat := 0x1F_FFFF_FFFF_FFFF

  /** The normal-closure code of section 7.4.1 of RFC 6455. */
  const NORMAL_CLOSURE: nat := 1000

  datatype Phase = Pending | Subscribing | Subscribed | Unsubscribing | Unsubscribed

  datatype Subscription = Subscription(phase: Phase, callbacks: SetRef, serverId: Option<ServerId>)

  datatype CallKind = SubscribeCall | UnsubscribeCall

  /** A websocket request, with the record its continuation captured and the number of closes that
      had happened when it was sent (its generation is that number modulo MAX_SAFE_INTEGER). */
  datatype Call = Call(kind: CallKind, hash: Hash, captured: Subscription, conn: nat)

  datatype Listener = Listener(hash: Hash, callback: Callback)

  /** The fields of `Connection` that the subscription protocol uses.  `closes` counts socket
      closes; `calls` and `connects` record the requests sent and the `connect()` calls made. */
  datatype Client = Client(
    table: map<Hash, Subscription>,
    order: seq<Hash>,
    sets: seq<set<Callback>>,
    index: map<ServerId, SetRef>,
    autoDisposed: set<ServerId>,
    listeners: map<ClientId, Listener>,
    nextClientId: ClientId,
    connected: bool,
    idleTimer: bool,
    closes: nat,
    calls: seq<Call>,
    connects: nat)

  const INITIAL: Client := Client(map[], [], [], map[], {}, map[], 0, false, false, 0, [], 0)

  // ----- the table and its sets

  /** `order` lists exactly the table's keys. */
  ghost predicate KeysListed(c: Client) {
    forall h :: h in c.order <==> h in c.table
  }

  function SetAt(c: Client, ref: SetRef): set<Callback> {
    if ref < |c.sets| then c.sets[ref] else {}
  }

  /** The heap after a write to one of the shared sets. */
  function UpdateSet(c: Client, ref: SetRef, value: set<Callback>): seq<set<Callback>> {
    if ref < |c.sets| then c.sets[ref := value] else c.sets
  }

  function ListenersOf(c: Client, h: Hash): set<Callback> {
    if h in c.table then SetAt(c, c.table[h].callbacks) else {}
  }

  function Without(keys: seq<Hash>, h: Hash): (r: seq<Hash>)
    ensures forall g :: g in r <==> g in keys && g != h
    ensures if h in keys then |r| < |keys| else r == keys
  {
    if keys == [] then []
    else if keys[0] == h then Without(keys[1..], h)
    else [keys[0]] + Without(keys[1..], h)
  }

  // ----- the effect of one scan over the table

  /** Store a record; a new key goes to the end of the scan order. */
  function SetSubscription(c: Client, h: Hash, sub: Subscription): (r: Client) {
    c.(table := c.table[h := sub], order := if h in c.table then c.order else c.order + [h])
  }

  /** Delete a topic; an unsubscribed one also leaves the server-id index. */
  function Forget(c: Client, h: Hash): (r: Client)
    requires h in c.table
  {
    var sub := c.table[h];
    c.(table := c.table - {h},
       order := Without(c.order, h),
       index := if sub.phase == Unsubscribed && sub.serverId.Some?
                then c.index - {sub.serverId.value} else c.index)
  }

  /** Put a request on the wire and mark the topic as waiting for its answer. */
  function Send(c: Client, h: Hash, kind: CallKind): (r: Client)
    requires h in c.table
  {
    var sub := c.table[h];
    var phase := if kind == SubscribeCall then Subscribing else Unsubscribing;
    c.(table := c.table[h := sub.(phase := phase)],
       calls := c.calls + [Call(kind, h, sub, c.closes)])
  }

  predicate AutoDisposed(c: Client, sub: Subscription) {
    sub.serverId.Some? && sub.serverId.value in c.autoDisposed
  }

  /** A server-disposed subscription is retired locally, without a request. */
  function Retire(c: Client, h: Hash): (r: Client)
    requires h in c.table && AutoDisposed(c, c.table[h])
  {
    var sub := c.table[h];
    c.(autoDisposed := c.autoDisposed - {sub.serverId.value},
       table := c.table[h := sub.(phase := Unsubscribed)])
  }

  /** What a scan does for one key, without the source's recursive rescans. */
  function Process(c: Client, h: Hash): (r: Client) {
    if h !in c.table then c
    else
      var sub := c.table[h];
      var quiet := ListenersOf(c, h) == {};
      match sub.phase
      case Pending => if quiet then Forget(c, h) else Send(c, h, SubscribeCall)
      case Unsubscribed => if quiet then Forget(c, h) else Send(c, h, SubscribeCall)
      case Subscribed =>
        if !quiet then c
        else if AutoDisposed(c, sub) then Forget(Retire(c, h), h)
        else Send(c, h, UnsubscribeCall)
      case Subscribing => c
      case Unsubscribing => c
  }

  function Fold(c: Client, keys: seq<Hash>): (r: Client)
    decreases |keys|
  {
    if keys == [] then c else Fold(Process(c, keys[0]), keys[1..])
  }

  /** With nothing left to watch, mark the socket unusable and start the idle timer. */
  function GoIdleIfEmpty(c: Client): (r: Client) {
    if c.order == [] && c.connected then c.(connected := false, idleTimer := true) else c
  }

  function CancelIdle(c: Client): (r: Client) {
    if c.idleTimer then c.(idleTimer := false, connected := true) else c
  }

  /** The whole synchronous effect of `_updateSubscriptions`, as one left-to-right pass. */
  function Sweep(c: Client): (r: Client) {
    if c.order == [] then GoIdleIfEmpty(c)
    else
      var d := CancelIdle(c);
      if !d.connected then d.(connects := d.connects + 1)
      else GoIdleIfEmpty(Fold(d, d.order))
  }

  /** Nothing is left to do for a topic until an answer or a user call arrives. */
  ghost predicate Settled(c: Client, h: Hash) {
    h in c.table ==>
      match c.table[h].phase
      case Subscribing => true
      case Unsubscribing => true
      case Subscribed => ListenersOf(c, h) != {}
      case Pending => false
      case Unsubscribed => false
  }

  ghost predicate AllSettled(c: Client) {
    forall h :: h in c.table ==> Settled(c, h)
  }

  // ----- one step per event

  /** Add a listener, creating its topic when there is none. */
  function Register(c: Client, h: Hash, cb: Callback): (r: Client) {
    var d := if h in c.table
             then c.(sets := UpdateSet(c, c.table[h].callbacks, ListenersOf(c, h) + {cb}))
             else SetSubscription(c.(sets := c.sets + [{cb}]), h, Subscription(Pending, |c.sets|, None));
    d.(listeners := d.listeners[d.nextClientId := Listener(h, cb)], nextClientId := d.nextClientId + 1)
  }

  /** `_makeSubscription`. */
  function Make(c: Client, h: Hash, cb: Callback): (r: Client) {
    Sweep(Register(c, h, cb))
  }

  /** The dispose function throws when its topic has vanished from the table. */
  predicate DisposeThrows(c: Client, id: ClientId) {
    id in c.listeners && c.listeners[id].hash !in c.table
  }

  /** Remove a listener from its topic's set. */
  function Unregister(c: Client, id: ClientId): (r: Client)
    requires id in c.listeners
  {
    var l := c.listeners[id];
    var sets := if l.hash in c.table
                then UpdateSet(c, c.table[l.hash].callbacks, ListenersOf(c, l.hash) - {l.callback})
                else c.sets;
    c.(listeners := c.listeners - {id}, sets := sets)
  }

  /** The dispose function of a client id; an unknown id is ignored. */
  function Dispose(c: Client, id: ClientId): (r: Client) {
    if id !in c.listeners then c
    else if DisposeThrows(c, id) then Unregister(c, id)
    else Sweep(Unregister(c, id))
  }

  /** `_wsOnOpen`. */
  function Opened(c: Client): (r: Client) {
    Sweep(c.(connected := true))
  }

  /** `_wsOnError`. */
  function Errored(c: Client): (r: Client) {
    c.(connected := false)
  }

  function Reset(c: Client): (r: Client) {
    c.(index := map[], table := map h | h in c.table :: c.table[h].(phase := Pending))
  }

  /** `_wsOnClose`. */
  function Closed(c: Client, code: nat): (r: Client) {
    var d := c.(connected := false, closes := c.closes + 1, idleTimer := false);
    if code == NORMAL_CLOSURE then Sweep(d) else Reset(d)
  }

  /** The idle timer's callback, which then closes the socket. */
  function TimerFired(c: Client): (r: Client) {
    c.(idleTimer := false)
  }

  /** Store what a successful answer to call `i` brought (`sid` only matters for a subscribe). */
  function Install(c: Client, i: nat, sid: ServerId): (r: Client)
    requires i < |c.calls|
  {
    var call := c.calls[i];
    match call.kind
    case SubscribeCall =>
      SetSubscription(c, call.hash, call.captured.(serverId := Some(sid), phase := Subscribed))
      .(index := c.index[sid := call.captured.callbacks])
    case UnsubscribeCall =>
      SetSubscription(c, call.hash, call.captured.(phase := Unsubscribed))
  }

  /** The continuation of call `i` after a successful answer. */
  function Answered(c: Client, i: nat, sid: ServerId): (r: Client)
    requires i < |c.calls|
  {
    Sweep(Install(c, i, sid))
  }

  /** `isCurrentConnectionStillActive`, as the continuation of a failed call evaluates it. */
  predicate StillActive(c: Client, call: Call) {
    call.conn % MAX_SAFE_INTEGER == c.closes % MAX_SAFE_INTEGER
  }

  /** Put the topic of a failed call back to the phase it had before the call. */
  function Restore(c: Client, i: nat): (r: Client)
    requires i < |c.calls|
  {
    var call := c.calls[i];
    var phase := if call.kind == SubscribeCall then Pending else Subscribed;
    SetSubscription(c, call.hash, call.captured.(phase := phase))
  }

  /** The continuation of call `i` after an error. */
  function Failed(c: Client, i: nat): (r: Client)
    requires i < |c.calls|
  {
    if !StillActive(c, c.calls[i]) then c else Sweep(Restore(c, i))
  }

  /** The callbacks `_handleServerNotification` runs. */
  function Delivered(c: Client, sid: ServerId): (r: set<Callback>) {
    if sid in c.index then SetAt(c, c.index[sid]) else {}
  }

  /** The client ids whose callbacks a notification for `sid` runs, in registration order. */
  function Targets(c: Client, sid: ServerId, from: ClientId): (r: seq<ClientId>)
    decreases c.nextClientId - from
  {
    if from >= c.nextClientId then []
    else
      var rest := Targets(c, sid, from + 1);
      if && from in c.listeners && c.listeners[from].hash in c.table && sid in c.index
         && c.table[c.listeners[from].hash].callbacks == c.index[sid]
      then [from] + rest else rest
  }

  /** Run these signature listeners in turn: each removes itself unless its user callback throws. */
  function RunAll(c: Client, ids: seq<ClientId>, threw: set<ClientId>): (r: Client)
    decreases |ids|
  {
    if ids == [] then c
    else RunAll(if ids[0] in threw then c else Dispose(c, ids[0]), ids[1..], threw)
  }

  /** `_wsOnSignatureNotification` with a final status: the server has disposed of the
      subscription, and every signature listener is run. */
  function SignatureNotified(c: Client, sid: ServerId, threw: set<ClientId>): (r: Client) {
    var d := c.(autoDisposed := c.autoDisposed + {sid});
    RunAll(d, Targets(d, sid, 0), threw)
  }
}
