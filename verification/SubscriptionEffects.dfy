/** What each call and each socket event brings about, in the terms of their callers. */
module SubscriptionEffects {
  import opened Wrappers
  import opened SubscriptionModel
  import opened SubscriptionSweep
  import opened SubscriptionSystem
  import opened SubscriptionInvariant
  import opened SubscriptionGuarantees
  import opened SubscriptionReconnect

  // ----- listeners

  lemma {:induction false} FoldKeepsUsers(c: Client, keys: seq<Hash>)
    ensures Fold(c, keys).listeners == c.listeners && Fold(c, keys).nextClientId == c.nextClientId
    ensures Fold(c, keys).connects == c.connects
    decreases |keys|
  {
    if keys != [] { FoldKeepsUsers(Process(c, keys[0]), keys[1..]); }
  }

  lemma SweepKeepsUsers(c: Client)
    ensures Sweep(c).listeners == c.listeners && Sweep(c).nextClientId == c.nextClientId
  {
    FoldKeepsUsers(CancelIdle(c), c.order);
  }

  /** Subscribing registers exactly the new listener, under the id it hands out. */
  lemma MakeRegisters(c: Client, h: Hash, cb: Callback)
    ensures Make(c, h, cb).listeners == c.listeners[c.nextClientId := Listener(h, cb)]
    ensures Make(c, h, cb).nextClientId == c.nextClientId + 1
    ensures !InUse(c) ==> Make(c, h, cb).order == if h in c.table then c.order else c.order + [h]
  {
    SweepKeepsUsers(Register(c, h, cb));
  }

  /** Disposing of an id removes exactly that listener, also when it throws. */
  lemma DisposeRemoves(c: Client, id: ClientId)
    ensures Dispose(c, id).listeners == c.listeners - {id}
  {
    if id in c.listeners { SweepKeepsUsers(Unregister(c, id)); }
  }

  /** A new listener is in its topic's set at once, and a notification for the topic's id runs it. */
  lemma SubscriberIsHeard(s: Sys, h: Hash, cb: Callback)
    requires Reachable(s) && Enabled(s, UserSubscribe(h, cb))
    ensures
      var t := Next(s, UserSubscribe(h, cb));
      && t.c.listeners == s.c.listeners[s.c.nextClientId := Listener(h, cb)]
      && h in t.c.table && cb in ListenersOf(t.c, h)
      && (forall sid :: t.c.table[h].serverId == Some(sid)
                        && (t.c.table[h].phase == Subscribed || t.c.table[h].phase == Unsubscribing) ==>
            cb in Delivered(t.c, sid))
  {
    var t := Next(s, UserSubscribe(h, cb));
    ReachableInv(s);
    NextKeepsInv(s, UserSubscribe(h, cb));
    MakeRegisters(s.c, h, cb);
    assert t.c.listeners[s.c.nextClientId] == Listener(h, cb);
    assert cb in Registered(t.c.listeners, h);
    assert Record(t, h);
  }

  /** A disposed listener is in no set and is run by no notification any more; the others stay. */
  lemma DisposedIsSilent(s: Sys, id: ClientId, sid: ServerId)
    requires Reachable(s) && id in s.c.listeners
    ensures
      var t, l := Next(s, UserDispose(id)), s.c.listeners[id];
      && t.c.listeners == s.c.listeners - {id}
      && l.callback !in ListenersOf(t.c, l.hash)
      && (sid in t.issued && t.issued[sid].hash == l.hash ==> l.callback !in Delivered(t.c, sid))
      && (forall h :: h != l.hash ==> ListenersOf(t.c, h) == Registered(s.c.listeners, h))
  {
    var t, l := Next(s, UserDispose(id)), s.c.listeners[id];
    ReachableInv(s);
    NextKeepsInv(s, UserDispose(id));
    DisposeRemoves(s.c, id);
    RegisteredAfterRemove(s.c.listeners, id);
    assert Record(t, l.hash);
    if sid in t.c.index { assert IndexEntry(t, sid); }
    forall h | h != l.hash ensures ListenersOf(t.c, h) == Registered(s.c.listeners, h) { assert Record(t, h); }
  }

  // ----- usable sockets

  /** `connect()` is called once for each scan of a non-empty table without a usable socket, and never
      otherwise. */
  lemma SweepConnects(c: Client)
    ensures Sweep(c).connects == c.connects + if c.order != [] && !c.connected && !c.idleTimer then 1 else 0
  {
    FoldKeepsUsers(CancelIdle(c), c.order);
  }

  /** A scan of a usable socket leaves it usable: the idle timer runs exactly when no topic is left,
      and the socket is connected otherwise. */
  lemma SweepIdleIff(c: Client)
    ensures Sweep(c).idleTimer <==> Sweep(c).order == [] && (c.connected || c.idleTimer)
    ensures c.connected || c.idleTimer ==> (Sweep(c).connected <==> Sweep(c).order != [])
  {
    FoldKeepsFlags(CancelIdle(c), c.order);
  }

  /** Subscribing while the idle timer runs takes the open socket back and sends the request at once. */
  lemma ResubscribeTakesSocketBack(s: Sys, h: Hash, cb: Callback)
    requires Reachable(s) && s.c.idleTimer && Enabled(s, UserSubscribe(h, cb))
    ensures
      var t := Next(s, UserSubscribe(h, cb));
      t.c.connected && !t.c.idleTimer && InFlight(t, h) && t.c.connects == s.c.connects
  {
    var t := Next(s, UserSubscribe(h, cb));
    SubscriberIsHeard(s, h, cb);
    ReachableInv(s);
    NextKeepsInv(s, UserSubscribe(h, cb));
    var d := Register(s.c, h, cb);
    SweepIdleIff(d);
    SweepConnects(d);
    assert h !in s.c.table && d.table[h].phase == Pending && d.order == [h];
    FoldOfOne(CancelIdle(d), d.order, h);
    assert Record(t, h) && Requests(t, h);
  }

  /** No socket error in the run since the socket opened last. */
  ghost predicate NoErrorSinceOpen(es: seq<Event>)
    decreases |es|
  {
    es == [] ||
    var e := es[|es| - 1];
    e == SocketOpen || (e != SocketError && NoErrorSinceOpen(es[..|es| - 1]))
  }

  /** In every run, an open socket that has met no error is used or about to be closed as idle. */
  lemma {:induction false} OpenSocketIsUsed(es: seq<Event>)
    requires Possible(START, es)
    ensures
      var s := Exec(START, es);
      s.socket == Up && NoErrorSinceOpen(es) ==> s.c.connected || s.c.idleTimer
    decreases |es|
  {
    if es != [] {
      var before, e := es[..|es| - 1], es[|es| - 1];
      assert es == before + [e];
      RunSplits(START, before, e);
      OpenSocketIsUsed(before);
      if NoErrorSinceOpen(es) { StaysUsable(Exec(START, before), e); }
    }
  }

  lemma {:induction false} RunSplits(s: Sys, es: seq<Event>, e: Event)
    requires Possible(s, es + [e])
    ensures Possible(s, es) && Enabled(Exec(s, es), e) && Exec(s, es + [e]) == Next(Exec(s, es), e)
    decreases |es|
  {
    if es == [] {
      assert es + [e] == [e] && [e][1..] == [];
    } else {
      assert (es + [e])[0] == es[0] && (es + [e])[1..] == es[1..] + [e];
      RunSplits(Next(s, es[0]), es[1..], e);
    }
  }

  ghost predicate InUse(c: Client) { c.connected || c.idleTimer }

  lemma StaysUsable(s: Sys, e: Event)
    requires Enabled(s, e) && e != SocketError
    requires e != SocketOpen && s.socket == Up ==> InUse(s.c)
    ensures Next(s, e).socket == Up ==> InUse(Next(s, e).c)
  {
    match e
    case UserSubscribe(h, cb) => SweepIdleIff(Register(s.c, h, cb));
    case UserDispose(id) => DisposeStaysUsable(s.c, id);
    case SocketOpen => SweepIdleIff(s.c.(connected := true));
    case SocketError =>
    case SocketClose(code) =>
    case IdleTimeout =>
    case Success(i, sid) => SweepIdleIff(Install(s.c, i, sid));
    case Failure(i) => SweepIdleIff(Restore(s.c, i));
    case SignatureDone(sid, threw) =>
      var d := s.c.(autoDisposed := s.c.autoDisposed + {sid});
      RunAllStaysUsable(d, Targets(d, sid, 0), threw);
  }

  lemma DisposeStaysUsable(c: Client, id: ClientId)
    ensures InUse(c) ==> InUse(Dispose(c, id))
  {
    if id in c.listeners { SweepIdleIff(Unregister(c, id)); }
  }

  lemma {:induction false} RunAllStaysUsable(c: Client, ids: seq<ClientId>, threw: set<ClientId>)
    ensures InUse(c) ==> InUse(RunAll(c, ids, threw))
    decreases |ids|
  {
    if ids != [] {
      DisposeStaysUsable(c, ids[0]);
      RunAllStaysUsable(if ids[0] in threw then c else Dispose(c, ids[0]), ids[1..], threw);
    }
  }

  lemma SweepWithoutSocket(c: Client)
    requires !InUse(c)
    ensures !InUse(Sweep(c)) && Sweep(c).calls == c.calls
  {
  }

  lemma {:induction false} RunAllWithoutSocket(c: Client, ids: seq<ClientId>, threw: set<ClientId>)
    requires !InUse(c)
    ensures !InUse(RunAll(c, ids, threw)) && RunAll(c, ids, threw).calls == c.calls
    decreases |ids|
  {
    if ids != [] {
      if ids[0] in c.listeners { SweepWithoutSocket(Unregister(c, ids[0])); }
      RunAllWithoutSocket(if ids[0] in threw then c else Dispose(c, ids[0]), ids[1..], threw);
    }
  }

  /** Without a usable socket nothing is sent, whatever happens, until a socket opens. */
  lemma UnusableSendsNothing(s: Sys, e: Event)
    requires Enabled(s, e) && !InUse(s.c) && e != SocketOpen
    ensures !InUse(Next(s, e).c) && Next(s, e).c.calls == s.c.calls
  {
    match e
    case UserSubscribe(h, cb) => SweepWithoutSocket(Register(s.c, h, cb));
    case UserDispose(id) => if id in s.c.listeners { SweepWithoutSocket(Unregister(s.c, id)); }
    case SocketError =>
    case SocketClose(code) => SweepWithoutSocket(s.c.(closes := s.c.closes + 1));
    case IdleTimeout =>
    case Success(i, sid) => SweepWithoutSocket(Install(s.c, i, sid));
    case Failure(i) => SweepWithoutSocket(Restore(s.c, i));
    case SignatureDone(sid, threw) =>
      var d := s.c.(autoDisposed := s.c.autoDisposed + {sid});
      RunAllWithoutSocket(d, Targets(d, sid, 0), threw);
  }

  /** A close, an idle timeout and an error stop the use of the socket; an error leaves an idle timer
      running.  Only a normal close with topics left connects at once. */
  lemma SocketIsGivenUp(s: Sys, e: Event)
    requires Reachable(s) && Enabled(s, e) && (e.SocketClose? || e == IdleTimeout || e == SocketError)
    ensures
      var t := Next(s, e);
      && !t.c.connected && t.c.calls == s.c.calls
      && (t.c.idleTimer <==> e == SocketError && s.c.idleTimer)
      && (t.c.connects == s.c.connects + if e == SocketClose(1000) && s.c.table != map[] then 1 else 0)
  {
    ReachableInv(s);
    if e.SocketClose? { SweepWithoutSocket(s.c.(connected := false, closes := s.c.closes + 1, idleTimer := false)); }
    assert s.c.order == [] <==> s.c.table == map[] by {
      if s.c.order != [] { assert s.c.order[0] in s.c.table; }
    }
  }

  // ----- ids the server keeps

  /** The topic holds this id as a subscription that the server still serves. */
  ghost predicate Serves(c: Client, h: Hash, sid: ServerId) {
    h in c.table && c.table[h].serverId == Some(sid) && (c.table[h].phase == Subscribed || c.table[h].phase == Unsubscribing)
  }

  /** An id of this connection that the server has neither confirmed to drop nor disposed of. */
  ghost predicate Live(s: Sys, sid: ServerId) {
    sid in s.issued && s.issued[sid].conn == s.c.closes && sid !in s.retired && sid !in s.disposed
  }

  ghost predicate Kept(s: Sys) {
    && s.c.autoDisposed <= s.disposed
    && (forall sid :: sid in s.issued ==> s.issued[sid].conn <= s.c.closes)
    && (forall sid :: Live(s, sid) ==> Serves(s.c, s.issued[sid].hash, sid))
  }

  lemma ProcessKeepsKept(s: Sys, k: Hash)
    requires Kept(s)
    ensures Kept(s.(c := Process(s.c, k)))
  {
    var t := s.(c := Process(s.c, k));
    ProcessDisposes(s.c, k);
    forall sid | Live(t, sid) ensures Serves(t.c, t.issued[sid].hash, sid) {
      assert Live(s, sid) && Serves(s.c, s.issued[sid].hash, sid);
      ProcessKeepsServing(s.c, k, s.issued[sid].hash, sid);
    }
  }

  lemma ProcessDisposes(c: Client, k: Hash)
    ensures Process(c, k).autoDisposed <= c.autoDisposed && Process(c, k).closes == c.closes
  {
  }

  /** Processing a topic gives up an id only if the server has disposed of it. */
  lemma ProcessKeepsServing(c: Client, k: Hash, h: Hash, sid: ServerId)
    requires Serves(c, h, sid) && sid !in c.autoDisposed
    ensures Serves(Process(c, k), h, sid)
  {
    if k != h { ProcessIsLocal(c, k); }
  }

  lemma {:induction false} FoldKeepsKept(s: Sys, keys: seq<Hash>)
    requires Kept(s)
    ensures Kept(s.(c := Fold(s.c, keys)))
    decreases |keys|
  {
    if keys != [] {
      ProcessKeepsKept(s, keys[0]);
      FoldKeepsKept(s.(c := Process(s.c, keys[0])), keys[1..]);
    }
  }

  /** What does not touch the table and the ids keeps them. */
  lemma SameIdsKept(s: Sys, t: Sys)
    requires Kept(s) && t == s.(c := t.c, socket := t.socket, answered := t.answered)
    requires t.c.closes == s.c.closes && t.c.autoDisposed == s.c.autoDisposed
    requires forall h :: h in s.c.table ==> h in t.c.table && t.c.table[h] == s.c.table[h]
    ensures Kept(t)
  {
    forall sid | Live(t, sid) ensures Serves(t.c, t.issued[sid].hash, sid) { assert Live(s, sid); }
  }

  lemma SweepKeepsKept(s: Sys)
    requires Kept(s)
    ensures Kept(s.(c := Sweep(s.c)))
  {
    var d := s.(c := CancelIdle(s.c));
    SameIdsKept(s, d);
    var u := d.(c := Fold(d.c, d.c.order));
    FoldKeepsKept(d, d.c.order);
    SameIdsKept(u, u.(c := GoIdleIfEmpty(u.c)));
    SameIdsKept(s, s.(c := GoIdleIfEmpty(s.c)));
    SameIdsKept(d, d.(c := d.c.(connects := d.c.connects + 1)));
  }

  lemma DisposeKeepsKept(s: Sys, id: ClientId)
    requires Kept(s)
    ensures Kept(s.(c := Dispose(s.c, id)))
  {
    if id in s.c.listeners {
      var u := s.(c := Unregister(s.c, id));
      SameIdsKept(s, u);
      SweepKeepsKept(u);
    }
  }

  lemma {:induction false} RunAllKeepsKept(s: Sys, ids: seq<ClientId>, threw: set<ClientId>)
    requires Kept(s)
    ensures Kept(s.(c := RunAll(s.c, ids, threw)))
    decreases |ids|
  {
    if ids != [] {
      DisposeKeepsKept(s, ids[0]);
      RunAllKeepsKept(s.(c := if ids[0] in threw then s.c else Dispose(s.c, ids[0])), ids[1..], threw);
    }
  }

  lemma AnswerKeepsKept(s: Sys, i: nat, sid: ServerId)
    requires Inv(s) && Kept(s) && Enabled(s, Success(i, sid))
    ensures Kept(Stored(s, i, sid))
  {
    var t, h := Stored(s, i, sid), s.c.calls[i].hash;
    assert Requests(s, h) && Matches(s, i) && LogEntry(s, i);
    forall x | Live(t, x) ensures Serves(t.c, t.issued[x].hash, x) {
      StoredServes(s, i, sid, x);
    }
    assert t.c.autoDisposed == s.c.autoDisposed && t.disposed == s.disposed;
  }

  lemma StoredServes(s: Sys, i: nat, sid: ServerId, x: ServerId)
    requires Kept(s) && Enabled(s, Success(i, sid)) && Matches(s, i) && LogEntry(s, i) && Live(Stored(s, i, sid), x)
    ensures Serves(Stored(s, i, sid).c, Stored(s, i, sid).issued[x].hash, x)
  {
    if s.c.calls[i].kind == UnsubscribeCall || x != sid {
      assert Live(s, x) && Serves(s.c, s.issued[x].hash, x);
    }
  }

  lemma FailureKeepsKept(s: Sys, i: nat)
    requires Inv(s) && Kept(s) && Enabled(s, Failure(i))
    ensures Kept(Next(s, Failure(i)))
  {
    var h, t := s.c.calls[i].hash, s.(c := Restore(s.c, i), answered := s.answered + {i});
    assert Requests(s, h) && LogEntry(s, i);
    if Current(s, i) {
      assert Matches(s, i);
      forall x | Live(t, x) ensures Serves(t.c, t.issued[x].hash, x) {
        assert Live(s, x) && Serves(s.c, s.issued[x].hash, x);
      }
      SweepKeepsKept(t);
    } else {
      StaleIsRecognised(s.c.calls[i].conn, s.c.closes);
      SameIdsKept(s, s.(answered := s.answered + {i}));
    }
  }

  lemma CloseKeepsKept(s: Sys, code: nat)
    requires Kept(s)
    ensures Kept(Next(s, SocketClose(code)))
  {
    var d := s.c.(connected := false, closes := s.c.closes + 1, idleTimer := false);
    var t := s.(c := d, socket := Down);
    assert forall sid :: !Live(t, sid);
    SweepKeepsKept(t);
  }

  lemma NextKeepsKept(s: Sys, e: Event)
    requires Inv(s) && Kept(s) && Enabled(s, e)
    ensures Kept(Next(s, e))
  {
    match e
    case UserSubscribe(h, cb) =>
      var u := s.(c := Register(s.c, h, cb));
      SameIdsKept(s, u);
      SweepKeepsKept(u);
    case UserDispose(id) => DisposeKeepsKept(s, id);
    case SocketOpen =>
      var u := s.(c := s.c.(connected := true), socket := Up);
      SameIdsKept(s, u);
      SweepKeepsKept(u);
    case SocketError => SameIdsKept(s, Next(s, e));
    case SocketClose(code) => CloseKeepsKept(s, code);
    case IdleTimeout => SameIdsKept(s, Next(s, e));
    case Success(i, sid) =>
      AnswerKeepsKept(s, i, sid);
      SweepKeepsKept(Stored(s, i, sid));
    case Failure(i) => FailureKeepsKept(s, i);
    case SignatureDone(sid, threw) =>
      var t := Announced(s, sid);
      forall x | Live(t, x) ensures Serves(t.c, t.issued[x].hash, x) { assert Live(s, x); }
      RunAllKeepsKept(t, Targets(t.c, sid, 0), threw);
  }

  lemma {:induction false} RunKeepsKept(s: Sys, es: seq<Event>)
    requires Inv(s) && Kept(s) && Possible(s, es)
    ensures Kept(Exec(s, es))
    decreases |es|
  {
    if es != [] {
      NextKeepsInv(s, es[0]);
      NextKeepsKept(s, es[0]);
      RunKeepsKept(Next(s, es[0]), es[1..]);
    }
  }

  /** In every reachable state, the client still holds every subscription that the server keeps for it:
      an id handed out on this connection, neither confirmed as dropped nor disposed of, belongs to
      the topic it was given to, which is subscribed or being unsubscribed. */
  lemma LiveIdsAreHeld(s: Sys, sid: ServerId)
    requires Reachable(s) && Live(s, sid)
    ensures Serves(s.c, s.issued[sid].hash, sid)
  {
    var es :| Possible(START, es) && s == Exec(START, es);
    assert Kept(START);
    RunKeepsKept(START, es);
  }
}
