/** Every event keeps the invariant, so it holds in every reachable state. */
module SubscriptionInvariant {
  import opened Wrappers
  import opened SubscriptionModel
  import opened SubscriptionSweep
  import opened SubscriptionSystem
  import opened SubscriptionFrame

  // ----- what a scan does for one key

  lemma NothingInFlight(s: Sys, h: Hash)
    requires Topics(s) && (h in s.c.table ==> !InProgress(s.c.table[h]))
    ensures forall i: nat :: Current(s, i) ==> s.c.calls[i].hash != h
  {
    assert Requests(s, h);
  }

  lemma ForgetKeepsCore(s: Sys, h: Hash)
    requires Core(s) && h in s.c.table && ListenersOf(s.c, h) == {}
    requires s.c.table[h].phase == Pending || s.c.table[h].phase == Unsubscribed
    ensures Core(s.(c := Forget(s.c, h)))
  {
    var t := s.(c := Forget(s.c, h));
    assert Record(s, h);
    NothingInFlight(s, h);
    assert forall i: nat :: Current(t, i) ==> Current(s, i);
    FrameCore(s, t, h);
  }

  lemma RetireKeepsCore(s: Sys, h: Hash)
    requires Core(s) && s.socket == Up && h in s.c.table && s.c.table[h].phase == Subscribed
    requires AutoDisposed(s.c, s.c.table[h])
    ensures Core(s.(c := Retire(s.c, h)))
  {
    var t := s.(c := Retire(s.c, h));
    assert Record(s, h);
    NothingInFlight(s, h);
    assert forall i: nat :: Current(t, i) ==> Current(s, i);
    FrameCore(s, t, h);
  }

  lemma SendKeepsCore(s: Sys, h: Hash, kind: CallKind)
    requires Core(s) && s.socket == Up && h in s.c.table
    requires if kind == SubscribeCall then s.c.table[h].phase == Pending || s.c.table[h].phase == Unsubscribed
             else s.c.table[h].phase == Subscribed
    ensures Core(s.(c := Send(s.c, h, kind)))
  {
    var t := s.(c := Send(s.c, h, kind));
    assert Record(s, h);
    NothingInFlight(s, h);
    assert Current(t, |s.c.calls|) && t.c.calls[|s.c.calls|].hash == h;
    assert forall i: nat :: Current(t, i) && i != |s.c.calls| ==> Current(s, i);
    FrameCore(s, t, h);
  }

  lemma ProcessKeepsCore(s: Sys, h: Hash)
    requires Core(s) && s.socket == Up
    ensures Core(s.(c := Process(s.c, h)))
  {
    if h in s.c.table {
      var quiet := ListenersOf(s.c, h) == {};
      match s.c.table[h].phase
      case Pending => if quiet { ForgetKeepsCore(s, h); } else { SendKeepsCore(s, h, SubscribeCall); }
      case Unsubscribed => if quiet { ForgetKeepsCore(s, h); } else { SendKeepsCore(s, h, SubscribeCall); }
      case Subscribed =>
        if quiet {
          if AutoDisposed(s.c, s.c.table[h]) {
            RetireKeepsCore(s, h);
            ForgetKeepsCore(s.(c := Retire(s.c, h)), h);
          } else {
            SendKeepsCore(s, h, UnsubscribeCall);
          }
        }
      case Subscribing =>
      case Unsubscribing =>
    }
  }

  lemma {:induction false} FoldKeepsCore(s: Sys, keys: seq<Hash>)
    requires Core(s) && s.socket == Up
    ensures Core(s.(c := Fold(s.c, keys)))
    decreases |keys|
  {
    if keys != [] {
      ProcessKeepsCore(s, keys[0]);
      FoldKeepsCore(s.(c := Process(s.c, keys[0])), keys[1..]);
    }
  }

  /** The flags, the socket and the connect counter concern `Flow` only. */
  lemma FlagsKeepCore(s: Sys, t: Sys)
    requires Core(s) && Flow(t)
    requires t == s.(socket := t.socket,
                     c := s.c.(connected := t.c.connected, idleTimer := t.c.idleTimer, connects := t.c.connects))
    ensures Core(t)
  {
    var h := "";
    assert Record(s, h) && Requests(s, h);
    SameFlights(s, t, h);
    FrameCore(s, t, h);
  }

  lemma SweepEstablishesInv(s: Sys)
    requires Core(s)
    ensures Inv(s.(c := Sweep(s.c)))
  {
    var c := s.c;
    SweepSettles(c);
    if c.order == [] {
      FlagsKeepCore(s, s.(c := GoIdleIfEmpty(c)));
    } else {
      var d := CancelIdle(c);
      if d.connected {
        FlagsKeepCore(s, s.(c := d));
        FoldKeepsCore(s.(c := d), d.order);
        FoldKeepsFlags(d, d.order);
        var u := s.(c := Fold(d, d.order));
        FlagsKeepCore(u, u.(c := GoIdleIfEmpty(u.c)));
      } else {
        FlagsKeepCore(s, s.(c := d.(connects := d.connects + 1)));
      }
    }
  }

  lemma {:induction false} FoldKeepsFlags(c: Client, keys: seq<Hash>)
    ensures Fold(c, keys).connected == c.connected && Fold(c, keys).idleTimer == c.idleTimer
    decreases |keys|
  {
    if keys != [] { FoldKeepsFlags(Process(c, keys[0]), keys[1..]); }
  }

  // ----- user calls

  lemma RegisteredAfterAdd(ls: map<ClientId, Listener>, id: ClientId, l: Listener)
    requires id !in ls
    ensures Registered(ls[id := l], l.hash) == Registered(ls, l.hash) + {l.callback}
    ensures forall g :: g != l.hash ==> Registered(ls[id := l], g) == Registered(ls, g)
  {
    var ms := ls[id := l];
    forall cb | cb in Registered(ls, l.hash) ensures cb in Registered(ms, l.hash) {
      var i :| i in ls && ls[i].hash == l.hash && ls[i].callback == cb;
      assert ms[i] == ls[i];
    }
    assert ms[id] == l;
    forall g | g != l.hash ensures Registered(ms, g) == Registered(ls, g) {
      forall cb | cb in Registered(ls, g) ensures cb in Registered(ms, g) {
        var i :| i in ls && ls[i].hash == g && ls[i].callback == cb;
        assert ms[i] == ls[i];
      }
    }
  }

  lemma RegisteredAfterRemove(ls: map<ClientId, Listener>, id: ClientId)
    requires id in ls && forall i :: i in ls && i != id ==> ls[i] != ls[id]
    ensures Registered(ls - {id}, ls[id].hash) == Registered(ls, ls[id].hash) - {ls[id].callback}
    ensures forall g :: g != ls[id].hash ==> Registered(ls - {id}, g) == Registered(ls, g)
  {
    var ms, h := ls - {id}, ls[id].hash;
    forall cb | cb in Registered(ls, h) - {ls[id].callback} ensures cb in Registered(ms, h) {
      var i :| i in ls && ls[i].hash == h && ls[i].callback == cb;
      assert ms[i] == ls[i];
    }
    forall g | g != h ensures Registered(ms, g) == Registered(ls, g) {
      forall cb | cb in Registered(ls, g) ensures cb in Registered(ms, g) {
        var i :| i in ls && ls[i].hash == g && ls[i].callback == cb;
        assert ms[i] == ls[i];
      }
    }
  }

  lemma JoinedRecord(s: Sys, h: Hash, cb: Callback)
    requires Core(s) && h in s.c.table
    ensures var t := s.(c := Register(s.c, h, cb));
      Record(t, h) && Requests(t, h) && SameTables(s, t, h)
  {
    var t := s.(c := Register(s.c, h, cb));
    RegisteredAfterAdd(s.c.listeners, s.c.nextClientId, Listener(h, cb));
    assert Record(s, h) && Requests(s, h);
    SameFlights(s, t, h);
  }

  lemma JoinKeepsCore(s: Sys, h: Hash, cb: Callback)
    requires Core(s) && Fresh(s.c, h, cb) && h in s.c.table
    ensures Core(s.(c := Register(s.c, h, cb)))
  {
    JoinedRecord(s, h, cb);
    FrameCore(s, s.(c := Register(s.c, h, cb)), h);
  }

  lemma CreateKeepsCore(s: Sys, h: Hash, cb: Callback)
    requires Core(s) && Fresh(s.c, h, cb) && h !in s.c.table
    ensures Core(s.(c := Register(s.c, h, cb)))
  {
    var t := s.(c := Register(s.c, h, cb));
    RegisteredAfterAdd(s.c.listeners, s.c.nextClientId, Listener(h, cb));
    assert Record(s, h);
    NothingInFlight(s, h);
    assert forall i: nat :: Current(t, i) ==> Current(s, i);
    assert Record(t, h);
    assert KeysListed(t.c);
    FrameCore(s, t, h);
  }

  /** Without new calls, answers or closes, a request in flight stays in flight. */
  lemma SameFlights(s: Sys, t: Sys, h: Hash)
    requires t.c.calls == s.c.calls && t.c.closes == s.c.closes && t.answered == s.answered
    ensures forall i: nat :: Current(t, i) <==> Current(s, i)
    ensures InFlight(t, h) <==> InFlight(s, h)
  {
    if InFlight(s, h) {
      var i: nat :| Current(s, i) && s.c.calls[i].hash == h;
      assert Current(t, i);
    }
    if InFlight(t, h) {
      var i: nat :| Current(t, i) && t.c.calls[i].hash == h;
      assert Current(s, i);
    }
  }

  lemma UnregisterKeepsCore(s: Sys, id: ClientId)
    requires Core(s) && id in s.c.listeners
    ensures !DisposeThrows(s.c, id)
    ensures Core(s.(c := Unregister(s.c, id)))
  {
    var t, h := s.(c := Unregister(s.c, id)), s.c.listeners[id].hash;
    assert s.c.listeners[id].callback in Registered(s.c.listeners, h);
    RegisteredAfterRemove(s.c.listeners, id);
    assert Record(s, h) && Requests(s, h);
    SameFlights(s, t, h);
    FrameCore(s, t, h);
  }

  // ----- answers

  /** The system just after an answer to call `i` was stored, before the table is swept. */
  function Stored(s: Sys, i: nat, sid: ServerId): Sys
    requires i < |s.c.calls|
  {
    Next(s, Success(i, sid)).(c := Install(s.c, i, sid))
  }

  /** Storing an answer concerns the topic of its call only. */
  lemma StoredIsLocal(s: Sys, i: nat, sid: ServerId)
    requires Enabled(s, Success(i, sid)) && Matches(s, i) && LogEntry(s, i)
    ensures var t, h := Stored(s, i, sid), s.c.calls[i].hash;
      SameTables(s, t, h) && SameIds(s, t, h) && SameCalls(s, t, h) && KeepsSet(s, t, h)
  {
  }

  lemma StoredKeepsFlow(s: Sys, i: nat, sid: ServerId)
    requires Core(s) && Enabled(s, Success(i, sid)) && Matches(s, i)
    ensures var t := Stored(s, i, sid);
      && KeysListed(t.c) && Users(t) && Flow(t) && t.c.calls == s.c.calls
      && (forall i :: i in t.answered ==> i < |t.c.calls|)
  {
    NothingCurrentWhileDown(s, i);
  }

  /** Without a connection no request is outstanding. */
  lemma NothingCurrentWhileDown(s: Sys, i: nat)
    requires Core(s)
    ensures s.socket != Up ==> !Current(s, i)
  {
    if i < |s.c.calls| { assert Requests(s, s.c.calls[i].hash); }
  }

  lemma GrantedRecord(s: Sys, i: nat, sid: ServerId)
    requires Core(s) && Enabled(s, Success(i, sid)) && s.c.calls[i].kind == SubscribeCall && Matches(s, i)
    ensures var t, h := Stored(s, i, sid), s.c.calls[i].hash;
      && h in t.c.table && Record(t, h) && Requests(t, h)
      && sid in t.c.index && IndexEntry(t, sid)
  {
    var t, h := Stored(s, i, sid), s.c.calls[i].hash;
    assert Record(s, h);
    OnlyFlight(s, t, i);
  }

  lemma SubscribeAnswerKeepsCore(s: Sys, i: nat, sid: ServerId)
    requires Core(s) && Enabled(s, Success(i, sid)) && s.c.calls[i].kind == SubscribeCall
    ensures Core(Stored(s, i, sid))
  {
    var t, h := Stored(s, i, sid), s.c.calls[i].hash;
    assert Requests(s, h) && Matches(s, i) && LogEntry(s, i);
    StoredIsLocal(s, i, sid);
    StoredKeepsFlow(s, i, sid);
    GrantedRecord(s, i, sid);
    FrameCore(s, t, h);
  }

  lemma DroppedRecord(s: Sys, i: nat, sid: ServerId)
    requires Core(s) && Enabled(s, Success(i, sid)) && s.c.calls[i].kind == UnsubscribeCall && Matches(s, i)
    ensures var t, h := Stored(s, i, sid), s.c.calls[i].hash;
      h in t.c.table && Record(t, h) && Requests(t, h) && t.c.index == s.c.index
  {
    var t, h := Stored(s, i, sid), s.c.calls[i].hash;
    assert Record(s, h) && LogEntry(s, i);
    OnlyFlight(s, t, i);
  }

  lemma UnsubscribeAnswerKeepsCore(s: Sys, i: nat, sid: ServerId)
    requires Core(s) && Enabled(s, Success(i, sid)) && s.c.calls[i].kind == UnsubscribeCall
    ensures Core(Stored(s, i, sid))
  {
    var t, h := Stored(s, i, sid), s.c.calls[i].hash;
    assert Requests(s, h) && Matches(s, i) && LogEntry(s, i);
    StoredIsLocal(s, i, sid);
    StoredKeepsFlow(s, i, sid);
    DroppedRecord(s, i, sid);
    FrameCore(s, t, h);
  }

  lemma RestoreKeepsCore(s: Sys, i: nat)
    requires Core(s) && Current(s, i)
    ensures Core(s.(c := Restore(s.c, i), answered := s.answered + {i}))
  {
    var t, h := s.(c := Restore(s.c, i), answered := s.answered + {i}), s.c.calls[i].hash;
    assert Record(s, h) && Requests(s, h) && Matches(s, i) && LogEntry(s, i);
    OnlyFlight(s, t, i);
    FrameCore(s, t, h);
  }

  /** The answered request was the only one in flight for its topic. */
  lemma OnlyFlight(s: Sys, t: Sys, i: nat)
    requires Topics(s) && Current(s, i)
    requires t.c.calls == s.c.calls && t.c.closes == s.c.closes && t.answered == s.answered + {i}
    ensures forall j: nat :: Current(t, j) ==> Current(s, j) && t.c.calls[j].hash != s.c.calls[i].hash
  {
    assert Requests(s, s.c.calls[i].hash);
  }

  /** The answer to a request of an earlier connection changes no topic. */
  lemma StaleAnswerKeepsCore(s: Sys, i: nat)
    requires Core(s) && Waiting(s, i) && !Current(s, i)
    ensures Core(s.(answered := s.answered + {i}))
  {
    var t, h := s.(answered := s.answered + {i}), s.c.calls[i].hash;
    assert Record(s, h) && Requests(s, h);
    assert forall j: nat :: Current(t, j) <==> Current(s, j);
    if InFlight(s, h) {
      var j: nat :| Current(s, j) && s.c.calls[j].hash == h;
      assert Current(t, j);
    }
    FrameCore(s, t, h);
  }

  // ----- closing

  /** With every topic pending and the calls of the old connection void, the core starts over. */
  lemma FreshConnectionKeepsCore(s: Sys, t: Sys)
    requires Core(s) && t.socket == Down && !t.c.connected && !t.c.idleTimer
    requires t == s.(socket := Down, c := s.c.(connected := false, idleTimer := false, closes := s.c.closes + 1,
                                               index := t.c.index, table := t.c.table))
    requires t.c.table.Keys == s.c.table.Keys
    requires forall h :: h in t.c.table ==> t.c.table[h] == s.c.table[h].(phase := Pending)
    requires t.c.index == s.c.index || t.c.index == map[]
    ensures Core(t)
  {
    forall i: nat | i < |t.c.calls| ensures LogEntry(t, i) && !Current(t, i) { assert LogEntry(s, i); }
    forall h ensures Record(t, h) { assert Record(s, h); }
    forall sid | sid in t.c.index ensures IndexEntry(t, sid) { assert IndexEntry(s, sid); }
  }

  // ----- every event

  lemma DisposeKeepsInv(s: Sys, id: ClientId)
    requires Inv(s)
    ensures Inv(s.(c := Dispose(s.c, id)))
  {
    if id in s.c.listeners {
      UnregisterKeepsCore(s, id);
      SweepEstablishesInv(s.(c := Unregister(s.c, id)));
    }
  }

  lemma {:induction false} RunAllKeepsInv(s: Sys, ids: seq<ClientId>, threw: set<ClientId>)
    requires Inv(s)
    ensures Inv(s.(c := RunAll(s.c, ids, threw)))
    decreases |ids|
  {
    if ids != [] {
      DisposeKeepsInv(s, ids[0]);
      var c := if ids[0] in threw then s.c else Dispose(s.c, ids[0]);
      RunAllKeepsInv(s.(c := c), ids[1..], threw);
    }
  }

  function Announced(s: Sys, sid: ServerId): Sys {
    s.(c := s.c.(autoDisposed := s.c.autoDisposed + {sid}), disposed := s.disposed + {sid})
  }

  lemma AnnouncementKeepsInv(s: Sys, sid: ServerId)
    requires Inv(s) && sid in s.issued
    ensures Inv(Announced(s, sid))
  {
    var t, h := Announced(s, sid), s.issued[sid].hash;
    assert Record(s, h) && Requests(s, h);
    SameFlights(s, t, h);
    FrameCore(s, t, h);
    AnnouncementKeepsSettled(s.c, t.c);
  }

  lemma AnnouncementKeepsSettled(c: Client, d: Client)
    requires d == c.(autoDisposed := d.autoDisposed)
    ensures AllSettled(d) <==> AllSettled(c)
  {
    forall g ensures Settled(d, g) <==> Settled(c, g) {}
  }

  lemma CloseKeepsInv(s: Sys, code: nat)
    requires Inv(s) && Enabled(s, SocketClose(code))
    ensures Inv(Next(s, SocketClose(code)))
  {
    var d := s.c.(connected := false, closes := s.c.closes + 1, idleTimer := false);
    if code == NORMAL_CLOSURE {
      var t := s.(c := d, socket := Down);
      FreshConnectionKeepsCore(s, t);
      SweepEstablishesInv(t);
    } else {
      FreshConnectionKeepsCore(s, s.(c := Reset(d), socket := Down));
    }
  }

  lemma FailureKeepsInv(s: Sys, i: nat)
    requires Inv(s) && Enabled(s, Failure(i))
    ensures Inv(Next(s, Failure(i)))
  {
    assert LogEntry(s, i);
    if Current(s, i) {
      RestoreKeepsCore(s, i);
      SweepEstablishesInv(s.(c := Restore(s.c, i), answered := s.answered + {i}));
    } else {
      StaleIsRecognised(s.c.calls[i].conn, s.c.closes);
      StaleAnswerKeepsCore(s, i);
    }
  }

  lemma StaleIsRecognised(conn: nat, closes: nat)
    requires conn < closes < conn + MAX_SAFE_INTEGER
    ensures conn % MAX_SAFE_INTEGER != closes % MAX_SAFE_INTEGER
  {
  }

  /** Every enabled event keeps the invariant. */
  lemma NextKeepsInv(s: Sys, e: Event)
    requires Inv(s) && Enabled(s, e)
    ensures Inv(Next(s, e))
  {
    match e
    case UserSubscribe(h, cb) =>
      if h in s.c.table { JoinKeepsCore(s, h, cb); } else { CreateKeepsCore(s, h, cb); }
      SweepEstablishesInv(s.(c := Register(s.c, h, cb)));
    case UserDispose(id) => DisposeKeepsInv(s, id);
    case SocketOpen =>
      var t := s.(c := s.c.(connected := true), socket := Up);
      FlagsKeepCore(s, t);
      SweepEstablishesInv(t);
    case SocketError => FlagsKeepCore(s, Next(s, e));
    case SocketClose(code) => CloseKeepsInv(s, code);
    case IdleTimeout => FlagsKeepCore(s, Next(s, e));
    case Success(i, sid) =>
      if s.c.calls[i].kind == SubscribeCall {
        SubscribeAnswerKeepsCore(s, i, sid);
      } else {
        UnsubscribeAnswerKeepsCore(s, i, sid);
      }
      SweepEstablishesInv(Stored(s, i, sid));
    case Failure(i) => FailureKeepsInv(s, i);
    case SignatureDone(sid, threw) =>
      AnnouncementKeepsInv(s, sid);
      var t := Announced(s, sid);
      RunAllKeepsInv(t, Targets(t.c, sid, 0), threw);
  }

  // ----- whole runs

  function Exec(s: Sys, es: seq<Event>): Sys
    decreases |es|
  {
    if es == [] then s else Exec(Next(s, es[0]), es[1..])
  }

  ghost predicate Possible(s: Sys, es: seq<Event>)
    decreases |es|
  {
    es == [] || (Enabled(s, es[0]) && Possible(Next(s, es[0]), es[1..]))
  }

  lemma {:induction false} RunKeepsInv(s: Sys, es: seq<Event>)
    requires Inv(s) && Possible(s, es)
    ensures Inv(Exec(s, es))
    decreases |es|
  {
    if es != [] {
      NextKeepsInv(s, es[0]);
      RunKeepsInv(Next(s, es[0]), es[1..]);
    }
  }
}
