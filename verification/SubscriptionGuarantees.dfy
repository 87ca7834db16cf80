/** What the invariant means for users of the client, over every run from the initial state. */
module SubscriptionGuarantees {
  import opened Wrappers
  import opened SubscriptionModel
  import opened SubscriptionSweep
  import opened SubscriptionSystem
  import opened SubscriptionInvariant

  /** The states some possible run reaches. */
  ghost predicate Reachable(s: Sys) {
    exists es :: Possible(START, es) && s == Exec(START, es)
  }

  lemma ReachableInv(s: Sys)
    requires Reachable(s)
    ensures Inv(s)
  {
    var es :| Possible(START, es) && s == Exec(START, es);
    RunKeepsInv(START, es);
  }

  /** Between events of a usable connection, every topic is in progress or subscribed with
      listeners; and the idle timer only runs while there are no topics. */
  lemma ConnectedMeansSettled(s: Sys, h: Hash)
    requires Reachable(s)
    ensures s.c.connected && h in s.c.table ==>
              || InProgress(s.c.table[h])
              || (s.c.table[h].phase == Subscribed && Registered(s.c.listeners, h) != {})
    ensures s.c.idleTimer ==> s.c.table == map[]
  {
    ReachableInv(s);
    assert Record(s, h);
    if s.c.connected && h in s.c.table { assert Settled(s.c, h); }
    if s.c.idleTimer { assert forall g :: g !in s.c.table; }
  }

  /** A listener of a working connection waits on a subscription the server has disposed of, so
      it will never be notified. */
  ghost predicate Stranded(c: Client, h: Hash) {
    && c.connected && h in c.table && c.table[h].phase == Subscribed && AutoDisposed(c, c.table[h])
    && ListenersOf(c, h) != {}
  }

  /** When no request is outstanding, each live listener's topic is subscribed under an id that
      the server gave it on this connection and has not confirmed to drop; and the server has not
      disposed of the id by itself, unless the topic is stranded. */
  lemma QuietMeansSubscribed(s: Sys, id: ClientId)
    requires Reachable(s) && s.c.connected && id in s.c.listeners
    requires forall i: nat :: !Current(s, i)
    ensures var h := s.c.listeners[id].hash;
      && h in s.c.table && s.c.table[h].phase == Subscribed && s.c.table[h].serverId.Some?
      && var sid := s.c.table[h].serverId.value;
         && sid in s.issued && s.issued[sid] == Grant(h, s.c.closes) && sid !in s.retired
         && (sid in s.disposed <==> Stranded(s.c, h))
  {
    ReachableInv(s);
    var h := s.c.listeners[id].hash;
    assert s.c.listeners[id].callback in Registered(s.c.listeners, h);
    assert Record(s, h) && Requests(s, h);
    assert Settled(s.c, h);
  }

  /** The dispose function of a live listener finds its topic and its callback there. */
  lemma DisposeFindsItsTopic(s: Sys, id: ClientId)
    requires Reachable(s) && id in s.c.listeners
    ensures !DisposeThrows(s.c, id)
    ensures s.c.listeners[id].callback in ListenersOf(s.c, s.c.listeners[id].hash)
  {
    ReachableInv(s);
    var h := s.c.listeners[id].hash;
    assert s.c.listeners[id].callback in Registered(s.c.listeners, h);
    assert Record(s, h);
  }

  /** On the present connection a topic has exactly one outstanding request while it is
      subscribing or unsubscribing, of that kind, and none otherwise. */
  lemma OneRequestPerTopic(s: Sys, h: Hash)
    requires Reachable(s)
    ensures InFlight(s, h) <==> h in s.c.table && InProgress(s.c.table[h])
    ensures forall i: nat, j: nat :: Current(s, i) && Current(s, j) && s.c.calls[i].hash == s.c.calls[j].hash ==> i == j
    ensures forall i: nat :: Current(s, i) && s.c.calls[i].hash == h ==>
              s.c.table[h].phase == (if s.c.calls[i].kind == SubscribeCall then Subscribing else Unsubscribing)
  {
    ReachableInv(s);
    assert Requests(s, h);
    forall i: nat, j: nat | Current(s, i) && Current(s, j) && s.c.calls[i].hash == s.c.calls[j].hash
      ensures i == j
    {
      assert Requests(s, s.c.calls[i].hash);
    }
  }

  /** Every unsubscribe ever sent carried the id given to its topic on the connection it used. */
  lemma UnsubscribesCarryGrantedIds(s: Sys, i: nat)
    requires Reachable(s) && i < |s.c.calls| && s.c.calls[i].kind == UnsubscribeCall
    ensures s.c.calls[i].captured.serverId.Some?
    ensures var sid := s.c.calls[i].captured.serverId.value;
      sid in s.issued && s.issued[sid] == Grant(s.c.calls[i].hash, s.c.calls[i].conn)
  {
    ReachableInv(s);
    assert LogEntry(s, i);
  }

  // ----- notifications

  /** A notification runs listeners of the topic its id was issued for, or nobody; while the topic
      holds the id it runs exactly the listeners registered now, whenever they were added. */
  lemma NotificationsReachLiveListeners(s: Sys, sid: ServerId)
    requires Reachable(s)
    ensures Delivered(s.c, sid) != {} ==>
              sid in s.issued && Delivered(s.c, sid) == Registered(s.c.listeners, s.issued[sid].hash)
    ensures forall h :: h in s.c.table && s.c.table[h].serverId == Some(sid)
                        && (s.c.table[h].phase == Subscribed || s.c.table[h].phase == Unsubscribing) ==>
              Delivered(s.c, sid) == Registered(s.c.listeners, h)
  {
    ReachableInv(s);
    if sid in s.c.index {
      assert IndexEntry(s, sid);
      assert Record(s, s.issued[sid].hash);
    }
    forall h | h in s.c.table && s.c.table[h].serverId == Some(sid)
               && (s.c.table[h].phase == Subscribed || s.c.table[h].phase == Unsubscribing)
      ensures Delivered(s.c, sid) == Registered(s.c.listeners, h)
    {
      assert Record(s, h);
    }
  }

  /** No request is ever sent for an id the server is known to have disposed of. */
  ghost predicate CleanCalls(s: Sys, from: nat) {
    forall i :: from <= i < |s.c.calls| && s.c.calls[i].kind == UnsubscribeCall ==>
      s.c.calls[i].captured.serverId.Some? && s.c.calls[i].captured.serverId.value !in s.disposed
  }

  lemma ProcessSendsCleanCalls(s: Sys, h: Hash, from: nat)
    requires Core(s) && CleanCalls(s, from)
    ensures CleanCalls(s.(c := Process(s.c, h)), from)
    ensures |s.c.calls| <= |Process(s.c, h).calls| && Process(s.c, h).calls[..|s.c.calls|] == s.c.calls
  {
    assert Record(s, h);
  }

  lemma {:induction false} FoldSendsCleanCalls(s: Sys, keys: seq<Hash>, from: nat)
    requires Core(s) && s.socket == Up && CleanCalls(s, from)
    ensures CleanCalls(s.(c := Fold(s.c, keys)), from)
    decreases |keys|
  {
    if keys != [] {
      ProcessSendsCleanCalls(s, keys[0], from);
      ProcessKeepsCore(s, keys[0]);
      FoldSendsCleanCalls(s.(c := Process(s.c, keys[0])), keys[1..], from);
    }
  }

  lemma SweepSendsCleanCalls(s: Sys, from: nat)
    requires Core(s) && CleanCalls(s, from)
    ensures CleanCalls(s.(c := Sweep(s.c)), from)
  {
    var d := s.(c := CancelIdle(s.c));
    if s.c.order != [] && d.c.connected {
      FlagsKeepCore(s, d);
      FoldSendsCleanCalls(d, d.c.order, from);
    }
  }

  lemma {:induction false} RunAllSendsCleanCalls(s: Sys, ids: seq<ClientId>, threw: set<ClientId>, from: nat)
    requires Inv(s) && CleanCalls(s, from)
    ensures CleanCalls(s.(c := RunAll(s.c, ids, threw)), from)
    decreases |ids|
  {
    if ids != [] {
      DisposeSendsCleanCalls(s, ids[0], from);
      DisposeKeepsInv(s, ids[0]);
      var c := if ids[0] in threw then s.c else Dispose(s.c, ids[0]);
      RunAllSendsCleanCalls(s.(c := c), ids[1..], threw, from);
    }
  }

  lemma DisposeSendsCleanCalls(s: Sys, id: ClientId, from: nat)
    requires Inv(s) && CleanCalls(s, from)
    ensures CleanCalls(s.(c := Dispose(s.c, id)), from)
  {
    if id in s.c.listeners {
      UnregisterKeepsCore(s, id);
      SweepSendsCleanCalls(s.(c := Unregister(s.c, id)), from);
    }
  }

  /** Whatever happens next, the unsubscribes it sends are not for ids known to be disposed of. */
  lemma NoUnsubscribeOfDisposedIds(s: Sys, e: Event)
    requires Reachable(s) && Enabled(s, e)
    ensures CleanCalls(Next(s, e), |s.c.calls|)
  {
    ReachableInv(s);
    match e
    case UserSubscribe(h, cb) =>
      if h in s.c.table { JoinKeepsCore(s, h, cb); } else { CreateKeepsCore(s, h, cb); }
      SweepSendsCleanCalls(s.(c := Register(s.c, h, cb)), |s.c.calls|);
    case UserDispose(id) => DisposeSendsCleanCalls(s, id, |s.c.calls|);
    case SocketOpen =>
      var t := s.(c := s.c.(connected := true), socket := Up);
      FlagsKeepCore(s, t);
      SweepSendsCleanCalls(t, |s.c.calls|);
    case SocketError =>
    case SocketClose(code) =>
    case IdleTimeout =>
    case Success(i, sid) =>
      if s.c.calls[i].kind == SubscribeCall {
        SubscribeAnswerKeepsCore(s, i, sid);
      } else {
        UnsubscribeAnswerKeepsCore(s, i, sid);
      }
      SweepSendsCleanCalls(Stored(s, i, sid), |s.c.calls|);
    case Failure(i) =>
      if Current(s, i) {
        RestoreKeepsCore(s, i);
        SweepSendsCleanCalls(s.(c := Restore(s.c, i), answered := s.answered + {i}), |s.c.calls|);
      } else {
        assert LogEntry(s, i);
        StaleIsRecognised(s.c.calls[i].conn, s.c.closes);
      }
    case SignatureDone(sid, threw) =>
      AnnouncementKeepsInv(s, sid);
      var t := Announced(s, sid);
      RunAllSendsCleanCalls(t, Targets(t.c, sid, 0), threw, |s.c.calls|);
  }
}
