/**
 Where the guarantees stop: what happens when an assumption about the environment fails, and the
 one run allowed by the assumptions that leaves a listener without notifications.
 */
module SubscriptionLimits {
  import opened Wrappers
  import opened SubscriptionModel
  import opened SubscriptionSweep
  import opened SubscriptionSystem
  import opened SubscriptionInvariant
  import opened SubscriptionGuarantees

  // ----- listeners that share a callback value

  /** Disposing of one listener spares the others on its topic exactly when none of them uses the
      same callback value. */
  lemma DisposeSparesOthersIffDistinct(c: Client, id: ClientId)
    requires id in c.listeners && c.listeners[id].hash in c.table
    requires c.table[c.listeners[id].hash].callbacks < |c.sets|
    requires ListenersOf(c, c.listeners[id].hash) == Registered(c.listeners, c.listeners[id].hash)
    ensures var h, d := c.listeners[id].hash, Unregister(c, id);
      ListenersOf(d, h) == Registered(d.listeners, h)
      <==> (forall j :: j in c.listeners && j != id ==> c.listeners[j] != c.listeners[id])
  {
    var h, d, cb := c.listeners[id].hash, Unregister(c, id), c.listeners[id].callback;
    if forall j :: j in c.listeners && j != id ==> c.listeners[j] != c.listeners[id] {
      RegisteredAfterRemove(c.listeners, id);
    } else {
      var j :| j in c.listeners && j != id && c.listeners[j] == c.listeners[id];
      assert d.listeners[j] == c.listeners[j] && cb in Registered(d.listeners, h);
      assert cb !in ListenersOf(d, h);
    }
  }

  /** Two listeners with one callback value: disposing of both throws. */
  lemma SharedCallbackMakesDisposeThrow(h: Hash, cb: Callback)
    ensures DisposeThrows(Opened(Dispose(Make(Make(INITIAL, h, cb), h, cb), 0)), 1)
  {
    var first := Make(INITIAL, h, cb);
    assert first.order == [h] && first.sets == [{cb}] && first.table[h] == Subscription(Pending, 0, None);
    var two := Make(first, h, cb);
    assert {cb} + {cb} == {cb};
    assert two.sets == [{cb}] && two.order == [h] && two.table[h] == Subscription(Pending, 0, None);
    var one := Dispose(two, 0);
    assert {cb} - {cb} == {};
    assert one.sets == [{}] && one.order == [h] && one.table[h].phase == Pending;
    var c := one.(connected := true);
    assert Process(c, h) == Forget(c, h);
    assert [h][1..] == [];
    assert Fold(c, [h]) == Forget(c, h);
  }

  // ----- a server that closes normally

  /** A request for the topic is among the calls made since `from`. */
  ghost predicate Requested(c: Client, from: nat, h: Hash) {
    RequestedIn(c.calls, from, h)
  }

  ghost predicate RequestedIn(calls: seq<Call>, from: nat, h: Hash) {
    exists i :: from <= i < |calls| && calls[i].hash == h
  }

  /** After a close and a reopening, a topic with listeners is requested again exactly when the
      close code was not 1000 or the topic was waiting to be requested anyway. */
  lemma ReopenRequestsIff(c: Client, code: nat, h: Hash)
    requires KeysListed(c) && h in c.table && ListenersOf(c, h) != {}
    ensures Requested(Opened(Closed(c, code)), |c.calls|, h)
            <==> code != NORMAL_CLOSURE || c.table[h].phase == Pending || c.table[h].phase == Unsubscribed
  {
    var e := Closed(c, code);
    var k := e.(connected := true);
    assert e.order == c.order && ListenersOf(e, h) == ListenersOf(c, h) && e.calls == c.calls;
    FoldRequests(k, k.order, h, |c.calls|);
  }

  /** A scan requests a topic that has listeners exactly when it is pending or unsubscribed. */
  lemma {:induction false} FoldRequests(c: Client, keys: seq<Hash>, h: Hash, from: nat)
    requires h in c.table && ListenersOf(c, h) != {} && from <= |c.calls|
    ensures Requested(Fold(c, keys), from, h) <==>
            || Requested(c, from, h)
            || (h in keys && (c.table[h].phase == Pending || c.table[h].phase == Unsubscribed))
    decreases |keys|
  {
    if keys != [] {
      var d := Process(c, keys[0]);
      ProcessIsLocal(c, keys[0]);
      ProcessRequests(c, keys[0], h, from);
      FoldRequests(d, keys[1..], h, from);
    }
  }

  lemma ProcessRequests(c: Client, k: Hash, h: Hash, from: nat)
    requires h in c.table && ListenersOf(c, h) != {} && from <= |c.calls|
    ensures h in Process(c, k).table && from <= |Process(c, k).calls|
    ensures Requested(Process(c, k), from, h) <==>
            || Requested(c, from, h)
            || (k == h && (c.table[h].phase == Pending || c.table[h].phase == Unsubscribed))
  {
    ProcessIsLocal(c, k);
    ProcessCalls(c, k);
    CallsRequest(c.calls, Process(c, k).calls, k, from, h);
  }

  lemma CallsRequest(before: seq<Call>, after: seq<Call>, k: Hash, from: nat, h: Hash)
    requires from <= |before| <= |after| <= |before| + 1 && after[..|before|] == before
    requires |after| > |before| ==> after[|before|].hash == k
    ensures RequestedIn(after, from, h) <==> RequestedIn(before, from, h) || (k == h && |after| > |before|)
  {
    assert forall i :: 0 <= i < |before| ==> after[i] == before[i];
    if RequestedIn(before, from, h) {
      var i :| from <= i < |before| && before[i].hash == h;
      assert after[i].hash == h;
    }
  }

  // ----- signatures

  /** A user callback on the topic threw during the notification. */
  ghost predicate SomeThrew(c: Client, h: Hash, threw: set<ClientId>) {
    exists id :: id in threw && id in c.listeners && c.listeners[id].hash == h
  }

  /** A final signature notification sends nothing, and drops the topic of a subscribed id exactly
      when no listener on it throws; otherwise the topic stays as it was, on a dead id. */
  lemma SignatureDoneDropsTopicIff(s: Sys, sid: ServerId, threw: set<ClientId>, h: Hash)
    requires Reachable(s) && s.c.connected && Enabled(s, SignatureDone(sid, threw))
    requires h in s.c.table && s.c.table[h].phase == Subscribed && s.c.table[h].serverId == Some(sid)
    ensures var c := Next(s, SignatureDone(sid, threw)).c;
      && c.calls == s.c.calls
      && (h !in c.table <==> !SomeThrew(s.c, h, threw))
      && (h in c.table ==> Stranded(c, h))
  {
    ReachableInv(s);
    AnnouncementKeepsInv(s, sid);
    var t := Announced(s, sid);
    assert Record(t, h);
    TargetsAreListeners(t.c, sid, 0, h);
    RunningAll(t, Targets(t.c, sid, 0), threw, h, sid);
  }

  lemma {:induction false} TargetsAreListeners(c: Client, sid: ServerId, from: ClientId, h: Hash)
    requires h in c.table && sid in c.index && c.table[h].callbacks == c.index[sid]
    requires forall g :: g in c.table && g != h ==> c.table[g].callbacks != c.table[h].callbacks
    requires forall id :: id in c.listeners ==> id < c.nextClientId
    ensures forall id :: id in Targets(c, sid, from) ==> id in c.listeners && c.listeners[id].hash == h
    ensures forall id :: id in c.listeners && c.listeners[id].hash == h && from <= id ==> id in Targets(c, sid, from)
    decreases c.nextClientId - from
  {
    if from < c.nextClientId { TargetsAreListeners(c, sid, from + 1, h); }
  }

  lemma {:induction false} TargetsAreOrdered(c: Client, sid: ServerId, from: ClientId)
    ensures forall i :: 0 <= i < |Targets(c, sid, from)| ==> from <= Targets(c, sid, from)[i]
    ensures forall i, j :: 0 <= i < j < |Targets(c, sid, from)| ==> Targets(c, sid, from)[i] < Targets(c, sid, from)[j]
    decreases c.nextClientId - from
  {
    if from < c.nextClientId { TargetsAreOrdered(c, sid, from + 1); }
  }

  lemma {:induction false} TargetShares(c: Client, sid: ServerId, from: ClientId, id: ClientId)
    requires id in Targets(c, sid, from)
    ensures && id in c.listeners && c.listeners[id].hash in c.table && sid in c.index
            && c.table[c.listeners[id].hash].callbacks == c.index[sid]
    decreases c.nextClientId - from
  {
    if from < c.nextClientId && id in Targets(c, sid, from + 1) { TargetShares(c, sid, from + 1, id); }
  }

  /** A final notification runs exactly the listeners any notification for the id is delivered to, each
      once and in the order in which they were registered. */
  lemma TargetsAreDelivered(s: Sys, sid: ServerId, cb: Callback)
    requires Reachable(s)
    ensures cb in Delivered(s.c, sid) <==>
            exists id :: id in Targets(s.c, sid, 0) && id in s.c.listeners && s.c.listeners[id].callback == cb
    ensures forall i, j :: 0 <= i < j < |Targets(s.c, sid, 0)| ==> Targets(s.c, sid, 0)[i] < Targets(s.c, sid, 0)[j]
  {
    ReachableInv(s);
    TargetsAreOrdered(s.c, sid, 0);
    if cb in Delivered(s.c, sid) {
      var h := s.issued[sid].hash;
      assert IndexEntry(s, sid) && Record(s, h);
      TargetsAreListeners(s.c, sid, 0, h);
      var id :| id in s.c.listeners && s.c.listeners[id].hash == h && s.c.listeners[id].callback == cb;
    }
    forall id | id in Targets(s.c, sid, 0) && id in s.c.listeners && s.c.listeners[id].callback == cb
      ensures cb in Delivered(s.c, sid)
    {
      TargetShares(s.c, sid, 0, id);
      assert Record(s, s.c.listeners[id].hash);
      assert cb in Registered(s.c.listeners, s.c.listeners[id].hash);
    }
  }

  /** The topic's record, while it exists, is subscribed under an id known to be dead. */
  ghost predicate OnDeadId(c: Client, h: Hash, sid: ServerId) {
    h in c.table ==>
      c.connected && c.table[h].phase == Subscribed && c.table[h].serverId == Some(sid) && sid in c.autoDisposed
  }

  lemma ListenerHasTopic(s: Sys, id: ClientId)
    requires Inv(s) && id in s.c.listeners
    ensures s.c.listeners[id].hash in s.c.table
  {
    var h := s.c.listeners[id].hash;
    assert s.c.listeners[id].callback in Registered(s.c.listeners, h);
    assert Record(s, h);
  }

  lemma {:induction false} RunningAll(s: Sys, ids: seq<ClientId>, threw: set<ClientId>, h: Hash, sid: ServerId)
    requires Inv(s) && OnDeadId(s.c, h, sid)
    requires forall id :: id in s.c.listeners && s.c.listeners[id].hash == h ==> id in ids || id in threw
    requires forall id :: id in ids && id in s.c.listeners ==> s.c.listeners[id].hash == h
    ensures var c := RunAll(s.c, ids, threw);
      && c.calls == s.c.calls && (h in c.table <==> SomeThrew(s.c, h, threw))
      && (h in c.table ==> Stranded(c, h))
    decreases |ids|
  {
    assert Record(s, h);
    if ids == [] {
      assert h in s.c.table ==> Settled(s.c, h);
      if h in s.c.table { var cb :| cb in Registered(s.c.listeners, h); }
      forall id | id in s.c.listeners ensures s.c.listeners[id].hash in s.c.table { ListenerHasTopic(s, id); }
    } else if ids[0] in threw || ids[0] !in s.c.listeners {
      RunningAll(s, ids[1..], threw, h, sid);
    } else {
      var t := s.(c := Dispose(s.c, ids[0]));
      DisposeKeepsInv(s, ids[0]);
      assert s.c.listeners[ids[0]].callback in Registered(s.c.listeners, h);
      DisposingOne(s, ids[0]);
      RunningAll(t, ids[1..], threw, h, sid);
    }
  }

  /** Disposing of a listener of a server-disposed topic sends nothing. */
  lemma DisposingOne(s: Sys, id: ClientId)
    requires Inv(s) && s.c.connected && id in s.c.listeners && s.c.listeners[id].hash in s.c.table
    requires var sub := s.c.table[s.c.listeners[id].hash]; sub.phase == Subscribed && AutoDisposed(s.c, sub)
    ensures var c, d, h := s.c, Dispose(s.c, id), s.c.listeners[id].hash;
      && d.calls == c.calls && d.listeners == c.listeners - {id}
      && (h in d.table ==> d.connected && d.table[h] == c.table[h] && d.autoDisposed == c.autoDisposed)
  {
    var h, d := s.c.listeners[id].hash, Unregister(s.c, id);
    UnregisterKeepsCore(s, id);
    assert Record(s, h);
    forall g | g in d.order && g != h ensures Settled(d, g) { assert Settled(s.c, g) && Record(s, g); }
    SweepOfOne(d, h);
    assert Process(d, h).calls == d.calls;
  }

  lemma ProcessStrandsNobody(c: Client, k: Hash, h: Hash)
    ensures Stranded(Process(c, k), h) ==> Stranded(c, h)
  {
    if k != h { ProcessIsLocal(c, k); }
  }

  lemma {:induction false} FoldStrandsNobody(c: Client, keys: seq<Hash>, h: Hash)
    ensures Stranded(Fold(c, keys), h) ==> Stranded(c, h)
    decreases |keys|
  {
    if keys != [] {
      FoldStrandsNobody(Process(c, keys[0]), keys[1..], h);
      ProcessStrandsNobody(c, keys[0], h);
    }
  }

  lemma SweepStrandsNobody(c: Client, h: Hash)
    ensures Stranded(Sweep(c), h) ==> Stranded(CancelIdle(c), h)
  {
    FoldStrandsNobody(CancelIdle(c), c.order, h);
  }

  lemma {:induction false} RunAllStrandsNobody(s: Sys, ids: seq<ClientId>, threw: set<ClientId>, h: Hash)
    requires Inv(s)
    ensures Stranded(RunAll(s.c, ids, threw), h) ==> Stranded(s.c, h)
    decreases |ids|
  {
    if ids != [] {
      DisposeKeepsInv(s, ids[0]);
      var c := if ids[0] in threw then s.c else Dispose(s.c, ids[0]);
      RunAllStrandsNobody(s.(c := c), ids[1..], threw, h);
      DisposeStrandsNobody(s, ids[0], h);
    }
  }

  lemma DisposeStrandsNobody(s: Sys, id: ClientId, h: Hash)
    requires Inv(s)
    ensures Stranded(Dispose(s.c, id), h) ==> Stranded(s.c, h)
  {
    if id in s.c.listeners {
      UnregisterKeepsCore(s, id);
      SweepStrandsNobody(Unregister(s.c, id), h);
      assert Record(s, h) && Record(s, s.c.listeners[id].hash);
    }
  }

  lemma SubscribeStrandsNobody(s: Sys, k: Hash, cb: Callback, h: Hash)
    requires Inv(s)
    ensures Stranded(Make(s.c, k, cb), h) ==> Stranded(s.c, h)
  {
    SweepStrandsNobody(Register(s.c, k, cb), h);
    assert Record(s, k) && Record(s, h);
    assert s.c.connected && h in s.c.table ==> Settled(s.c, h);
  }

  lemma AnswerStrandsNobody(s: Sys, i: nat, sid: ServerId, h: Hash)
    requires Inv(s) && Enabled(s, Success(i, sid))
    ensures Stranded(Answered(s.c, i, sid), h) ==> Stranded(s.c, h)
  {
    assert Requests(s, s.c.calls[i].hash) && Matches(s, i);
    SweepStrandsNobody(Install(s.c, i, sid), h);
  }

  /** A final notification on a subscribed topic, one of whose user callbacks throws. */
  ghost predicate ThrowingNotification(s: Sys, e: Event, h: Hash) {
    && s.c.connected && e.SignatureDone? && SomeThrew(s.c, h, e.threw)
    && h in s.c.table && s.c.table[h].phase == Subscribed && s.c.table[h].serverId == Some(e.sid)
  }

  lemma SignatureStrandsIffThrowing(s: Sys, sid: ServerId, threw: set<ClientId>, h: Hash)
    requires Reachable(s) && Inv(s) && Enabled(s, SignatureDone(sid, threw)) && !Stranded(s.c, h)
    ensures Stranded(SignatureNotified(s.c, sid, threw), h) <==> ThrowingNotification(s, SignatureDone(sid, threw), h)
  {
    AnnouncementKeepsInv(s, sid);
    var t := Announced(s, sid);
    RunAllStrandsNobody(t, Targets(t.c, sid, 0), threw, h);
    if s.c.connected && h in s.c.table && s.c.table[h].phase == Subscribed && s.c.table[h].serverId == Some(sid) {
      SignatureDoneDropsTopicIff(s, sid, threw, h);
    }
  }

  /** The failure of an unsubscribe whose id the server had already disposed of, arriving while new
      listeners wait on the topic. */
  ghost predicate LateUnsubscribeError(s: Sys, e: Event, h: Hash) {
    && s.c.connected && e.Failure? && Current(s, e.call)
    && s.c.calls[e.call].kind == UnsubscribeCall && s.c.calls[e.call].hash == h
    && AutoDisposed(s.c, s.c.calls[e.call].captured) && ListenersOf(s.c, h) != {}
  }

  lemma FailureStrandsOnlyLate(s: Sys, i: nat, h: Hash)
    requires Inv(s) && Enabled(s, Failure(i))
    ensures Stranded(Failed(s.c, i), h) ==> Stranded(s.c, h) || LateUnsubscribeError(s, Failure(i), h)
  {
    assert Requests(s, s.c.calls[i].hash) && LogEntry(s, i) && Record(s, h);
    if Current(s, i) {
      assert Matches(s, i);
      SweepStrandsNobody(Restore(s.c, i), h);
    } else {
      StaleIsRecognised(s.c.calls[i].conn, s.c.closes);
    }
  }

  /** That failure and such a notification, and nothing else, strand a listener. */
  lemma StrandedIff(s: Sys, e: Event, h: Hash)
    requires Reachable(s) && Enabled(s, e) && !Stranded(s.c, h)
    ensures Stranded(Next(s, e).c, h) <==> LateUnsubscribeError(s, e, h) || ThrowingNotification(s, e, h)
  {
    ReachableInv(s);
    match e
    case UserSubscribe(k, cb) => SubscribeStrandsNobody(s, k, cb, h);
    case UserDispose(id) => DisposeStrandsNobody(s, id, h);
    case SocketOpen => SweepStrandsNobody(s.c.(connected := true), h);
    case SocketError =>
    case SocketClose(code) =>
    case IdleTimeout =>
    case Success(i, sid) => AnswerStrandsNobody(s, i, sid, h);
    case Failure(i) =>
      FailureStrandsOnlyLate(s, i, h);
      if LateUnsubscribeError(s, e, h) { LateErrorStrands(s, i, h); }
    case SignatureDone(sid, threw) => SignatureStrandsIffThrowing(s, sid, threw, h);
  }

  lemma LateErrorStrands(s: Sys, i: nat, h: Hash)
    requires Inv(s) && LateUnsubscribeError(s, Failure(i), h)
    ensures Stranded(Failed(s.c, i), h)
  {
    var d := Restore(s.c, i);
    assert Requests(s, h) && Matches(s, i) && Record(s, h);
    forall g | g in d.order && g != h ensures Settled(d, g) { assert Settled(s.c, g); }
    SweepOfOne(d, h);
  }

  /** A run that strands a listener: its predecessor on the topic leaves just before the server
      disposes of the subscription, and the unsubscribe then fails. */
  function StrandingRun(h: Hash): seq<Event> {
    [UserSubscribe(h, 1), SocketOpen, Success(0, 7), UserDispose(0), SignatureDone(7, {}), UserSubscribe(h, 2), Failure(1)]
  }

  /** The stages of that run. */
  function Stage(h: Hash, k: nat): Sys {
    var asked := Call(SubscribeCall, h, Subscription(Pending, 0, None), 0);
    var granted := Subscription(Subscribed, 0, Some(7));
    var leaving := Call(UnsubscribeCall, h, granted, 0);
    var c1 := INITIAL.(table := map[h := asked.captured], order := [h], sets := [{1}],
                       listeners := map[0 := Listener(h, 1)], nextClientId := 1, connects := 1);
    var c2 := c1.(table := map[h := asked.captured.(phase := Subscribing)], connected := true, calls := [asked]);
    var c3 := c2.(table := map[h := granted], index := map[7 := 0]);
    var c4 := c3.(table := map[h := granted.(phase := Unsubscribing)], sets := [{}], listeners := map[],
                  calls := [asked, leaving]);
    var c5 := c4.(autoDisposed := {7});
    var c6 := c5.(sets := [{2}], listeners := map[1 := Listener(h, 2)], nextClientId := 2);
    match k
    case 0 => START
    case 1 => START.(c := c1)
    case 2 => START.(c := c2, socket := Up)
    case 3 => Sys(c3, Up, {0}, map[7 := Grant(h, 0)], {}, {})
    case 4 => Sys(c4, Up, {0}, map[7 := Grant(h, 0)], {}, {})
    case 5 => Sys(c5, Up, {0}, map[7 := Grant(h, 0)], {}, {7})
    case 6 => Sys(c6, Up, {0}, map[7 := Grant(h, 0)], {}, {7})
    case _ => Sys(c6.(table := map[h := granted]), Up, {0, 1}, map[7 := Grant(h, 0)], {}, {7})
  }

  lemma StagesOpen(h: Hash)
    ensures var es := StrandingRun(h);
      forall k :: 0 <= k < 3 ==> Enabled(Stage(h, k), es[k]) && Next(Stage(h, k), es[k]) == Stage(h, k + 1)
  {
    var es := StrandingRun(h);
    assert Next(Stage(h, 0), es[0]).c == Stage(h, 1).c;
    SweepOfOne(Stage(h, 1).c.(connected := true), h);
    assert Next(Stage(h, 1), es[1]) == Stage(h, 2);
    SweepOfOne(Install(Stage(h, 2).c, 0, 7), h);
    assert Next(Stage(h, 2), es[2]) == Stage(h, 3);
  }

  lemma StagesLeave(h: Hash)
    ensures var es := StrandingRun(h);
      forall k :: 3 <= k < 5 ==> Enabled(Stage(h, k), es[k]) && Next(Stage(h, k), es[k]) == Stage(h, k + 1)
  {
    var es := StrandingRun(h);
    var d := Unregister(Stage(h, 3).c, 0);
    assert {1} - {1} == {} && d.listeners == map[];
    SweepOfOne(d, h);
    assert Next(Stage(h, 3), es[3]) == Stage(h, 4);
    var c := Stage(h, 4).c.(autoDisposed := {7});
    assert Targets(c, 7, 0) == [];
    assert Stage(h, 4).c.autoDisposed + {7} == {7} && Stage(h, 4).disposed + {7} == {7};
    assert SignatureNotified(Stage(h, 4).c, 7, {}) == c;
    assert Next(Stage(h, 4), es[4]) == Stage(h, 5);
  }

  lemma StageJoin(h: Hash)
    ensures Enabled(Stage(h, 5), StrandingRun(h)[5]) && Next(Stage(h, 5), StrandingRun(h)[5]) == Stage(h, 6)
  {
    var c, d := Stage(h, 5).c, Register(Stage(h, 5).c, h, 2);
    assert ListenersOf(c, h) + {2} == {2} && UpdateSet(c, 0, {2}) == [{2}];
    assert c.listeners[1 := Listener(h, 2)] == map[1 := Listener(h, 2)];
    assert d == Stage(h, 6).c;
    SweepOfOne(d, h);
  }

  lemma StageFail(h: Hash)
    ensures Enabled(Stage(h, 6), StrandingRun(h)[6]) && Next(Stage(h, 6), StrandingRun(h)[6]) == Stage(h, 7)
  {
    SweepOfOne(Restore(Stage(h, 6).c, 1), h);
  }

  lemma {:induction false} StagesRun(h: Hash, k: nat)
    requires k <= 7
    ensures Possible(Stage(h, k), StrandingRun(h)[k..])
    ensures Exec(Stage(h, k), StrandingRun(h)[k..]) == Stage(h, 7)
    decreases 7 - k
  {
    var es := StrandingRun(h);
    if k < 7 {
      StagesOpen(h);
      StagesLeave(h);
      StageJoin(h);
      StageFail(h);
      assert es[k..][0] == es[k] && es[k..][1..] == es[k + 1..];
      StagesRun(h, k + 1);
    }
  }

  lemma SomeRunStrandsAListener(h: Hash)
    ensures Possible(START, StrandingRun(h))
    ensures Stranded(Exec(START, StrandingRun(h)).c, h)
  {
    StagesRun(h, 0);
    assert StrandingRun(h)[0..] == StrandingRun(h);
  }

  /** A shorter run that strands one: its own callback throws on the final notification. */
  function ThrowingRun(h: Hash): seq<Event> {
    StrandingRun(h)[..3] + [SignatureDone(7, {0})]
  }

  lemma {:induction false} OpeningRun(h: Hash, k: nat, last: Event)
    requires k <= 3 && Enabled(Stage(h, 3), last)
    ensures Possible(Stage(h, k), StrandingRun(h)[k..3]) && Exec(Stage(h, k), StrandingRun(h)[k..3]) == Stage(h, 3)
    ensures Possible(Stage(h, k), StrandingRun(h)[k..3] + [last])
    ensures Exec(Stage(h, k), StrandingRun(h)[k..3] + [last]) == Next(Stage(h, 3), last)
    decreases 3 - k
  {
    var es := StrandingRun(h)[k..3];
    if k < 3 {
      StagesOpen(h);
      assert es[0] == StrandingRun(h)[k] && es[1..] == StrandingRun(h)[k + 1..3];
      assert (es + [last])[0] == es[0] && (es + [last])[1..] == es[1..] + [last];
      OpeningRun(h, k + 1, last);
    } else {
      assert es == [] && es + [last] == [last] && [last][1..] == [];
      assert Possible(Next(Stage(h, 3), last), []);
    }
  }

  lemma SomeThrowStrandsAListener(h: Hash)
    ensures Possible(START, ThrowingRun(h))
    ensures Stranded(Exec(START, ThrowingRun(h)).c, h)
  {
    var s, e := Stage(h, 3), SignatureDone(7, {0});
    OpeningRun(h, 0, e);
    assert StrandingRun(h)[0..3] == StrandingRun(h)[..3];
    assert Reachable(s);
    assert ThrowingNotification(s, e, h);
    StrandedIff(s, e, h);
  }
}
