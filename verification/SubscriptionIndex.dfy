/** The index of server ids over time: what it forgets, and that old connections reach nobody. */
module SubscriptionIndex {
  import opened Wrappers
  import opened SubscriptionModel
  import opened SubscriptionSweep
  import opened SubscriptionSystem
  import opened SubscriptionInvariant
  import opened SubscriptionGuarantees

  /** Dropping a quiet topic takes its id out of the index exactly when it was unsubscribed or disposed
      of by the server; a pending topic leaves the id of its last subscription behind. */
  lemma DroppedIdLeavesIndexIff(c: Client, h: Hash, sid: ServerId)
    requires h in c.table && ListenersOf(c, h) == {} && c.table[h].serverId == Some(sid) && sid in c.index
    requires h !in Process(c, h).table
    ensures sid !in Process(c, h).index <==> c.table[h].phase != Pending
    ensures c.table[h].phase == Subscribed ==> Process(c, h).autoDisposed == c.autoDisposed - {sid}
    ensures forall x :: x != sid && x in c.index ==> x in Process(c, h).index && Process(c, h).index[x] == c.index[x]
  {
  }

  /** The entry leads to an empty set that no topic uses. */
  ghost predicate Dead(c: Client, sid: ServerId) {
    && sid in c.index && c.index[sid] < |c.sets| && c.sets[c.index[sid]] == {}
    && forall g :: g in c.table ==> c.table[g].callbacks != c.index[sid]
  }

  /** No topic of `d` uses a set that was there in `c` and that no topic of `c` used, and those sets get
      no new members. */
  ghost predicate LeavesUnused(c: Client, d: Client) {
    && |c.sets| <= |d.sets|
    && (forall g :: g in d.table ==>
          (g in c.table && d.table[g].callbacks == c.table[g].callbacks) || d.table[g].callbacks >= |c.sets|)
    && (forall r :: 0 <= r < |c.sets| && (forall g :: g in c.table ==> c.table[g].callbacks != r) ==> d.sets[r] <= c.sets[r])
  }

  lemma StaysDead(c: Client, d: Client, sid: ServerId)
    requires LeavesUnused(c, d) && Dead(c, sid) && sid in d.index && d.index[sid] == c.index[sid]
    ensures Dead(d, sid)
  {
  }

  /** Entries of earlier connections are dead, and while the socket is not open all of them are. */
  ghost predicate Tidy(s: Sys) {
    forall sid :: sid in s.c.index && (s.socket != Up || sid !in s.issued || s.issued[sid].conn != s.c.closes) ==> Dead(s.c, sid)
  }

  lemma TidyStep(s: Sys, t: Sys)
    requires Tidy(s) && LeavesUnused(s.c, t.c) && t.c.closes == s.c.closes && (s.socket == Up ==> t.socket == Up)
    requires forall sid :: sid in s.issued ==> sid in t.issued && t.issued[sid] == s.issued[sid]
    requires forall sid :: sid in t.c.index ==>
               || (sid in s.c.index && t.c.index[sid] == s.c.index[sid])
               || (t.socket == Up && sid in t.issued && t.issued[sid].conn == t.c.closes)
    ensures Tidy(t)
  {
    forall sid | sid in t.c.index && (t.socket != Up || sid !in t.issued || t.issued[sid].conn != t.c.closes)
      ensures Dead(t.c, sid)
    {
      StaysDead(s.c, t.c, sid);
    }
  }

  lemma ProcessShrinksIndex(c: Client, k: Hash)
    ensures forall sid :: sid in Process(c, k).index ==> sid in c.index && Process(c, k).index[sid] == c.index[sid]
    ensures k in Process(c, k).table ==> k in c.table && Process(c, k).table[k].callbacks == c.table[k].callbacks
    ensures Process(c, k).closes == c.closes
  {
  }

  lemma ProcessLeavesUnused(c: Client, k: Hash)
    ensures LeavesUnused(c, Process(c, k))
  {
    ProcessIsLocal(c, k);
    ProcessShrinksIndex(c, k);
    SameSetsLeaveUnused(c, Process(c, k));
  }

  lemma SameSetsLeaveUnused(c: Client, d: Client)
    requires d.sets == c.sets
    requires forall g :: g in d.table ==> g in c.table && d.table[g].callbacks == c.table[g].callbacks
    ensures LeavesUnused(c, d)
  {
  }

  /** Flags and counters do not matter. */
  lemma FlagsKeepTidy(s: Sys, t: Sys)
    requires Tidy(s) && t.issued == s.issued && (s.socket == Up ==> t.socket == Up)
    requires t.c.table == s.c.table && t.c.sets == s.c.sets && t.c.index == s.c.index && t.c.closes == s.c.closes
    ensures Tidy(t)
  {
    SameSetsLeaveUnused(s.c, t.c);
    TidyStep(s, t);
  }

  lemma {:induction false} FoldKeepsTidy(s: Sys, keys: seq<Hash>)
    requires Tidy(s)
    ensures Tidy(s.(c := Fold(s.c, keys)))
    decreases |keys|
  {
    if keys != [] {
      var t := s.(c := Process(s.c, keys[0]));
      ProcessLeavesUnused(s.c, keys[0]);
      ProcessShrinksIndex(s.c, keys[0]);
      TidyStep(s, t);
      FoldKeepsTidy(t, keys[1..]);
    }
  }

  lemma SweepKeepsTidy(s: Sys)
    requires Tidy(s)
    ensures Tidy(s.(c := Sweep(s.c)))
  {
    var d := s.(c := CancelIdle(s.c));
    FlagsKeepTidy(s, d);
    FoldKeepsTidy(d, d.c.order);
    var u := d.(c := Fold(d.c, d.c.order));
    FlagsKeepTidy(u, u.(c := GoIdleIfEmpty(u.c)));
    FlagsKeepTidy(s, s.(c := GoIdleIfEmpty(s.c)));
    FlagsKeepTidy(d, d.(c := d.c.(connects := d.c.connects + 1)));
  }

  lemma DisposeKeepsTidy(s: Sys, id: ClientId)
    requires Tidy(s)
    ensures Tidy(s.(c := Dispose(s.c, id)))
  {
    if id in s.c.listeners {
      var u := s.(c := Unregister(s.c, id));
      TidyStep(s, u);
      SweepKeepsTidy(u);
    }
  }

  lemma {:induction false} RunAllKeepsTidy(s: Sys, ids: seq<ClientId>, threw: set<ClientId>)
    requires Tidy(s)
    ensures Tidy(s.(c := RunAll(s.c, ids, threw)))
    decreases |ids|
  {
    if ids != [] {
      DisposeKeepsTidy(s, ids[0]);
      RunAllKeepsTidy(s.(c := if ids[0] in threw then s.c else Dispose(s.c, ids[0])), ids[1..], threw);
    }
  }

  lemma AnswerKeepsTidy(s: Sys, i: nat, sid: ServerId)
    requires Inv(s) && Tidy(s) && Enabled(s, Success(i, sid))
    ensures Tidy(Stored(s, i, sid))
  {
    var t, h := Stored(s, i, sid), s.c.calls[i].hash;
    assert Requests(s, h) && Matches(s, i);
    NothingCurrentWhileDown(s, i);
    StoredIndex(s, i, sid);
    SameSetsLeaveUnused(s.c, t.c);
    TidyStep(s, t);
  }

  lemma StoredIndex(s: Sys, i: nat, sid: ServerId)
    requires Enabled(s, Success(i, sid)) && Matches(s, i) && s.socket == Up
    ensures
      var t := Stored(s, i, sid);
      && t.c.sets == s.c.sets && t.c.closes == s.c.closes && t.socket == Up
      && (forall g :: g in t.c.table ==> g in s.c.table && t.c.table[g].callbacks == s.c.table[g].callbacks)
      && (forall x :: x in s.issued ==> x in t.issued && t.issued[x] == s.issued[x])
      && (forall x :: x in t.c.index ==>
            || (x in s.c.index && t.c.index[x] == s.c.index[x])
            || (x in t.issued && t.issued[x].conn == t.c.closes))
  {
  }

  lemma FailureKeepsTidy(s: Sys, i: nat)
    requires Inv(s) && Tidy(s) && Enabled(s, Failure(i))
    ensures Tidy(Next(s, Failure(i)))
  {
    var h, t := s.c.calls[i].hash, s.(c := Restore(s.c, i), answered := s.answered + {i});
    assert Requests(s, h) && LogEntry(s, i);
    if Current(s, i) {
      assert Matches(s, i);
      SameSetsLeaveUnused(s.c, t.c);
      TidyStep(s, t);
      SweepKeepsTidy(t);
    } else {
      StaleIsRecognised(s.c.calls[i].conn, s.c.closes);
      FlagsKeepTidy(s, s.(answered := s.answered + {i}));
    }
  }

  lemma CloseKeepsTidy(s: Sys, code: nat)
    requires Inv(s) && Tidy(s) && Enabled(s, SocketClose(code))
    ensures Tidy(Next(s, SocketClose(code)))
  {
    if code == NORMAL_CLOSURE {
      var t := s.(c := s.c.(connected := false, closes := s.c.closes + 1, idleTimer := false), socket := Down);
      forall sid | sid in t.c.index ensures Dead(t.c, sid) { assert Dead(s.c, sid); }
      SweepKeepsTidy(t);
    }
  }

  /** When the idle timer fires there are no topics, so every entry is dead. */
  lemma TimeoutKeepsTidy(s: Sys)
    requires Inv(s) && Tidy(s) && s.c.idleTimer
    ensures Tidy(Next(s, IdleTimeout))
  {
    assert forall g :: g !in s.c.table;
    forall sid | sid in s.c.index ensures Dead(s.c, sid) { assert IndexEntry(s, sid); }
    var t := Next(s, IdleTimeout);
    forall sid | sid in t.c.index ensures Dead(t.c, sid) { StaysDead(s.c, t.c, sid); }
  }

  lemma NextKeepsTidy(s: Sys, e: Event)
    requires Inv(s) && Tidy(s) && Enabled(s, e)
    ensures Tidy(Next(s, e))
  {
    match e
    case UserSubscribe(h, cb) =>
      var u := s.(c := Register(s.c, h, cb));
      assert Record(s, h);
      TidyStep(s, u);
      SweepKeepsTidy(u);
    case UserDispose(id) => DisposeKeepsTidy(s, id);
    case SocketOpen =>
      var u := s.(c := s.c.(connected := true), socket := Up);
      FlagsKeepTidy(s, u);
      SweepKeepsTidy(u);
    case SocketError => FlagsKeepTidy(s, Next(s, e));
    case SocketClose(code) => CloseKeepsTidy(s, code);
    case IdleTimeout => TimeoutKeepsTidy(s);
    case Success(i, sid) =>
      AnswerKeepsTidy(s, i, sid);
      SweepKeepsTidy(Stored(s, i, sid));
    case Failure(i) => FailureKeepsTidy(s, i);
    case SignatureDone(sid, threw) =>
      var t := Announced(s, sid);
      FlagsKeepTidy(s, t);
      RunAllKeepsTidy(t, Targets(t.c, sid, 0), threw);
  }

  lemma {:induction false} RunKeepsTidy(s: Sys, es: seq<Event>)
    requires Inv(s) && Tidy(s) && Possible(s, es)
    ensures Tidy(Exec(s, es))
    decreases |es|
  {
    if es != [] {
      NextKeepsInv(s, es[0]);
      NextKeepsTidy(s, es[0]);
      RunKeepsTidy(Next(s, es[0]), es[1..]);
    }
  }

  /** In every reachable state a notification runs somebody only if its id was handed out on the present
      connection and the socket is open. */
  lemma OldIdsReachNobody(s: Sys, sid: ServerId)
    requires Reachable(s)
    ensures Delivered(s.c, sid) != {} ==> s.socket == Up && sid in s.issued && s.issued[sid].conn == s.c.closes
  {
    var es :| Possible(START, es) && s == Exec(START, es);
    RunKeepsTidy(START, es);
  }
}
