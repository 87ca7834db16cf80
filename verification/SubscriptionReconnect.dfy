/** Failures that arrive late, and what a lost connection does to the topics. */
module SubscriptionReconnect {
  import opened Wrappers
  import opened SubscriptionModel
  import opened SubscriptionSweep
  import opened SubscriptionSystem
  import opened SubscriptionInvariant
  import opened SubscriptionGuarantees

  // ----- late failures

  /** A failed call counts as belonging to the present connection exactly when the closes since
      it was sent are a multiple of the generation counter's period. */
  lemma ActiveIffPeriodDivides(c: Client, call: Call)
    requires call.conn <= c.closes
    ensures StillActive(c, call) <==> (c.closes - call.conn) % 9_007_199_254_740_991 == 0
  {
    var a, b := call.conn / MAX_SAFE_INTEGER, c.closes / MAX_SAFE_INTEGER;
    var q := (c.closes - call.conn) / MAX_SAFE_INTEGER;
    assert b == a + q || b == a + q + 1;
  }

  /** A failure changes the client exactly when its request belongs to the present connection. */
  lemma FailureIgnoredIffStale(s: Sys, i: nat)
    requires Reachable(s) && Enabled(s, Failure(i))
    ensures Next(s, Failure(i)).c == s.c <==> s.c.calls[i].conn < s.c.closes
  {
    ReachableInv(s);
    assert LogEntry(s, i);
    if Current(s, i) {
      CurrentFailureShows(s, i);
    } else {
      StaleIsRecognised(s.c.calls[i].conn, s.c.closes);
    }
  }

  lemma CurrentFailureShows(s: Sys, i: nat)
    requires Inv(s) && Current(s, i)
    ensures Sweep(Restore(s.c, i)) != s.c
  {
    var h, d := s.c.calls[i].hash, Restore(s.c, i);
    assert Requests(s, h) && Matches(s, i);
    assert h in d.order && !s.c.idleTimer;
    if s.c.connected {
      forall g | g in d.order && g != h ensures Settled(d, g) { assert Settled(s.c, g); }
      SweepOfOne(d, h);
    }
  }

  // ----- reconnecting

  /** What a run can do next leads to a reachable state again. */
  lemma ReachableNext(s: Sys, e: Event)
    requires Reachable(s) && Enabled(s, e)
    ensures Reachable(Next(s, e))
  {
    var es :| Possible(START, es) && s == Exec(START, es);
    RunGoesOn(START, es, e);
  }

  lemma {:induction false} RunGoesOn(s: Sys, es: seq<Event>, e: Event)
    requires Possible(s, es) && Enabled(Exec(s, es), e)
    ensures Possible(s, es + [e]) && Exec(s, es + [e]) == Next(Exec(s, es), e)
    decreases |es|
  {
    if es == [] {
      assert es + [e] == [e] && [e][1..] == [];
      assert Possible(Next(s, e), []);
    } else {
      assert (es + [e])[0] == es[0] && (es + [e])[1..] == es[1..] + [e];
      RunGoesOn(Next(s, es[0]), es[1..], e);
    }
  }

  lemma OpenFacts(s: Sys)
    requires Reachable(s) && s.socket == Down
    ensures var t := Next(s, SocketOpen);
      && Inv(s) && Inv(t) && t.c.listeners == s.c.listeners
      && |s.c.calls| <= |t.c.calls| && t.c.calls[..|s.c.calls|] == s.c.calls
      && t.c.closes == s.c.closes && t.answered == s.answered
      && forall i :: |s.c.calls| <= i < |t.c.calls| ==> t.c.calls[i].conn == s.c.closes
  {
    ReachableInv(s);
    NextKeepsInv(s, SocketOpen);
    var c := s.c.(connected := true);
    FoldCalls(c, c.order);
  }

  /** Whatever happened since the connection was lost, once it opens again the topics left are
      exactly those with listeners, and each of them is subscribing. */
  lemma OpenKeepsListenedTopics(s: Sys, h: Hash)
    requires Reachable(s) && s.socket == Down
    ensures var t := Next(s, SocketOpen);
      && (h in t.c.table <==> Registered(s.c.listeners, h) != {})
      && (h in t.c.table ==> t.c.table[h].phase == Subscribing)
  {
    OpenFacts(s);
    var t, c := Next(s, SocketOpen), s.c.(connected := true);
    assert Record(s, h) && Record(t, h);
    FoldOfPending(c, c.order);
    FoldSettles(c, c.order);
    if h in s.c.table { assert Settled(Fold(c, c.order), h); }
  }

  /** Each of these topics has then been requested exactly once on the new connection, and nothing
      else has been sent. */
  lemma OpenRequestsOnce(s: Sys)
    requires Reachable(s) && s.socket == Down
    ensures var t := Next(s, SocketOpen);
      && (forall h :: InFlight(t, h) <==> Registered(s.c.listeners, h) != {})
      && (forall i: nat :: Current(t, i) <==> |s.c.calls| <= i < |t.c.calls|)
      && (forall i: nat :: Current(t, i) ==> t.c.calls[i].kind == SubscribeCall)
      && (forall i: nat, j: nat :: Current(t, i) && Current(t, j) && i != j ==> t.c.calls[i].hash != t.c.calls[j].hash)
  {
    OpenFacts(s);
    var t := Next(s, SocketOpen);
    forall i: nat | i < |s.c.calls| ensures !Current(t, i) {
      NothingCurrentWhileDown(s, i);
      assert t.c.calls[i] == t.c.calls[..|s.c.calls|][i];
    }
    forall i: nat | |s.c.calls| <= i < |t.c.calls| ensures Current(t, i) { assert Log(s); }
    forall h ensures InFlight(t, h) <==> Registered(s.c.listeners, h) != {} {
      OpenKeepsListenedTopics(s, h);
      assert Requests(t, h);
    }
    forall i: nat | Current(t, i) ensures t.c.calls[i].kind == SubscribeCall {
      OpenKeepsListenedTopics(s, t.c.calls[i].hash);
      assert Requests(t, t.c.calls[i].hash) && Matches(t, i);
    }
    forall i: nat, j: nat | Current(t, i) && Current(t, j) && i != j ensures t.c.calls[i].hash != t.c.calls[j].hash {
      assert Requests(t, t.c.calls[i].hash);
    }
  }

  /** The system after the connection was lost with this close code and opened again at once. */
  function Reconnected(s: Sys, code: nat): Sys {
    Next(Next(s, SocketClose(code)), SocketOpen)
  }

  lemma ReconnectKeepsListenedTopics(s: Sys, code: nat, h: Hash)
    requires Reachable(s) && code != NORMAL_CLOSURE
    ensures h in Reconnected(s, code).c.table <==> Registered(s.c.listeners, h) != {}
    ensures h in Reconnected(s, code).c.table ==> Reconnected(s, code).c.table[h].phase == Subscribing
  {
    ReachableNext(s, SocketClose(code));
    OpenKeepsListenedTopics(Next(s, SocketClose(code)), h);
  }

  lemma ReconnectRequestsOnce(s: Sys, code: nat)
    requires Reachable(s) && code != NORMAL_CLOSURE
    ensures var t := Reconnected(s, code);
      && (forall h :: InFlight(t, h) <==> Registered(s.c.listeners, h) != {})
      && (forall i: nat :: Current(t, i) <==> |s.c.calls| <= i < |t.c.calls|)
      && (forall i: nat :: Current(t, i) ==> t.c.calls[i].kind == SubscribeCall)
      && (forall i: nat, j: nat :: Current(t, i) && Current(t, j) && i != j ==> t.c.calls[i].hash != t.c.calls[j].hash)
  {
    ReachableNext(s, SocketClose(code));
    OpenRequestsOnce(Next(s, SocketClose(code)));
  }

  /** Every topic is waiting to be requested, or has been requested. */
  ghost predicate Starting(c: Client) {
    forall h :: h in c.table ==> c.table[h].phase == Pending || c.table[h].phase == Subscribing
  }

  /** From a table of pending topics a scan only sends subscribes, and drops only the quiet ones. */
  lemma {:induction false} FoldOfPending(c: Client, keys: seq<Hash>)
    requires Starting(c)
    ensures Starting(Fold(c, keys))
    ensures forall h :: h in c.table && ListenersOf(c, h) != {} ==> h in Fold(c, keys).table
    ensures forall h :: h in Fold(c, keys).table && h in keys && h in c.table && c.table[h].phase == Pending ==> ListenersOf(c, h) != {}
    decreases |keys|
  {
    if keys != [] {
      ProcessIsLocal(c, keys[0]);
      FoldOfPending(Process(c, keys[0]), keys[1..]);
      FoldAddsNone(Process(c, keys[0]), keys[1..]);
    }
  }

  /** A scan never creates a topic. */
  lemma {:induction false} FoldAddsNone(c: Client, keys: seq<Hash>)
    ensures forall h :: h in Fold(c, keys).table ==> h in c.table
    decreases |keys|
  {
    if keys != [] {
      ProcessIsLocal(c, keys[0]);
      FoldAddsNone(Process(c, keys[0]), keys[1..]);
    }
  }

  /** A scan only appends calls, all stamped with the present connection. */
  lemma {:induction false} FoldCalls(c: Client, keys: seq<Hash>)
    ensures |c.calls| <= |Fold(c, keys).calls| && Fold(c, keys).calls[..|c.calls|] == c.calls
    ensures forall i :: |c.calls| <= i < |Fold(c, keys).calls| ==> Fold(c, keys).calls[i].conn == c.closes
    ensures Fold(c, keys).closes == c.closes && Fold(c, keys).listeners == c.listeners
    decreases |keys|
  {
    if keys != [] {
      ProcessCalls(c, keys[0]);
      FoldCalls(Process(c, keys[0]), keys[1..]);
    }
  }
}
