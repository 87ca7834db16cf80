/** The client object itself: its event handlers update its fields in place. */
module SubscriptionConnection {
  import opened Wrappers
  import opened SubscriptionModel
  import opened SubscriptionSweep

  class Connection {
    var table: map<Hash, Subscription>
    var order: seq<Hash>
    var sets: seq<set<Callback>>
    var index: map<ServerId, SetRef>
    var autoDisposed: set<ServerId>
    var listeners: map<ClientId, Listener>
    var nextClientId: ClientId
    var connected: bool
    var idleTimer: bool
    var closes: nat
    var calls: seq<Call>
    var connects: nat

    function View(): Client
      reads this
    {
      Client(table, order, sets, index, autoDisposed, listeners, nextClientId, connected, idleTimer,
             closes, calls, connects)
    }

    ghost predicate Valid()
      reads this
    {
      KeysListed(View())
    }

    constructor ()
      ensures Valid() && View() == INITIAL
    {
      table, order, sets, index, autoDisposed := map[], [], [], map[], {};
      listeners, nextClientId, connected, idleTimer := map[], 0, false, false;
      closes, calls, connects := 0, [], 0;
    }

    method Store(h: Hash, sub: Subscription)
      modifies this`table, this`order
      ensures View() == SetSubscription(old(View()), h, sub)
    {
      if h !in table { order := order + [h]; }
      table := table[h := sub];
    }

    /** `_updateSubscriptions`: the source rescans the whole table from inside its scan each time
        it deletes or retires a topic.  The net effect is a single left-to-right pass. */
    method UpdateSubscriptions()
      modifies this
      ensures View() == Sweep(old(View()))
      decreases Measure(View()), 1
    {
      if order == [] {
        if connected {
          connected, idleTimer := false, true;
        }
        return;
      }
      if idleTimer {
        idleTimer, connected := false, true;
      }
      if !connected {
        connects := connects + 1;
        return;
      }
      ghost var target := GoIdleIfEmpty(Fold(View(), order));
      var keys := order;
      var k := 0;
      ghost var rescanned := false;
      while k < |keys|
        invariant 0 <= k <= |keys|
        invariant Measure(View()) <= old(Measure(View()))
        invariant !rescanned ==> MidScan(View(), keys, k) && GoIdleIfEmpty(Fold(View(), keys[k..])) == target
        invariant rescanned ==> View() == target && forall h :: h in keys ==> Settled(target, h)
      {
        ghost var c := View();
        ProcessIsLocal(c, keys[k]);
        var again := VisitKey(keys[k]);
        VisitShrinks(c, keys[k]);
        if !rescanned {
          ScanStep(c, keys, k);
          if again { RescanEndsTheScan(c, keys, k); }
        }
        rescanned := rescanned || again;
        k := k + 1;
      }
    }

    /** The scan's work for one key; `again` tells that it rescanned the table. */
    method VisitKey(h: Hash) returns (again: bool)
      modifies this
      ensures again == Interrupts(old(View()), h)
      ensures View() == if again then Sweep(Interrupted(old(View()), h)) else Process(old(View()), h)
      decreases Measure(View()), 0
    {
      again := false;
      if h !in table { return; }
      var sub := table[h];
      ghost var c := View();
      if sub.phase == Pending || sub.phase == Unsubscribed {
        if SetAt(View(), sub.callbacks) == {} {
          table := table - {h};
          order := Without(order, h);
          if sub.phase == Unsubscribed && sub.serverId.Some? {
            index := index - {sub.serverId.value};
          }
          assert View() == Forget(c, h);
          InterruptedShrinks(c, h);
          UpdateSubscriptions();
          again := true;
        } else {
          table := table[h := sub.(phase := Subscribing)];
          calls := calls + [Call(SubscribeCall, h, sub, closes)];
          assert View() == Send(c, h, SubscribeCall);
        }
      } else if sub.phase == Subscribed && SetAt(View(), sub.callbacks) == {} {
        if sub.serverId.Some? && sub.serverId.value in autoDisposed {
          autoDisposed := autoDisposed - {sub.serverId.value};
          table := table[h := sub.(phase := Unsubscribed)];
          assert View() == Retire(c, h);
          InterruptedShrinks(c, h);
          UpdateSubscriptions();
          again := true;
        } else {
          table := table[h := sub.(phase := Unsubscribing)];
          calls := calls + [Call(UnsubscribeCall, h, sub, closes)];
          assert View() == Send(c, h, UnsubscribeCall);
        }
      }
    }

    // ----- user calls

    method MakeSubscription(h: Hash, cb: Callback) returns (id: ClientId)
      requires Valid()
      modifies this
      ensures Valid() && id == old(nextClientId)
      ensures View() == Make(old(View()), h, cb)
    {
      id := nextClientId;
      nextClientId := nextClientId + 1;
      if h !in table {
        sets := sets + [{cb}];
        Store(h, Subscription(Pending, |sets| - 1, None));
      } else {
        sets := UpdateSet(View(), table[h].callbacks, SetAt(View(), table[h].callbacks) + {cb});
      }
      listeners := listeners[id := Listener(h, cb)];
      assert View() == Register(old(View()), h, cb);
      SweepKeepsKeys(View());
      UpdateSubscriptions();
    }

    /** `_unsubscribeClientSubscription` and the dispose function it calls. */
    method RemoveListener(id: ClientId) returns (threw: bool)
      requires Valid()
      modifies this
      ensures Valid() && threw == DisposeThrows(old(View()), id)
      ensures View() == Dispose(old(View()), id)
    {
      threw := false;
      if id in listeners {
        var l := listeners[id];
        listeners := listeners - {id};
        if l.hash !in table {
          threw := true;
        } else {
          sets := UpdateSet(View(), table[l.hash].callbacks, SetAt(View(), table[l.hash].callbacks) - {l.callback});
          SweepKeepsKeys(View());
          UpdateSubscriptions();
        }
      }
    }

    // ----- socket events

    method OnOpen()
      requires Valid()
      modifies this
      ensures Valid() && View() == Opened(old(View()))
    {
      connected := true;
      SweepKeepsKeys(View());
      UpdateSubscriptions();
    }

    method OnError()
      requires Valid()
      modifies this
      ensures Valid() && View() == Errored(old(View()))
    {
      connected := false;
    }

    method OnClose(code: nat)
      requires Valid()
      modifies this
      ensures Valid() && View() == Closed(old(View()), code)
    {
      connected, idleTimer := false, false;
      closes := closes + 1;
      if code == NORMAL_CLOSURE {
        SweepKeepsKeys(View());
        UpdateSubscriptions();
        return;
      }
      index := map[];
      MarkAllPending();
    }

    method MarkAllPending()
      requires Valid()
      modifies this`table
      ensures Valid() && table == map h | h in old(table) :: old(table)[h].(phase := Pending)
    {
      ghost var before := table;
      var keys := order;
      var k := 0;
      while k < |keys|
        invariant 0 <= k <= |keys| && table.Keys == before.Keys
        invariant forall h :: h in table ==>
                    table[h] == if h in keys[..k] then before[h].(phase := Pending) else before[h]
      {
        assert keys[k] in order && keys[..k + 1] == keys[..k] + [keys[k]];
        table := table[keys[k] := table[keys[k]].(phase := Pending)];
        k := k + 1;
      }
      assert keys[..k] == keys;
    }

    method OnIdleTimeout()
      requires Valid()
      modifies this
      ensures Valid() && View() == TimerFired(old(View()))
    {
      idleTimer := false;
    }

    // ----- answers and notifications

    method CallSucceeded(i: nat, sid: ServerId)
      requires Valid() && i < |calls|
      modifies this
      ensures Valid() && View() == Answered(old(View()), i, sid)
    {
      var call := calls[i];
      if call.kind == SubscribeCall {
        Store(call.hash, call.captured.(serverId := Some(sid), phase := Subscribed));
        index := index[sid := call.captured.callbacks];
      } else {
        Store(call.hash, call.captured.(phase := Unsubscribed));
      }
      SweepKeepsKeys(View());
      UpdateSubscriptions();
    }

    method CallFailed(i: nat)
      requires Valid() && i < |calls|
      modifies this
      ensures Valid() && View() == Failed(old(View()), i)
    {
      var call := calls[i];
      if call.conn % MAX_SAFE_INTEGER != closes % MAX_SAFE_INTEGER {
        return;
      }
      Store(call.hash, call.captured.(phase := if call.kind == SubscribeCall then Pending else Subscribed));
      SweepKeepsKeys(View());
      UpdateSubscriptions();
    }

    /** A final signature notification, on which the user callbacks of the ids in `threw` throw. */
    method OnSignatureNotification(sid: ServerId, threw: set<ClientId>)
      requires Valid()
      modifies this
      ensures Valid() && View() == SignatureNotified(old(View()), sid, threw)
    {
      autoDisposed := autoDisposed + {sid};
      var ids := Targets(View(), sid, 0);
      var k := 0;
      ghost var c := View();
      while k < |ids|
        invariant 0 <= k <= |ids| && Valid()
        invariant RunAll(View(), ids[k..], threw) == RunAll(c, ids, threw)
      {
        assert ids[k..][0] == ids[k] && ids[k..][1..] == ids[k + 1..];
        if ids[k] !in threw { var _ := RemoveListener(ids[k]); }
        k := k + 1;
      }
    }
  }

  // ----- why the rescans do not matter

  /** The source rescans from the middle of its scan exactly for these topics. */
  ghost predicate Interrupts(c: Client, h: Hash)
  {
    && h in c.table && ListenersOf(c, h) == {}
    && var sub := c.table[h];
       || sub.phase == Pending || sub.phase == Unsubscribed
       || (sub.phase == Subscribed && AutoDisposed(c, sub))
  }

  /** The table as such a rescan finds it. */
  ghost function Interrupted(c: Client, h: Hash): (r: Client)
    requires Interrupts(c, h)
  {
    if c.table[h].phase == Subscribed then Retire(c, h) else Forget(c, h)
  }

  /** A scan that has settled the first `k` keys without deleting any. */
  ghost predicate MidScan(c: Client, keys: seq<Hash>, k: nat)
  {
    && k <= |keys| && c.order == keys && c.connected && !c.idleTimer
    && forall h :: h in keys[..k] ==> Settled(c, h)
  }

  lemma ScanStep(c: Client, keys: seq<Hash>, k: nat)
    requires k < |keys| && MidScan(c, keys, k)
    ensures Fold(c, keys[k..]) == Fold(Process(c, keys[k]), keys[k + 1..])
    ensures !Interrupts(c, keys[k]) ==> MidScan(Process(c, keys[k]), keys, k + 1)
  {
    assert keys[k..][0] == keys[k] && keys[k..][1..] == keys[k + 1..];
    assert keys[..k + 1] == keys[..k] + [keys[k]];
    ProcessIsLocal(c, keys[k]);
  }

  lemma InterruptedIsLocal(c: Client, h: Hash)
    requires Interrupts(c, h)
    ensures Process(Interrupted(c, h), h) == Process(c, h)
    ensures forall g :: g != h && Settled(c, g) ==> Settled(Interrupted(c, h), g)
    ensures Interrupted(c, h).connected == c.connected && Interrupted(c, h).idleTimer == c.idleTimer
    ensures Interrupted(c, h).order == if h in Interrupted(c, h).table then c.order else Without(c.order, h)
  {
  }

  /** Rescanning from the middle of a scan ends where going on with the scan would. */
  lemma RescanEndsTheScan(c: Client, keys: seq<Hash>, k: nat)
    requires k < |keys| && MidScan(c, keys, k) && Interrupts(c, keys[k])
    ensures Sweep(Interrupted(c, keys[k])) == GoIdleIfEmpty(Fold(c, keys[k..]))
    ensures forall h :: h in keys ==> Settled(Sweep(Interrupted(c, keys[k])), h)
  {
    var h := keys[k];
    var d := Interrupted(c, h);
    InterruptedIsLocal(c, h);
    assert keys == keys[..k] + keys[k..] && keys[k..][0] == h;
    FoldSkipsSettled(d, keys[..k], keys[k..]);
    assert Fold(d, keys) == Fold(c, keys[k..]);
    if h !in d.table { FoldSkipsMissing(d, keys, h); }
    assert Fold(d, d.order) == Fold(d, keys);
    FoldSettles(d, keys);
  }

  // ----- why the rescans end

  /** Every rescan has deleted a topic or cleared an auto-disposed id. */
  ghost function Measure(c: Client): nat {
    |c.table.Keys| + |c.autoDisposed|
  }

  lemma InterruptedShrinks(c: Client, h: Hash)
    requires Interrupts(c, h)
    ensures Measure(Interrupted(c, h)) < Measure(c)
  {
    var d := Interrupted(c, h);
    if c.table[h].phase == Subscribed {
      assert d.table.Keys == c.table.Keys;
    } else {
      assert d.table.Keys == c.table.Keys - {h};
    }
  }

  lemma {:induction false} FoldShrinks(c: Client, keys: seq<Hash>)
    ensures Fold(c, keys).table.Keys <= c.table.Keys && Fold(c, keys).autoDisposed <= c.autoDisposed
    decreases |keys|
  {
    if keys != [] {
      ProcessIsLocal(c, keys[0]);
      FoldShrinks(Process(c, keys[0]), keys[1..]);
    }
  }

  lemma SweepShrinks(c: Client)
    ensures Measure(Sweep(c)) <= Measure(c)
  {
    FoldShrinks(CancelIdle(c), c.order);
    SubsetSize(Sweep(c).autoDisposed, c.autoDisposed);
    SubsetSize(Sweep(c).table.Keys, c.table.Keys);
  }

  lemma VisitShrinks(c: Client, h: Hash)
    ensures Interrupts(c, h) ==> Measure(Sweep(Interrupted(c, h))) < Measure(c)
    ensures Measure(Process(c, h)) <= Measure(c)
  {
    if Interrupts(c, h) {
      InterruptedShrinks(c, h);
      SweepShrinks(Interrupted(c, h));
    }
    FoldShrinks(c, [h]);
    assert [h][1..] == [];
    SubsetSize(Process(c, h).autoDisposed, c.autoDisposed);
    SubsetSize(Process(c, h).table.Keys, c.table.Keys);
  }

  lemma SubsetSize<T>(a: set<T>, b: set<T>)
    requires a <= b
    ensures |a| <= |b|
  {
    assert b == a + (b - a);
  }
}
