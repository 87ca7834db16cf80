/** Facts about a scan of the topic table: what one key changes, and when a rescan changes nothing. */
module SubscriptionSweep {
  import opened Wrappers
  import opened SubscriptionModel

  /** Processing a key settles it and leaves every other topic as it was. */
  lemma ProcessIsLocal(c: Client, h: Hash)
    ensures Settled(Process(c, h), h)
    ensures forall g :: g != h ==> (g in Process(c, h).table <==> g in c.table)
    ensures forall g :: g != h && g in c.table ==> Process(c, h).table[g] == c.table[g]
    ensures h !in c.table ==> h !in Process(c, h).table
    ensures Process(c, h).sets == c.sets && Process(c, h).connected == c.connected
    ensures Settled(c, h) ==> Process(c, h) == c
  {
    if h in c.table {
      match c.table[h].phase
      case Pending =>
      case Unsubscribed =>
      case Subscribed =>
        if ListenersOf(c, h) == {} && AutoDisposed(c, c.table[h]) {
          assert h !in Forget(Retire(c, h), h).table;
        }
      case Subscribing =>
      case Unsubscribing =>
    }
  }

  /** Settled keys at the front of a scan change nothing. */
  lemma {:induction false} FoldSkipsSettled(c: Client, pre: seq<Hash>, post: seq<Hash>)
    requires forall h :: h in pre ==> Settled(c, h)
    ensures Fold(c, pre + post) == Fold(c, post)
    decreases |pre|
  {
    if pre == [] {
      assert pre + post == post;
    } else {
      ProcessIsLocal(c, pre[0]);
      assert (pre + post)[1..] == pre[1..] + post;
      FoldSkipsSettled(c, pre[1..], post);
    }
  }

  /** A key that is not in the table may be dropped from a scan. */
  lemma {:induction false} FoldSkipsMissing(c: Client, keys: seq<Hash>, h: Hash)
    requires h !in c.table
    ensures Fold(c, Without(keys, h)) == Fold(c, keys)
    decreases |keys|
  {
    if keys != [] {
      ProcessIsLocal(c, keys[0]);
      FoldSkipsMissing(Process(c, keys[0]), keys[1..], h);
    }
  }

  /** A scan settles every key it visits. */
  lemma {:induction false} FoldSettles(c: Client, keys: seq<Hash>)
    ensures forall h :: h in keys || (h in c.table && Settled(c, h)) ==> Settled(Fold(c, keys), h)
    ensures forall h :: h in Fold(c, keys).table ==> h in c.table
    ensures Fold(c, keys).sets == c.sets && Fold(c, keys).connected == c.connected
    decreases |keys|
  {
    if keys != [] {
      var d := Process(c, keys[0]);
      ProcessIsLocal(c, keys[0]);
      FoldSettles(d, keys[1..]);
      forall h | h in keys || (h in c.table && Settled(c, h))
        ensures Settled(Fold(c, keys), h)
      {
        if h in d.table { assert Settled(d, h) || h in keys[1..]; }
      }
    }
  }

  /** After a sweep of a usable connection every remaining topic is settled. */
  lemma SweepSettles(c: Client)
    requires forall h :: h in c.table ==> h in c.order
    ensures Sweep(c).connected ==> AllSettled(Sweep(c)) && Sweep(c).order != []
    ensures Sweep(c).sets == c.sets
  {
    if c.order != [] && CancelIdle(c).connected {
      FoldSettles(CancelIdle(c), c.order);
    }
  }

  lemma {:induction false} FoldOfOne(c: Client, keys: seq<Hash>, h: Hash)
    requires forall g :: g in keys && g != h ==> Settled(c, g)
    ensures Fold(c, keys) == if h in keys then Process(c, h) else c
    decreases |keys|
  {
    if keys != [] {
      ProcessIsLocal(c, keys[0]);
      if keys[0] == h {
        assert keys[1..] + [] == keys[1..];
        forall g | g in keys[1..] ensures Settled(Process(c, h), g) { assert g in keys; }
        FoldSkipsSettled(Process(c, h), keys[1..], []);
      } else {
        FoldOfOne(c, keys[1..], h);
      }
    }
  }

  /** When all topics but one are settled, a sweep comes down to processing that one. */
  lemma SweepOfOne(c: Client, h: Hash)
    requires c.connected && !c.idleTimer && h in c.order
    requires forall g :: g in c.order && g != h ==> Settled(c, g)
    ensures Sweep(c) == GoIdleIfEmpty(Process(c, h))
  {
    FoldOfOne(c, c.order, h);
  }

  lemma {:induction false} FoldKeepsKeys(c: Client, keys: seq<Hash>)
    requires KeysListed(c)
    ensures KeysListed(Fold(c, keys))
    decreases |keys|
  {
    if keys != [] {
      ProcessKeepsKeys(c, keys[0]);
      FoldKeepsKeys(Process(c, keys[0]), keys[1..]);
    }
  }

  lemma ForgetKeepsKeys(c: Client, h: Hash)
    requires KeysListed(c) && h in c.table
    ensures KeysListed(Forget(c, h))
  {
  }

  lemma SendKeepsKeys(c: Client, h: Hash, kind: CallKind)
    requires KeysListed(c) && h in c.table
    ensures KeysListed(Send(c, h, kind))
  {
  }

  lemma RetireKeepsKeys(c: Client, h: Hash)
    requires KeysListed(c) && h in c.table && AutoDisposed(c, c.table[h])
    ensures KeysListed(Retire(c, h))
  {
  }

  lemma ProcessKeepsKeys(c: Client, h: Hash)
    requires KeysListed(c)
    ensures KeysListed(Process(c, h))
  {
    if h in c.table {
      match c.table[h].phase
      case Pending => ForgetKeepsKeys(c, h); SendKeepsKeys(c, h, SubscribeCall);
      case Unsubscribed => ForgetKeepsKeys(c, h); SendKeepsKeys(c, h, SubscribeCall);
      case Subscribed =>
        if AutoDisposed(c, c.table[h]) {
          RetireKeepsKeys(c, h);
          ForgetKeepsKeys(Retire(c, h), h);
        }
        SendKeepsKeys(c, h, UnsubscribeCall);
      case Subscribing =>
      case Unsubscribing =>
    }
  }

  lemma SweepKeepsKeys(c: Client)
    requires KeysListed(c)
    ensures KeysListed(Sweep(c))
  {
    FoldKeepsKeys(CancelIdle(c), c.order);
  }

  lemma SendCalls(c: Client, k: Hash, kind: CallKind)
    requires k in c.table
    ensures
      var calls := Send(c, k, kind).calls;
      && |calls| == |c.calls| + 1 && calls[..|c.calls|] == c.calls
      && calls[|c.calls|].hash == k && calls[|c.calls|].conn == c.closes
  {
  }

  /** Processing a topic makes at most one call, about that topic and on the present connection. */
  lemma ProcessCalls(c: Client, k: Hash)
    ensures
      var d := Process(c, k);
      && d.closes == c.closes && d.listeners == c.listeners
      && |c.calls| <= |d.calls| <= |c.calls| + 1 && d.calls[..|c.calls|] == c.calls
      && (|d.calls| > |c.calls| ==> d.calls[|c.calls|].hash == k && d.calls[|c.calls|].conn == c.closes)
  {
    if k in c.table {
      SendCalls(c, k, SubscribeCall);
      SendCalls(c, k, UnsubscribeCall);
      assert Forget(c, k).calls == c.calls;
    }
  }
}
