/** Changes that concern one topic leave the invariant of every other topic alone. */
module SubscriptionFrame {
  import opened Wrappers
  import opened SubscriptionModel
  import opened SubscriptionSystem

  /** The other topics' records and sets, and the ids issued to them, are the same in `t` as in `s`. */
  ghost predicate SameTables(s: Sys, t: Sys, h: Hash) {
    && (forall g :: g != h ==> (g in t.c.table <==> g in s.c.table))
    && (forall g :: g != h && g in s.c.table ==> t.c.table[g] == s.c.table[g])
    && |s.c.sets| <= |t.c.sets|
    && (forall r :: 0 <= r < |s.c.sets| && (h in s.c.table ==> r != s.c.table[h].callbacks) ==> t.c.sets[r] == s.c.sets[r])
    && (forall g :: g != h ==> Registered(t.c.listeners, g) == Registered(s.c.listeners, g))
    && t.c.closes == s.c.closes
  }

  ghost predicate SameIds(s: Sys, t: Sys, h: Hash) {
    && (forall sid :: sid in s.issued ==> sid in t.issued && t.issued[sid] == s.issued[sid])
    && (forall sid :: sid in s.issued && s.issued[sid].hash != h ==>
          && (sid in t.retired <==> sid in s.retired)
          && (sid in t.disposed <==> sid in s.disposed)
          && (sid in t.c.autoDisposed <==> sid in s.c.autoDisposed)
          && (sid in s.c.index ==> sid in t.c.index && t.c.index[sid] == s.c.index[sid]))
  }

  /** Calls are only added for `h`, and answers only concern `h` or an earlier connection. */
  ghost predicate SameCalls(s: Sys, t: Sys, h: Hash) {
    && |s.c.calls| <= |t.c.calls|
    && (forall i :: 0 <= i < |s.c.calls| ==> t.c.calls[i] == s.c.calls[i])
    && (forall i :: |s.c.calls| <= i < |t.c.calls| ==> t.c.calls[i].hash == h)
    && s.answered <= t.answered
    && (forall i :: i in t.answered && i !in s.answered && Current(s, i) ==> s.c.calls[i].hash == h)
    && t.c.closes == s.c.closes
  }

  lemma FrameRecords(s: Sys, t: Sys, h: Hash)
    requires OwnSets(s) && SameTables(s, t, h) && SameIds(s, t, h)
    requires forall g :: Record(s, g)
    requires Record(t, h)
    ensures forall g :: Record(t, g)
  {
    forall g ensures Record(t, g) {
      if g != h { assert Record(s, g); }
    }
  }

  lemma FrameRequests(s: Sys, t: Sys, h: Hash)
    requires SameTables(s, t, h) && SameCalls(s, t, h)
    requires forall g :: Requests(s, g)
    requires Requests(t, h)
    ensures forall g :: Requests(t, g)
  {
    forall g ensures Requests(t, g) {
      if g != h {
        assert Requests(s, g);
        assert forall i: nat :: Current(t, i) && t.c.calls[i].hash == g ==> Current(s, i) && Matches(s, i);
        if g in t.c.table && InProgress(t.c.table[g]) {
          var i: nat :| Current(s, i) && s.c.calls[i].hash == g;
          assert Current(t, i);
        }
      }
    }
  }

  /** A topic keeps its set, gets a new one, or goes away. */
  ghost predicate KeepsSet(s: Sys, t: Sys, h: Hash) {
    h in t.c.table ==>
      if h in s.c.table then t.c.table[h].callbacks == s.c.table[h].callbacks
      else t.c.table[h].callbacks == |s.c.sets| < |t.c.sets|
  }

  lemma FrameOwnSets(s: Sys, t: Sys, h: Hash)
    requires OwnSets(s) && SameTables(s, t, h) && KeepsSet(s, t, h)
    requires forall g :: Record(s, g)
    ensures OwnSets(t)
  {
    forall g | g in s.c.table ensures s.c.table[g].callbacks < |s.c.sets| { assert Record(s, g); }
  }

  /** An entry of the old index is still good, if a dropped topic left an empty set. */
  lemma FrameIndexEntry(s: Sys, t: Sys, h: Hash, sid: ServerId)
    requires OwnSets(s) && SameTables(s, t, h) && SameIds(s, t, h) && KeepsSet(s, t, h)
    requires forall g :: Record(s, g)
    requires sid in s.c.index && sid in t.c.index && t.c.index[sid] == s.c.index[sid] && IndexEntry(s, sid)
    requires h in s.c.table && h !in t.c.table ==> SetAt(t.c, s.c.table[h].callbacks) == {}
    ensures IndexEntry(t, sid)
  {
    var g, r := s.issued[sid].hash, s.c.index[sid];
    forall k | k in s.c.table ensures s.c.table[k].callbacks < |s.c.sets| { assert Record(s, k); }
    if g in s.c.table && s.c.table[g].callbacks == r {
      if g == h && h !in t.c.table {
        assert forall k :: k in t.c.table ==> k != h && t.c.table[k] == s.c.table[k];
      }
    }
  }

  lemma FrameLog(s: Sys, t: Sys, h: Hash)
    requires Log(s) && SameTables(s, t, h) && SameIds(s, t, h) && SameCalls(s, t, h)
    requires forall i :: |s.c.calls| <= i < |t.c.calls| ==> LogEntry(t, i)
    requires forall i :: i in t.answered ==> i < |t.c.calls|
    requires t.c.autoDisposed <= t.disposed <= t.issued.Keys && t.retired <= t.issued.Keys
    ensures Log(t)
  {
    forall i | 0 <= i < |t.c.calls| ensures LogEntry(t, i) {
      if i < |s.c.calls| { assert LogEntry(s, i); }
    }
  }

  /** A change of one topic keeps the whole core, given what concerns that topic. */
  lemma FrameCore(s: Sys, t: Sys, h: Hash)
    requires Core(s) && SameTables(s, t, h) && SameIds(s, t, h) && SameCalls(s, t, h) && KeepsSet(s, t, h)
    requires KeysListed(t.c) && Users(t) && Flow(t) && Record(t, h) && Requests(t, h)
    requires forall i :: |s.c.calls| <= i < |t.c.calls| ==> LogEntry(t, i)
    requires forall i :: i in t.answered ==> i < |t.c.calls|
    requires t.c.autoDisposed <= t.disposed <= t.issued.Keys && t.retired <= t.issued.Keys
    requires h in s.c.table && h !in t.c.table ==> SetAt(t.c, s.c.table[h].callbacks) == {}
    requires forall sid :: sid in t.c.index ==> (sid in s.c.index && t.c.index[sid] == s.c.index[sid]) || IndexEntry(t, sid)
    ensures Core(t)
  {
    FrameRecords(s, t, h);
    FrameRequests(s, t, h);
    FrameOwnSets(s, t, h);
    FrameLog(s, t, h);
    forall sid | sid in t.c.index ensures IndexEntry(t, sid) {
      if sid in s.c.index && t.c.index[sid] == s.c.index[sid] {
        assert IndexEntry(s, sid);
        FrameIndexEntry(s, t, h, sid);
      }
    }
  }
}
