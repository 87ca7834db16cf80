/**
 The cached blockhash of the RPC client and the retry loop of the legacy `sendTransaction`.

 A transaction is signed over the cached blockhash; when that signature has been used already, the
 client polls for a new blockhash and signs again.  Calls interleave at their awaits: `Step` has one
 event for each stretch of code between awaits, and the code after a resolved blockhash runs in the
 event that resolved it.

 Assumptions: polls do not overlap (`Polls` start only while none is running), the cluster never
 serves a blockhash again after it served a newer one, and a signature determines the blockhash it
 was made over.  Clock readings and answers are parameters of the events.
 */
module BlockhashCache {
  import opened Wrappers

  type Tx = nat
  type Blockhash = nat
  type Signature = nat
  type CallId = nat
  type Signer = (Tx, Blockhash) -> Signature

  const BLOCKHASH_CACHE_TIMEOUT_MS: int := 30 * 1000
  const MAX_POLLS: nat := 50

  /** A signature determines the blockhash it was made over. */
  ghost predicate Binding(sign: Signer) {
    forall t, b, t', b' :: sign(t, b) == sign(t', b') ==> b == b'
  }

  /** A transaction that was sent, and the blockhash it was signed over. */
  datatype Sending = Sending(tx: Tx, blockhash: Blockhash)

  /** `_blockhashInfo` and `_pollingBlockhash`. */
  datatype Cache = Cache(latest: Option<Blockhash>, lastFetch: int, signatures: seq<Signature>, polling: bool)

  const EMPTY_CACHE: Cache := Cache(None, 0, [], false)

  function Fetched(c: Cache, b: Blockhash, now: int): Cache {
    Cache(Some(b), now, [], false)
  }

  predicate Usable(c: Cache, now: int) {
    c.latest.Some? && now - c.lastFetch < BLOCKHASH_CACHE_TIMEOUT_MS
  }

  // ----- what the cache guarantees

  /** The list holds exactly the signatures sent over the cached blockhash; everything else was
      sent over a blockhash that has been superseded. */
  ghost predicate Consistent(sign: Signer, c: Cache, sent: seq<Sending>, superseded: set<Blockhash>) {
    && (c.latest.Some? ==> c.latest.value !in superseded)
    && (forall i :: 0 <= i < |sent| ==> sent[i].blockhash in superseded || c.latest == Some(sent[i].blockhash))
    && (forall i :: 0 <= i < |sent| && c.latest == Some(sent[i].blockhash) ==> Sig(sign, sent[i]) in c.signatures)
    && (forall s :: s in c.signatures ==> SentOver(sign, c, sent, s))
    && (c.latest.None? ==> superseded == {})
  }

  function Sig(sign: Signer, s: Sending): Signature {
    sign(s.tx, s.blockhash)
  }

  /** Some transaction has been sent with this signature over the cached blockhash. */
  ghost predicate SentOver(sign: Signer, c: Cache, sent: seq<Sending>, s: Signature) {
    exists i :: 0 <= i < |sent| && c.latest == Some(sent[i].blockhash) && Sig(sign, sent[i]) == s
  }

  ghost predicate AllDifferent(sign: Signer, sent: seq<Sending>) {
    forall i, j :: 0 <= i < j < |sent| ==> Sig(sign, sent[i]) != Sig(sign, sent[j])
  }

  /** Recording an unseen signature keeps the cache consistent and all signatures different. */
  lemma RecordKeepsDifferent(sign: Signer, c: Cache, sent: seq<Sending>, superseded: set<Blockhash>, tx: Tx)
    requires Binding(sign) && Consistent(sign, c, sent, superseded) && AllDifferent(sign, sent)
    requires c.latest.Some? && sign(tx, c.latest.value) !in c.signatures
    ensures var s := Sending(tx, c.latest.value);
      && Consistent(sign, c.(signatures := c.signatures + [Sig(sign, s)]), sent + [s], superseded)
      && AllDifferent(sign, sent + [s])
  {
    var s := Sending(tx, c.latest.value);
    var d, more := c.(signatures := c.signatures + [Sig(sign, s)]), sent + [s];
    forall x | x in d.signatures ensures SentOver(sign, d, more, x) {
      if x in c.signatures {
        assert SentOver(sign, c, sent, x);
        var i :| 0 <= i < |sent| && c.latest == Some(sent[i].blockhash) && Sig(sign, sent[i]) == x;
        assert more[i] == sent[i];
      } else {
        assert more[|sent|] == s;
      }
    }
    forall i | 0 <= i < |sent| ensures Sig(sign, sent[i]) != Sig(sign, s) {
      assert Sig(sign, sent[i]) == Sig(sign, s) ==> sent[i].blockhash == s.blockhash;
    }
  }

  /** Storing a blockhash that was never superseded keeps the cache consistent, except exactly when
      another poll has stored it already and signatures have been recorded for it since. */
  lemma FetchConsistentIff(sign: Signer, c: Cache, sent: seq<Sending>, superseded: set<Blockhash>, b: Blockhash, now: int)
    requires Consistent(sign, c, sent, superseded) && b !in superseded
    ensures Consistent(sign, Fetched(c, b, now), sent, Superseded(c, superseded, b)) <==>
            !(c.latest == Some(b) && c.signatures != [])
  {
    if c.latest == Some(b) && c.signatures != [] {
      assert SentOver(sign, c, sent, c.signatures[0]);
    }
  }

  /** The blockhashes superseded once `b` is stored. */
  function Superseded(c: Cache, superseded: set<Blockhash>, b: Blockhash): set<Blockhash> {
    if c.latest.Some? && c.latest.value != b then superseded + {c.latest.value} else superseded
  }

  // ----- interleaved calls

  /** A call in `sendTransaction`: about to ask for a blockhash, waiting for a poll, or finished. */
  datatype Call =
    | Asking(tx: Tx, bypass: bool, round: nat)
    | Polling(tx: Tx, cached: Option<Blockhash>, polls: nat, round: nat)
    | Done(signature: Signature)
    | Failed

  datatype System = System(
    cache: Cache, calls: map<CallId, Call>, sent: seq<Sending>, superseded: set<Blockhash>)

  datatype Event =
    | Begin(id: CallId, tx: Tx, disableCaching: bool)
    | Ask(id: CallId, now: int)
    | Answer(id: CallId, blockhash: Blockhash, now: int)
    | Error(id: CallId)

  const START: System := System(EMPTY_CACHE, map[], [], {})

  ghost predicate Enabled(s: System, e: Event) {
    match e
    case Begin(id, _, _) => id !in s.calls
    case Ask(id, now) =>
      && id in s.calls && s.calls[id].Asking?
      && (Polls(s, id, now) ==> !s.cache.polling)
    case Answer(id, b, _) => id in s.calls && s.calls[id].Polling? && b !in s.superseded
    case Error(id) => id in s.calls && s.calls[id].Polling?
  }

  /** Whether asking goes to the cluster: the cache is bypassed, or no poll runs and it is stale. */
  predicate Polls(s: System, id: CallId, now: int)
    requires id in s.calls && s.calls[id].Asking?
  {
    s.calls[id].bypass || (!s.cache.polling && !Usable(s.cache, now))
  }

  /** Sign over the cached blockhash; send if the signature is new, otherwise go round again. */
  function SignAndCheck(sign: Signer, s: System, id: CallId, tx: Tx, round: nat): System
    requires s.cache.latest.Some?
  {
    var b := s.cache.latest.value;
    if sign(tx, b) in s.cache.signatures then s.(calls := s.calls[id := Asking(tx, true, round + 1)])
    else
      s.(cache := s.cache.(signatures := s.cache.signatures + [sign(tx, b)]),
         calls := s.calls[id := Done(sign(tx, b))],
         sent := s.sent + [Sending(tx, b)])
  }

  function Step(sign: Signer, s: System, e: Event): System {
    match e
    case Begin(id, tx, disableCaching) => s.(calls := s.calls[id := Asking(tx, disableCaching, 1)])
    case Ask(id, now) =>
      if id !in s.calls || !s.calls[id].Asking? then s
      else
        var call := s.calls[id];
        if Polls(s, id, now) then
          s.(cache := s.cache.(polling := true),
             calls := s.calls[id := Polling(call.tx, s.cache.latest, 0, call.round)])
        else if s.cache.polling || s.cache.latest.None? then s   // sleeps, then asks again
        else SignAndCheck(sign, s, id, call.tx, call.round)
    case Answer(id, b, now) =>
      if id !in s.calls || !s.calls[id].Polling? then s
      else
        var call := s.calls[id];
        if call.cached != Some(b) then
          SignAndCheck(sign, s.(cache := Fetched(s.cache, b, now), superseded := Superseded(s.cache, s.superseded, b)),
                       id, call.tx, call.round)
        else if call.polls + 1 < MAX_POLLS then s.(calls := s.calls[id := call.(polls := call.polls + 1)])
        else s.(cache := s.cache.(polling := false), calls := s.calls[id := Failed])
    case Error(id) => s.(cache := s.cache.(polling := false), calls := s.calls[id := Failed])
  }

  ghost predicate CallOk(s: System, id: CallId)
    requires id in s.calls
  {
    match s.calls[id]
    case Asking(_, bypass, round) => round == 1 || (round == 2 && bypass)
    case Polling(_, cached, polls, round) =>
      s.cache.polling && cached == s.cache.latest && polls < MAX_POLLS && 1 <= round <= 2
    case Done(sig) => true
    case Failed => true
  }

  ghost predicate Inv(sign: Signer, s: System) {
    && Consistent(sign, s.cache, s.sent, s.superseded)
    && AllDifferent(sign, s.sent)
    && (forall id :: id in s.calls ==> CallOk(s, id))
    && (forall i, j :: i in s.calls && j in s.calls && s.calls[i].Polling? && s.calls[j].Polling? ==> i == j)
  }

  lemma SignKeepsInv(sign: Signer, s: System, id: CallId, tx: Tx, round: nat)
    requires Binding(sign) && Consistent(sign, s.cache, s.sent, s.superseded) && AllDifferent(sign, s.sent)
    requires s.cache.latest.Some? && (round == 1 || s.cache.signatures == [])
    requires forall k :: k in s.calls && k != id ==> CallOk(s, k) && !s.calls[k].Polling?
    ensures Inv(sign, SignAndCheck(sign, s, id, tx, round))
  {
    var t := SignAndCheck(sign, s, id, tx, round);
    if sign(tx, s.cache.latest.value) !in s.cache.signatures {
      RecordKeepsDifferent(sign, s.cache, s.sent, s.superseded, tx);
    }
    forall k | k in t.calls ensures CallOk(t, k) {
      if k != id { assert CallOk(s, k); }
    }
  }

  lemma StepKeepsInv(sign: Signer, s: System, e: Event)
    requires Binding(sign) && Inv(sign, s) && Enabled(s, e)
    ensures Inv(sign, Step(sign, s, e))
  {
    var t := Step(sign, s, e);
    assert e.id in s.calls ==> CallOk(s, e.id);
    match e
    case Begin(id, tx, d) =>
      assert forall k :: k in t.calls && k != id ==> CallOk(s, k);
    case Ask(id, now) =>
      var call := s.calls[id];
      assert forall k :: k in s.calls ==> CallOk(s, k);
      if Polls(s, id, now) {
        assert t.cache.latest == s.cache.latest;
        forall k | k in t.calls ensures CallOk(t, k) { assert k == id || CallOk(s, k); }
      } else if !s.cache.polling {
        SignKeepsInv(sign, s, id, call.tx, call.round);
      }
    case Answer(id, b, now) =>
      AnswerKeepsInv(sign, s, id, b, now);
    case Error(id) =>
      forall k | k in t.calls ensures CallOk(t, k) { assert k == id || CallOk(s, k); }
  }

  lemma AnswerKeepsInv(sign: Signer, s: System, id: CallId, b: Blockhash, now: int)
    requires Binding(sign) && Inv(sign, s) && Enabled(s, Answer(id, b, now))
    ensures Inv(sign, Step(sign, s, Answer(id, b, now)))
  {
    var t, call := Step(sign, s, Answer(id, b, now)), s.calls[id];
    assert CallOk(s, id);
    if call.cached != Some(b) {
      FetchConsistentIff(sign, s.cache, s.sent, s.superseded, b, now);
      var u := s.(cache := Fetched(s.cache, b, now), superseded := Superseded(s.cache, s.superseded, b));
      forall k | k in u.calls && k != id ensures CallOk(u, k) && !u.calls[k].Polling? { assert CallOk(s, k); }
      SignKeepsInv(sign, u, id, call.tx, call.round);
    } else {
      forall k | k in t.calls ensures CallOk(t, k) { assert k == id || CallOk(s, k); }
    }
  }

  // ----- whole runs

  function Exec(sign: Signer, s: System, es: seq<Event>): System
    decreases |es|
  {
    if es == [] then s else Exec(sign, Step(sign, s, es[0]), es[1..])
  }

  ghost predicate Possible(sign: Signer, s: System, es: seq<Event>)
    decreases |es|
  {
    es == [] || (Enabled(s, es[0]) && Possible(sign, Step(sign, s, es[0]), es[1..]))
  }

  lemma {:induction false} RunKeepsInv(sign: Signer, s: System, es: seq<Event>)
    requires Binding(sign) && Inv(sign, s) && Possible(sign, s, es)
    ensures Inv(sign, Exec(sign, s, es))
    decreases |es|
  {
    if es != [] {
      StepKeepsInv(sign, s, es[0]);
      RunKeepsInv(sign, Step(sign, s, es[0]), es[1..]);
    }
  }

  /** Over a whole run of interleaved calls, no signature is sent twice, every call is in its first
      or second round, and a second round always bypasses the cache. */
  lemma SignaturesNeverRepeat(sign: Signer, es: seq<Event>)
    requires Binding(sign) && Possible(sign, START, es)
    ensures AllDifferent(sign, Exec(sign, START, es).sent)
    ensures forall id :: id in Exec(sign, START, es).calls ==>
              match Exec(sign, START, es).calls[id]
              case Asking(_, bypass, round) => round == 1 || (round == 2 && bypass)
              case Polling(_, _, polls, round) => polls < MAX_POLLS && round <= 2
              case Done(_) => true
              case Failed => true
  {
    RunKeepsInv(sign, START, es);
    var s := Exec(sign, START, es);
    forall id | id in s.calls ensures CallOk(s, id) {}
  }

  /** A call goes round again only when its signature has really been sent over this blockhash. */
  lemma RetriedOnlyIfDuplicate(sign: Signer, es: seq<Event>, id: CallId, now: int)
    requires Binding(sign) && Possible(sign, START, es) && Enabled(Exec(sign, START, es), Ask(id, now))
    ensures var s := Exec(sign, START, es);
      var t := Step(sign, s, Ask(id, now));
      t.calls[id].Asking? && t.calls[id].round == 2 && s.calls[id].round == 1 ==>
        s.cache.latest.Some? && SentOver(sign, s.cache, s.sent, sign(s.calls[id].tx, s.cache.latest.value))
  {
    RunKeepsInv(sign, START, es);
  }

  /** A call uses the cached blockhash exactly when it may, no poll runs, and the blockhash was fetched
      less than 30 seconds ago; it polls when it must not, or when the cache is empty or older. */
  lemma CacheIsUsedIff(sign: Signer, s: System, id: CallId, now: int)
    requires Enabled(s, Ask(id, now))
    ensures
      var t, call := Step(sign, s, Ask(id, now)), s.calls[id];
      var young := s.cache.latest.Some? && now - s.cache.lastFetch < 30000;
      && (t.calls[id].Polling? <==> call.bypass || (!s.cache.polling && !young))
      && (t.calls[id].Asking? && t.calls[id].round == call.round + 1 <==>
            !call.bypass && !s.cache.polling && young && sign(call.tx, s.cache.latest.value) in s.cache.signatures)
      && (t.calls[id].Done? <==>
            !call.bypass && !s.cache.polling && young && sign(call.tx, s.cache.latest.value) !in s.cache.signatures)
      && (t.calls[id].Done? ==> t.sent == s.sent + [Sending(call.tx, s.cache.latest.value)] && t.cache.latest == s.cache.latest)
  {
  }

  /** A call made with caching switched off polls in any case. */
  lemma DisabledCachePolls(sign: Signer, s: System, id: CallId, tx: Tx, now: int)
    ensures Step(sign, Step(sign, s, Begin(id, tx, true)), Ask(id, now)).calls[id] == Polling(tx, s.cache.latest, 0, 1)
  {
  }

  /** The polling flag is set exactly while some call polls. */
  ghost predicate FlagIsRight(s: System) {
    s.cache.polling <==> exists id :: id in s.calls && s.calls[id].Polling?
  }

  lemma StepKeepsFlag(sign: Signer, s: System, e: Event)
    requires Inv(sign, s) && FlagIsRight(s) && Enabled(s, e)
    ensures FlagIsRight(Step(sign, s, e))
  {
    var t := Step(sign, s, e);
    forall k | k in s.calls ensures CallOk(s, k) {}
    assert forall k :: k in t.calls && k != e.id ==> k in s.calls && t.calls[k] == s.calls[k];
    if k :| k in s.calls && s.calls[k].Polling? && k != e.id { assert t.calls[k].Polling?; }
    assert t.calls[e.id].Polling? || !t.calls[e.id].Polling?;
  }

  lemma {:induction false} RunKeepsFlag(sign: Signer, s: System, es: seq<Event>)
    requires Binding(sign) && Inv(sign, s) && FlagIsRight(s) && Possible(sign, s, es)
    ensures FlagIsRight(Exec(sign, s, es))
    decreases |es|
  {
    if es != [] {
      StepKeepsInv(sign, s, es[0]);
      StepKeepsFlag(sign, s, es[0]);
      RunKeepsFlag(sign, Step(sign, s, es[0]), es[1..]);
    }
  }

  /** In every run calls wait for a poll only while one is running. */
  lemma PollingFlagIsRight(sign: Signer, es: seq<Event>)
    requires Binding(sign) && Possible(sign, START, es)
    ensures FlagIsRight(Exec(sign, START, es))
  {
    RunKeepsFlag(sign, START, es);
  }

  /** The answer that ends a poll always finishes the call: with a new blockhash its signature is
      sent, and with the old one 50 times over the call fails. */
  lemma AnswerFinishesOrRepeats(sign: Signer, es: seq<Event>, id: CallId, b: Blockhash, now: int)
    requires Binding(sign) && Possible(sign, START, es) && Enabled(Exec(sign, START, es), Answer(id, b, now))
    ensures var s := Exec(sign, START, es);
      var t := Step(sign, s, Answer(id, b, now));
      if s.cache.latest != Some(b) then
        t.calls[id] == Done(sign(s.calls[id].tx, b)) && t.sent == s.sent + [Sending(s.calls[id].tx, b)]
      else if s.calls[id].polls == MAX_POLLS - 1 then t.calls[id] == Failed && t.sent == s.sent
      else t.calls[id] == s.calls[id].(polls := s.calls[id].polls + 1) && t.sent == s.sent
  {
    RunKeepsInv(sign, START, es);
    assert CallOk(Exec(sign, START, es), id);
  }

  /** Without the rule against overlapping polls, an answer makes a call send a signature again exactly
      when another poll has stored its blockhash already and that signature was sent over it. */
  lemma AnswerRepeatsIff(sign: Signer, s: System, id: CallId, b: Blockhash, now: int)
    requires Binding(sign) && Consistent(sign, s.cache, s.sent, s.superseded) && AllDifferent(sign, s.sent)
    requires Enabled(s, Answer(id, b, now)) && s.calls[id].cached != Some(b)
    ensures AllDifferent(sign, Step(sign, s, Answer(id, b, now)).sent) <==>
            !(s.cache.latest == Some(b) && sign(s.calls[id].tx, b) in s.cache.signatures)
  {
    var x := Sending(s.calls[id].tx, b);
    var more := s.sent + [x];
    assert Step(sign, s, Answer(id, b, now)).sent == more;
    if s.cache.latest == Some(b) && Sig(sign, x) in s.cache.signatures {
      assert SentOver(sign, s.cache, s.sent, Sig(sign, x));
      var i :| 0 <= i < |s.sent| && s.cache.latest == Some(s.sent[i].blockhash) && Sig(sign, s.sent[i]) == Sig(sign, x);
      assert more[i] == s.sent[i] && more[|s.sent|] == x;
    } else {
      forall i | 0 <= i < |s.sent| ensures Sig(sign, s.sent[i]) != Sig(sign, x) {
        assert Sig(sign, s.sent[i]) == Sig(sign, x) ==> s.sent[i].blockhash == b;
      }
    }
  }

  /** Two overlapping polls, as `sendTransaction` makes when both calls bypass the cache: the second
      answer clears the list the first call wrote to, and the same signature is sent twice. */
  lemma OverlappingPollsCanRepeat(sign: Signer, tx: Tx, b: Blockhash)
    ensures var es := [Begin(0, tx, true), Ask(0, 0), Begin(1, tx, true), Ask(1, 0), Answer(0, b, 0), Answer(1, b, 0)];
      Exec(sign, START, es).sent == [Sending(tx, b), Sending(tx, b)]
  {
    var es := [Begin(0, tx, true), Ask(0, 0), Begin(1, tx, true), Ask(1, 0), Answer(0, b, 0), Answer(1, b, 0)];
    var s1 := Step(sign, START, es[0]);
    var s2 := Step(sign, s1, es[1]);
    var s3 := Step(sign, s2, es[2]);
    var s4 := Step(sign, s3, es[3]);
    assert s4.calls[0] == Polling(tx, None, 0, 1) && s4.calls[1] == Polling(tx, None, 0, 1);
    var s5 := Step(sign, s4, es[4]);
    assert s5.sent == [Sending(tx, b)] && s5.calls[1] == Polling(tx, None, 0, 1);
    var s6 := Step(sign, s5, es[5]);
    assert s6.sent == [Sending(tx, b), Sending(tx, b)];
    assert es[1..][1..] == es[2..] && es[2..][1..] == es[3..] && es[3..][1..] == es[4..] && es[4..][1..] == es[5..];
    assert Exec(sign, s5, es[5..]) == s6;
    assert Exec(sign, s4, es[4..]) == s6;
    assert Exec(sign, s3, es[3..]) == s6;
    assert Exec(sign, s2, es[2..]) == s6;
  }

  // ----- the loops, run without interleaving

  datatype Reply = Hash(blockhash: Blockhash) | Unreachable

  /** What a round of `sendTransaction` meets: the time when it looks at the cache, the time when a
      new blockhash is stored, and the cluster's replies. */
  datatype Round = Round(now: int, fetchedAt: int, replies: seq<Reply>)

  /** What a poll makes of the cluster's replies: the first new blockhash among the first 50. */
  function PollOutcome(cached: Option<Blockhash>, replies: seq<Reply>, i: nat): (r: Option<Blockhash>)
    requires i <= MAX_POLLS <= |replies|
    decreases MAX_POLLS - i
  {
    if i == MAX_POLLS || replies[i].Unreachable? then None
    else if Some(replies[i].blockhash) != cached then Some(replies[i].blockhash)
    else PollOutcome(cached, replies, i + 1)
  }

  /** Reply `k` is the first to bring a blockhash other than the cached one, and none failed before. */
  ghost predicate FirstNew(cached: Option<Blockhash>, replies: seq<Reply>, from: nat, k: nat) {
    && from <= k < |replies| && replies[k].Hash? && Some(replies[k].blockhash) != cached
    && forall j :: from <= j < k ==> replies[j].Hash? && Some(replies[j].blockhash) == cached
  }

  /** A poll returns the first new blockhash among 50 replies, and fails exactly when there is none
      before a failed request or the fiftieth reply. */
  lemma {:induction false} PollOutcomeIff(cached: Option<Blockhash>, replies: seq<Reply>, i: nat)
    requires i <= MAX_POLLS <= |replies|
    ensures PollOutcome(cached, replies, i).Some? <==> exists k: nat :: k < 50 && FirstNew(cached, replies, i, k)
    ensures forall k: nat :: k < 50 && FirstNew(cached, replies, i, k) ==>
              PollOutcome(cached, replies, i) == Some(replies[k].blockhash)
    decreases MAX_POLLS - i
  {
    if i < MAX_POLLS {
      if replies[i].Hash? && Some(replies[i].blockhash) == cached {
        PollOutcomeIff(cached, replies, i + 1);
        assert PollOutcome(cached, replies, i) == PollOutcome(cached, replies, i + 1);
        forall k: nat | k < 50 && FirstNew(cached, replies, i, k) ensures FirstNew(cached, replies, i + 1, k) {}
        var next := i + 1;
        if k: nat :| k < 50 && FirstNew(cached, replies, next, k) { assert FirstNew(cached, replies, i, k); }
      } else if replies[i].Hash? {
        assert FirstNew(cached, replies, i, i);
      }
    }
  }

  class BlockhashInfo {
    const sign: Signer
    var cache: Cache
    ghost var sent: seq<Sending>
    ghost var superseded: set<Blockhash>

    ghost predicate Valid()
      reads this
    {
      && Binding(sign) && Consistent(sign, cache, sent, superseded) && AllDifferent(sign, sent)
      && !cache.polling
    }

    constructor (sign: Signer)
      requires Binding(sign)
      ensures Valid() && sent == [] && cache == EMPTY_CACHE && this.sign == sign
    {
      this.sign := sign;
      cache := EMPTY_CACHE;
      sent, superseded := [], {};
    }

    ghost predicate NeverSuperseded(replies: seq<Reply>)
      reads this
    {
      forall i :: 0 <= i < |replies| && replies[i].Hash? ==> replies[i].blockhash !in superseded
    }

    /** `_pollNewBlockhash`. */
    method PollNewBlockhash(replies: seq<Reply>, now: int) returns (r: Option<Blockhash>)
      requires Valid() && |replies| >= MAX_POLLS && NeverSuperseded(replies)
      modifies this
      ensures Valid() && sent == old(sent)
      ensures r == PollOutcome(old(cache.latest), replies, 0)
      ensures r.Some? ==> r != old(cache.latest)
      ensures r.Some? ==> cache == Cache(r, now, [], false)
      ensures r.None? ==> cache == old(cache) && superseded == old(superseded)
    {
      var cached := cache.latest;
      cache := cache.(polling := true);
      for i := 0 to MAX_POLLS
        invariant cache == old(cache).(polling := true) && sent == old(sent) && superseded == old(superseded)
        invariant PollOutcome(cached, replies, 0) == PollOutcome(cached, replies, i)
      {
        if replies[i].Unreachable? {
          cache := cache.(polling := false);
          return None;
        }
        var latest := replies[i].blockhash;
        if cached != Some(latest) {
          FetchConsistentIff(sign, old(cache), sent, superseded, latest, now);
          superseded := Superseded(old(cache), superseded, latest);
          cache := Fetched(cache, latest, now);
          return Some(latest);
        }
      }
      cache := cache.(polling := false);
      return None;
    }

    /** The loop of the legacy `sendTransaction`, given the clock readings and the cluster's replies of
        each round: it sends a signature never sent before, in at most two rounds, or fails in a poll. */
    method SendTransaction(tx: Tx, disableCaching: bool, inputs: seq<Round>) returns (r: Option<Signature>, rounds: nat)
      requires Valid() && |inputs| == 2
      requires forall k :: 0 <= k < 2 ==> |inputs[k].replies| >= MAX_POLLS && NeverSuperseded(inputs[k].replies)
      modifies this
      ensures 1 <= rounds <= 2
      ensures Valid()
      ensures r.Some? ==>
                && |sent| == |old(sent)| + 1 && sent[..|old(sent)|] == old(sent)
                && sent[|old(sent)|].tx == tx && Sig(sign, sent[|old(sent)|]) == r.value
                && cache.latest == Some(sent[|old(sent)|].blockhash)
                && forall i :: 0 <= i < |old(sent)| ==> Sig(sign, old(sent)[i]) != r.value
      ensures r.None? ==>
                sent == old(sent) && cache == old(cache) && PollOutcome(old(cache.latest), inputs[rounds - 1].replies, 0) == None
      ensures rounds == 2 ==>
                && !disableCaching && old(cache.latest).Some? && inputs[0].now - old(cache.lastFetch) < 30000
                && sign(tx, old(cache.latest).value) in old(cache.signatures)
      ensures !disableCaching && old(cache.latest).Some? && inputs[0].now - old(cache.lastFetch) < 30000
              && sign(tx, old(cache.latest).value) !in old(cache.signatures) ==>
                r == Some(sign(tx, old(cache.latest).value)) && rounds == 1 && cache.latest == old(cache.latest)
      ensures r.Some? && cache.latest == old(cache.latest) ==>
                !disableCaching && rounds == 1 && inputs[0].now - old(cache.lastFetch) < 30000
    {
      var disableCache := disableCaching;
      rounds := 0;
      while true
        invariant Valid() && cache == old(cache) && sent == old(sent) && superseded == old(superseded)
        invariant rounds <= 1 && (rounds == 0 ==> disableCache == disableCaching)
        invariant rounds == 1 ==>
                    && disableCache && !disableCaching && Usable(cache, inputs[0].now)
                    && sign(tx, cache.latest.value) in cache.signatures
        decreases 1 - rounds
      {
        var input := inputs[rounds];
        rounds := rounds + 1;
        if disableCache || !Usable(cache, input.now) {
          var polled := PollNewBlockhash(input.replies, input.fetchedAt);
          if polled.None? { return None, rounds; }
        }
        var signature := sign(tx, cache.latest.value);
        if signature !in cache.signatures {
          RecordKeepsDifferent(sign, cache, sent, superseded, tx);
          sent := sent + [Sending(tx, cache.latest.value)];
          cache := cache.(signatures := cache.signatures + [signature]);
          return Some(signature), rounds;
        }
        disableCache := true;
      }
    }
  }
}
