/**
 Waiting for a transaction: a confirmation promise races against an expiry watcher and the caller's
 abort signal.  The events of a race are given in the order in which they happen; the first one that
 settles a promise decides.  Reads that fail are events of their own.
 */
module Confirmation {
  import opened Wrappers

  datatype Commitment = Processed | Recent | Confirmed | Single | SingleGossip | Finalized | Max | Root

  datatype Level = LevelProcessed | LevelConfirmed | LevelFinalized

  datatype SignatureStatus = SignatureStatus(level: Option<Level>, err: Option<nat>)

  datatype Event =
    | HeightRead(height: int)
    | NonceRead(slot: nat, nonce: Option<string>)
    | ReadFailed
    | Notified(context: nat, err: Option<nat>)
    | StatusRead(context: nat, value: Option<SignatureStatus>)
    | Aborted

  datatype Race =
    | Undecided
    | Success(context: nat, err: Option<nat>)
    | Rejected(reason: nat)
    | Cancelled
    | HeightExceeded
    | NonceInvalid(slot: Option<nat>)

  // ----- levels

  function Rank(l: Level): nat {
    match l
    case LevelProcessed => 0
    case LevelConfirmed => 1
    case LevelFinalized => 2
  }

  function Needed(c: Commitment): nat {
    match c
    case Processed => 0
    case Recent => 0
    case Confirmed => 1
    case Single => 1
    case SingleGossip => 1
    case Finalized => 2
    case Max => 2
    case Root => 2
  }

  /** The reported level is at least what the commitment asks for (finalized when none is given). */
  predicate Meets(c: Option<Commitment>, level: Option<Level>) {
    level.Some? && Rank(level.value) >= Needed(if c.Some? then c.value else Finalized)
  }

  /** The switch of the status check that runs once the signature subscription is set up. */
  predicate StatusCheckPasses(c: Option<Commitment>, level: Option<Level>) {
    match c
    case None => true
    case Some(Processed) => true
    case Some(Recent) => true
    case Some(Confirmed) => level != Some(LevelProcessed)
    case Some(Single) => level != Some(LevelProcessed)
    case Some(SingleGossip) => level != Some(LevelProcessed)
    case Some(Finalized) => level != Some(LevelProcessed) && level != Some(LevelConfirmed)
    case Some(Max) => level != Some(LevelProcessed) && level != Some(LevelConfirmed)
    case Some(Root) => level != Some(LevelProcessed) && level != Some(LevelConfirmed)
  }

  /** The switch of the second look after a nonce change. */
  predicate SecondLookPasses(c: Option<Commitment>, level: Option<Level>) {
    match if c.Some? then c.value else Finalized
    case Processed => level == Some(LevelProcessed) || level == Some(LevelConfirmed) || level == Some(LevelFinalized)
    case Recent => level == Some(LevelProcessed) || level == Some(LevelConfirmed) || level == Some(LevelFinalized)
    case Confirmed => level == Some(LevelConfirmed) || level == Some(LevelFinalized)
    case Single => level == Some(LevelConfirmed) || level == Some(LevelFinalized)
    case SingleGossip => level == Some(LevelConfirmed) || level == Some(LevelFinalized)
    case Finalized => level == Some(LevelFinalized)
    case Max => level == Some(LevelFinalized)
    case Root => level == Some(LevelFinalized)
  }

  /** The second look passes exactly the levels that meet the commitment. */
  lemma SecondLookIsExact(c: Option<Commitment>, level: Option<Level>)
    ensures SecondLookPasses(c, level) <==> Meets(c, level)
  {
    match level
    case None =>
    case Some(LevelProcessed) =>
    case Some(LevelConfirmed) =>
    case Some(LevelFinalized) =>
  }

  /** The status check agrees with it exactly when a level is reported and a commitment is given,
      or the level is finalized anyway: without a commitment it accepts any status. */
  lemma StatusCheckExactIff(c: Option<Commitment>, level: Option<Level>)
    ensures (StatusCheckPasses(c, level) <==> Meets(c, level))
            <==> level.Some? && (c.Some? || level == Some(LevelFinalized))
  {
    match level
    case None =>
    case Some(LevelProcessed) =>
    case Some(LevelConfirmed) =>
    case Some(LevelFinalized) =>
  }

  // ----- settling

  /** How an event settles the confirmation promise or the cancellation promise, if it does. */
  function Settles(c: Option<Commitment>, e: Event): Race {
    match e
    case Notified(context, err) => Success(context, err)
    case StatusRead(context, Some(status)) =>
      if status.err.Some? then Rejected(status.err.value)
      else if StatusCheckPasses(c, status.level) then Success(context, None)
      else Undecided
    case Aborted => Cancelled
    case _ => Undecided
  }

  // ----- the block height strategy

  /** The watcher reads a failed request as height -1. */
  function Height(e: Event): Option<int> {
    match e
    case HeightRead(h) => Some(h)
    case ReadFailed => Some(-1)
    case _ => None
  }

  function HeightDecides(c: Option<Commitment>, lastValid: int, e: Event): Race {
    if Height(e).Some? && Height(e).value > lastValid then HeightExceeded else Settles(c, e)
  }

  /** The first decision of the race. */
  function HeightRace(c: Option<Commitment>, lastValid: int, es: seq<Event>): Race {
    if es == [] then Undecided
    else if HeightDecides(c, lastValid, es[0]) != Undecided then HeightDecides(c, lastValid, es[0])
    else HeightRace(c, lastValid, es[1..])
  }

  method ConfirmByBlockHeight(c: Option<Commitment>, lastValid: int, es: seq<Event>) returns (r: Race)
    ensures r == HeightRace(c, lastValid, es)
  {
    var currentBlockHeight := lastValid;
    var i := 0;
    while i < |es|
      invariant 0 <= i <= |es| && currentBlockHeight <= lastValid
      invariant HeightRace(c, lastValid, es[i..]) == HeightRace(c, lastValid, es)
    {
      var e := es[i];
      assert es[i..][0] == e && es[i..][1..] == es[i + 1..];
      match e {
        case HeightRead(h) => currentBlockHeight := h;
        case ReadFailed => currentBlockHeight := -1;
        case _ =>
      }
      if currentBlockHeight > lastValid { return HeightExceeded; }
      var settled := Settles(c, e);
      if settled != Undecided { return settled; }
      i := i + 1;
    }
    assert es[i..] == [];
    return Undecided;
  }

  /** Expiry is justified by a successful read of a height above the last valid one, before which
      nothing settled. */
  ghost predicate HeightShown(c: Option<Commitment>, lastValid: int, es: seq<Event>, i: int) {
    && 0 <= i < |es| && es[i].HeightRead? && es[i].height > lastValid
    && forall j :: 0 <= j < i ==> HeightDecides(c, lastValid, es[j]) == Undecided
  }

  lemma {:induction false} ExceededIsShown(c: Option<Commitment>, lastValid: int, es: seq<Event>)
    requires lastValid >= -1
    ensures HeightRace(c, lastValid, es) == HeightExceeded <==> exists i :: HeightShown(c, lastValid, es, i)
    decreases |es|
  {
    if es != [] {
      ExceededIsShown(c, lastValid, es[1..]);
      if HeightDecides(c, lastValid, es[0]) == Undecided {
        if i :| HeightShown(c, lastValid, es[1..], i) { assert HeightShown(c, lastValid, es, i + 1); }
        if i :| HeightShown(c, lastValid, es, i) { assert HeightShown(c, lastValid, es[1..], i - 1); }
      } else if es[0].HeightRead? && es[0].height > lastValid {
        assert HeightShown(c, lastValid, es, 0);
      }
    }
  }

  /** If this race expires, a successful read shows why. */
  ghost predicate ExpiryJustified(c: Option<Commitment>, lastValid: int, es: seq<Event>) {
    HeightRace(c, lastValid, es) == HeightExceeded ==> exists i :: HeightShown(c, lastValid, es, i)
  }

  /** Failed reads never make a transaction expire, exactly when the last valid height is at least -1. */
  lemma FailedReadsNeverExpireIff(c: Option<Commitment>, lastValid: int)
    ensures (forall es :: ExpiryJustified(c, lastValid, es)) <==> lastValid >= -1
  {
    if lastValid >= -1 {
      forall es ensures ExpiryJustified(c, lastValid, es) { ExceededIsShown(c, lastValid, es); }
    } else {
      assert !ExpiryJustified(c, lastValid, [ReadFailed]);
    }
  }

  // ----- the durable nonce strategy

  /** The watcher's variables: the last nonce seen and the slot of the last successful read. */
  datatype Watch = Watch(nonce: Option<string>, slot: Option<nat>)

  function Observe(w: Watch, e: Event): Watch {
    match e
    case NonceRead(slot, nonce) => Watch(nonce, Some(slot))
    case _ => w
  }

  function NonceRace(c: Option<Commitment>, expected: string, w: Watch, es: seq<Event>): Race
    decreases |es|
  {
    if es == [] then Undecided
    else
      var v := Observe(w, es[0]);
      if (es[0].NonceRead? || es[0].ReadFailed?) && v.nonce != Some(expected) then NonceInvalid(v.slot)
      else if Settles(c, es[0]) != Undecided then Settles(c, es[0])
      else NonceRace(c, expected, v, es[1..])
  }

  /** A successful read at `i` shows a changed nonce, and nothing before it decided. */
  ghost predicate ChangeShown(c: Option<Commitment>, expected: string, es: seq<Event>, i: int) {
    && 0 <= i < |es| && es[i].NonceRead? && es[i].nonce != Some(expected)
    && forall j :: 0 <= j < i ==>
         Settles(c, es[j]) == Undecided && (es[j].NonceRead? ==> es[j].nonce == Some(expected))
  }

  /** The watcher reports a changed nonce exactly when a successful read shows one, and then with the
      slot of that very read; in particular the slot is always known. */
  lemma {:induction false} InvalidIsShown(c: Option<Commitment>, expected: string, w: Watch, es: seq<Event>)
    requires w.nonce == Some(expected)
    ensures NonceRace(c, expected, w, es).NonceInvalid? <==> exists i :: ChangeShown(c, expected, es, i)
    ensures forall i :: ChangeShown(c, expected, es, i) ==> NonceRace(c, expected, w, es) == NonceInvalid(Some(es[i].slot))
    decreases |es|
  {
    if es != [] {
      var v := Observe(w, es[0]);
      if v.nonce == Some(expected) {
        InvalidIsShown(c, expected, v, es[1..]);
        if Settles(c, es[0]) == Undecided {
          if i :| ChangeShown(c, expected, es[1..], i) { assert ChangeShown(c, expected, es, i + 1); }
          forall i | ChangeShown(c, expected, es, i)
            ensures NonceRace(c, expected, w, es) == NonceInvalid(Some(es[i].slot))
          {
            assert ChangeShown(c, expected, es[1..], i - 1);
          }
        }
      } else {
        assert ChangeShown(c, expected, es, 0);
      }
    }
  }

  /** An answer to the second look: a failed request, no answer, or a status with its context slot. */
  datatype Answer = Unreachable | Nothing | Status(context: nat, value: Option<SignatureStatus>)

  datatype Verdict = StillWaiting | LookFailed | Returned(context: nat, err: Option<nat>) | ExpiredNonce | Other(race: Race)

  /** Ask until an answer is at or past the slot in which the nonce was seen changed. */
  function SecondLook(c: Option<Commitment>, slot: nat, answers: seq<Answer>): Verdict {
    if answers == [] then StillWaiting
    else match answers[0]
      case Unreachable => LookFailed
      case Nothing => ExpiredNonce
      case Status(context, value) =>
        if context < slot then SecondLook(c, slot, answers[1..])
        else if value.Some? && SecondLookPasses(c, value.value.level) then Returned(context, value.value.err)
        else ExpiredNonce
  }

  method ConfirmByDurableNonce(
    c: Option<Commitment>, nonceValue: string, minContextSlot: nat, es: seq<Event>, answers: seq<Answer>)
    returns (race: Race, r: Verdict)
    ensures race == NonceRace(c, nonceValue, Watch(Some(nonceValue), None), es)
    ensures !race.NonceInvalid? ==> r == Other(race)
    ensures race.NonceInvalid? ==>
              r == SecondLook(c, if race.slot.Some? then race.slot.value else minContextSlot, answers)
  {
    race := RaceNonce(c, nonceValue, es);
    if !race.NonceInvalid? { return race, Other(race); }
    var slot := if race.slot.Some? then race.slot.value else minContextSlot;
    var i := 0;
    while i < |answers|
      invariant 0 <= i <= |answers|
      invariant SecondLook(c, slot, answers[i..]) == SecondLook(c, slot, answers)
    {
      assert answers[i..][0] == answers[i] && answers[i..][1..] == answers[i + 1..];
      match answers[i] {
        case Unreachable => return race, LookFailed;
        case Nothing => return race, ExpiredNonce;
        case Status(context, value) =>
          if context >= slot {
            if value.Some? && SecondLookPasses(c, value.value.level) {
              return race, Returned(context, value.value.err);
            }
            return race, ExpiredNonce;
          }
      }
      i := i + 1;
    }
    assert answers[i..] == [];
    return race, StillWaiting;
  }

  method RaceNonce(c: Option<Commitment>, nonceValue: string, es: seq<Event>) returns (race: Race)
    ensures race == NonceRace(c, nonceValue, Watch(Some(nonceValue), None), es)
  {
    var currentNonceValue, lastCheckedSlot := Some(nonceValue), None;
    var i := 0;
    while i < |es|
      invariant 0 <= i <= |es| && currentNonceValue == Some(nonceValue)
      invariant NonceRace(c, nonceValue, Watch(currentNonceValue, lastCheckedSlot), es[i..]) ==
                NonceRace(c, nonceValue, Watch(Some(nonceValue), None), es)
    {
      var e := es[i];
      assert es[i..][0] == e && es[i..][1..] == es[i + 1..];
      if e.NonceRead? {
        currentNonceValue, lastCheckedSlot := e.nonce, Some(e.slot);
        if currentNonceValue != Some(nonceValue) { return NonceInvalid(lastCheckedSlot); }
      }
      var settled := Settles(c, e);
      if settled != Undecided { return settled; }
      i := i + 1;
    }
    assert es[i..] == [];
    return Undecided;
  }

  /** The verdict is taken from the first status at or past `slot`, and nothing came before it. */
  ghost predicate Decisive(slot: nat, answers: seq<Answer>, k: int) {
    && 0 <= k < |answers| && (answers[k].Status? ==> answers[k].context >= slot)
    && forall j :: 0 <= j < k ==> answers[j].Status? && answers[j].context < slot
  }

  lemma {:induction false} SecondLookIsDecisive(c: Option<Commitment>, slot: nat, answers: seq<Answer>)
    ensures SecondLook(c, slot, answers) == StillWaiting <==> forall k :: !Decisive(slot, answers, k)
    ensures forall k :: Decisive(slot, answers, k) ==>
              SecondLook(c, slot, answers) ==
              if answers[k].Unreachable? then LookFailed
              else if answers[k].Status? && answers[k].value.Some? && Meets(c, answers[k].value.value.level)
              then Returned(answers[k].context, answers[k].value.value.err) else ExpiredNonce
    decreases |answers|
  {
    if answers != [] {
      if answers[0].Status? && answers[0].context < slot {
        SecondLookIsDecisive(c, slot, answers[1..]);
        forall k | Decisive(slot, answers, k) ensures Decisive(slot, answers[1..], k - 1) {}
        forall k | Decisive(slot, answers[1..], k) ensures Decisive(slot, answers, k + 1) {}
      } else {
        assert Decisive(slot, answers, 0);
        if answers[0].Status? && answers[0].value.Some? { SecondLookIsExact(c, answers[0].value.value.level); }
      }
    }
  }

  /** After a nonce change, success is only returned from a status that is at or past the read that
      saw the change and whose level meets the commitment; and expiry only after such a read. */
  lemma NonceVerdicts(c: Option<Commitment>, nonceValue: string, minContextSlot: nat, es: seq<Event>, answers: seq<Answer>)
    ensures var race := NonceRace(c, nonceValue, Watch(Some(nonceValue), None), es);
      race.NonceInvalid? ==>
        exists i :: ChangeShown(c, nonceValue, es, i) && race.slot == Some(es[i].slot) &&
          match SecondLook(c, es[i].slot, answers)
          case Returned(context, err) =>
            exists k :: Decisive(es[i].slot, answers, k) && answers[k].Status? && answers[k].context == context >= es[i].slot
                        && answers[k].value.Some? && answers[k].value.value.err == err
                        && Meets(c, answers[k].value.value.level)
          case ExpiredNonce =>
            exists k :: Decisive(es[i].slot, answers, k)
                        && !answers[k].Unreachable?
                        && (answers[k].Nothing? || answers[k].value.None? || !Meets(c, answers[k].value.value.level))
          case LookFailed => exists k :: Decisive(es[i].slot, answers, k) && answers[k].Unreachable?
          case StillWaiting => forall k :: !Decisive(es[i].slot, answers, k)
          case Other(_) => false
  {
    var race := NonceRace(c, nonceValue, Watch(Some(nonceValue), None), es);
    InvalidIsShown(c, nonceValue, Watch(Some(nonceValue), None), es);
    if race.NonceInvalid? {
      var i :| ChangeShown(c, nonceValue, es, i);
      SecondLookIsDecisive(c, es[i].slot, answers);
      if SecondLook(c, es[i].slot, answers) != StillWaiting {
        var k :| Decisive(es[i].slot, answers, k);
      }
    }
  }

  // ----- what the races return

  /** A level the status check lets pass: any, if no commitment is given or no level reported. */
  predicate Enough(c: Option<Commitment>, level: Option<Level>) {
    c.None? || level.None? || Rank(level.value) >= Needed(c.value)
  }

  predicate Succeeds(c: Option<Commitment>, e: Event, context: nat, err: Option<nat>) {
    || e == Notified(context, err)
    || (&& e.StatusRead? && e.context == context && e.value.Some? && e.value.value.err == None
        && Enough(c, e.value.value.level) && err == None)
  }

  predicate Rejects(e: Event, reason: nat) {
    e.StatusRead? && e.value.Some? && e.value.value.err == Some(reason)
  }

  /** The events that decide about the transaction itself, or abort. */
  predicate Decision(c: Option<Commitment>, e: Event) {
    || e.Notified? || e.Aborted?
    || (e.StatusRead? && e.value.Some? && (e.value.value.err.Some? || Enough(c, e.value.value.level)))
  }

  predicate TooHigh(lastValid: int, e: Event) {
    (e.HeightRead? && e.height > lastValid) || (e.ReadFailed? && -1 > lastValid)
  }

  predicate Changed(expected: string, e: Event) {
    e.NonceRead? && e.nonce != Some(expected)
  }

  lemma StatusCheckIsEnough(c: Option<Commitment>, level: Option<Level>)
    ensures StatusCheckPasses(c, level) <==> Enough(c, level)
  {
    match level
    case None =>
    case Some(LevelProcessed) =>
    case Some(LevelConfirmed) =>
    case Some(LevelFinalized) =>
  }

  lemma SettlesWritten(c: Option<Commitment>, e: Event, context: nat, err: Option<nat>, reason: nat)
    ensures Settles(c, e) == Success(context, err) <==> Succeeds(c, e, context, err)
    ensures Settles(c, e) == Rejected(reason) <==> Rejects(e, reason)
    ensures Settles(c, e) == Cancelled <==> e.Aborted?
    ensures Settles(c, e) == Undecided <==> !Decision(c, e)
    ensures Settles(c, e) != HeightExceeded && !Settles(c, e).NonceInvalid?
  {
    if e.StatusRead? && e.value.Some? { StatusCheckIsEnough(c, e.value.value.level); }
  }

  /** Event `i` is the first that decides the block height race. */
  ghost predicate FirstByHeight(c: Option<Commitment>, lastValid: int, es: seq<Event>, i: nat) {
    && i < |es| && (Decision(c, es[i]) || TooHigh(lastValid, es[i]))
    && forall j :: 0 <= j < i ==> !Decision(c, es[j]) && !TooHigh(lastValid, es[j])
  }

  /** The block height race returns what its first deciding event says: the notified result, the status
      that is good enough, the error of a status, the abort, or the exceeded height. */
  lemma {:induction false} HeightRaceIff(
    c: Option<Commitment>, lastValid: int, es: seq<Event>, context: nat, err: Option<nat>, reason: nat)
    ensures HeightRace(c, lastValid, es) == Success(context, err) <==>
            exists i: nat :: FirstByHeight(c, lastValid, es, i) && Succeeds(c, es[i], context, err)
    ensures HeightRace(c, lastValid, es) == Rejected(reason) <==>
            exists i: nat :: FirstByHeight(c, lastValid, es, i) && Rejects(es[i], reason)
    ensures HeightRace(c, lastValid, es) == Cancelled <==>
            exists i: nat :: FirstByHeight(c, lastValid, es, i) && es[i].Aborted?
    ensures HeightRace(c, lastValid, es) == HeightExceeded <==>
            exists i: nat :: FirstByHeight(c, lastValid, es, i) && TooHigh(lastValid, es[i])
    ensures HeightRace(c, lastValid, es) == Undecided <==> forall i: nat :: !FirstByHeight(c, lastValid, es, i)
    decreases |es|
  {
    if es != [] {
      SettlesWritten(c, es[0], context, err, reason);
      if Decision(c, es[0]) || TooHigh(lastValid, es[0]) {
        assert FirstByHeight(c, lastValid, es, 0);
        assert forall i: nat :: FirstByHeight(c, lastValid, es, i) ==> i == 0;
      } else {
        var rest := es[1..];
        HeightRaceIff(c, lastValid, rest, context, err, reason);
        forall i: nat | FirstByHeight(c, lastValid, rest, i) ensures FirstByHeight(c, lastValid, es, i + 1) && es[i + 1] == rest[i] {}
        forall i: nat | FirstByHeight(c, lastValid, es, i) ensures i > 0 && FirstByHeight(c, lastValid, rest, i - 1) && es[i] == rest[i - 1] {}
      }
    }
  }

  /** Event `i` is the first that decides the nonce race. */
  ghost predicate FirstByNonce(c: Option<Commitment>, expected: string, es: seq<Event>, i: nat) {
    && i < |es| && (Decision(c, es[i]) || Changed(expected, es[i]))
    && forall j :: 0 <= j < i ==> !Decision(c, es[j]) && !Changed(expected, es[j])
  }

  /** The nonce race returns what its first deciding event says, too. */
  lemma {:induction false} NonceRaceIff(
    c: Option<Commitment>, expected: string, w: Watch, es: seq<Event>, context: nat, err: Option<nat>, reason: nat)
    requires w.nonce == Some(expected)
    ensures NonceRace(c, expected, w, es) == Success(context, err) <==>
            exists i: nat :: FirstByNonce(c, expected, es, i) && Succeeds(c, es[i], context, err)
    ensures NonceRace(c, expected, w, es) == Rejected(reason) <==>
            exists i: nat :: FirstByNonce(c, expected, es, i) && Rejects(es[i], reason)
    ensures NonceRace(c, expected, w, es) == Cancelled <==>
            exists i: nat :: FirstByNonce(c, expected, es, i) && es[i].Aborted?
    ensures NonceRace(c, expected, w, es).NonceInvalid? <==>
            exists i: nat :: FirstByNonce(c, expected, es, i) && Changed(expected, es[i])
    ensures NonceRace(c, expected, w, es) == Undecided <==> forall i: nat :: !FirstByNonce(c, expected, es, i)
    decreases |es|
  {
    if es != [] {
      SettlesWritten(c, es[0], context, err, reason);
      if Decision(c, es[0]) || Changed(expected, es[0]) {
        assert FirstByNonce(c, expected, es, 0);
        assert forall i: nat :: FirstByNonce(c, expected, es, i) ==> i == 0;
      } else {
        var rest := es[1..];
        NonceRaceIff(c, expected, Observe(w, es[0]), rest, context, err, reason);
        forall i: nat | FirstByNonce(c, expected, rest, i) ensures FirstByNonce(c, expected, es, i + 1) && es[i + 1] == rest[i] {}
        forall i: nat | FirstByNonce(c, expected, es, i) ensures i > 0 && FirstByNonce(c, expected, rest, i - 1) && es[i] == rest[i - 1] {}
      }
    }
  }
}
