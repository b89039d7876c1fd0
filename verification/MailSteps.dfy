/** What every step of the mail queue does to a message, field by field, and when a
    message counts as sent or failed (src/utils/mailer.c). */
module MailSteps {
  import opened MailQueue

  /** Minutes of patience after the first to the fourth failed attempt. */
  function Wait(attempts: nat): int {
    (match attempts case 1 => 1 case 2 => 5 case 3 => 15 case _ => 60) * 60000
  }

  predicate Arrives(s: State, a: Action, id: Id) { a.Enqueue? && a.id == id && id !in s.mails }

  /** The sender takes the message: it is due, and no other has been due longer. */
  predicate Claims(s: State, a: Action, id: Id) {
    && a.Claim? && a.id == id && s.sender.Resting?
    && id in s.mails && s.mails[id].status == Queued && s.mails[id].next <= a.now
    && forall k | k in s.mails && s.mails[k].status == Queued :: s.mails[id].next <= s.mails[k].next
  }

  /** The mail server's answer for the message is stored. */
  predicate Records(s: State, a: Action, id: Id, ok: bool) {
    && a.Finish? && a.stored && s.sender.Answered? && s.sender.attempts >= 1
    && s.sender.id == id && s.sender.ok == ok && id in s.mails
  }

  predicate NextMail(s: State, a: Action, id: Id, was: Mail, m: Mail) {
    var failed := Records(s, a, id, false);
    var last := failed && s.sender.attempts >= 5;
    && m.attempts == (if Claims(s, a, id) then was.attempts + 1 else was.attempts)
    && m.status == (if Claims(s, a, id) then Sending
                    else if Records(s, a, id, true) then Sent
                    else if last then Failed
                    else if failed then Queued
                    else if a.Start? && s.sender.Stopped? && was.status == Sending then Queued
                    else was.status)
    && m.next == if failed && !last then a.later + Wait(s.sender.attempts) else was.next
  }

  /** Every step, on every message: none is ever lost, and each field is what the step makes it. */
  lemma MailStep(s: State, a: Action, id: Id)
    ensures id in Do(s, a).mails <==> id in s.mails || Arrives(s, a, id)
    ensures id in s.mails ==> id in Do(s, a).mails && NextMail(s, a, id, s.mails[id], Do(s, a).mails[id])
    ensures Arrives(s, a, id) ==> id in Do(s, a).mails && Do(s, a).mails[id] == Mail(Queued, 0, a.now)
  {
    hide NextMail;
    if id in s.mails {
      match a
      case Claim(k, now) => ClaimStep(s, a, id);
      case Finish(later, stored) => FinishStep(s, a, id);
      case _ => OtherStep(s, a, id);
    }
  }

  lemma ClaimStep(s: State, a: Action, id: Id)
    requires a.Claim? && id in s.mails
    ensures id in Do(s, a).mails && NextMail(s, a, id, s.mails[id], Do(s, a).mails[id])
  {
    NextIs(s.mails, a.id, a.now);
  }

  lemma NextIs(mails: map<Id, Mail>, id: Id, now: int)
    ensures Next(mails, id, now) <==>
            (&& id in mails && mails[id].status == Queued && mails[id].next <= now
             && forall k | k in mails && mails[k].status == Queued :: mails[id].next <= mails[k].next)
  {
    if Next(mails, id, now) {
      forall k | k in mails && mails[k].status == Queued ensures mails[id].next <= mails[k].next {
        if mails[k].next <= now { assert Due(mails, k, now); }
      }
    }
  }

  lemma FinishStep(s: State, a: Action, id: Id)
    requires a.Finish? && id in s.mails
    ensures id in Do(s, a).mails && NextMail(s, a, id, s.mails[id], Do(s, a).mails[id])
  {
    if Records(s, a, id, false) && s.sender.attempts < 5 { DelayIs(s.sender.attempts); }
  }

  lemma DelayIs(n: nat)
    requires 1 <= n < 5
    ensures n < MAX_ATTEMPTS && Delay(n) == Wait(n)
  {}

  lemma OtherStep(s: State, a: Action, id: Id)
    requires !a.Claim? && !a.Finish? && id in s.mails
    ensures id in Do(s, a).mails && NextMail(s, a, id, s.mails[id], Do(s, a).mails[id])
  {}

  // ---- Sent and failed --------------------------------------------------------------------------

  /** Some step of the run stored this answer of the mail server; a refusal counts when
      it was at least the fifth attempt. */
  ghost predicate Recorded(actions: seq<Action>, id: Id, ok: bool) {
    exists i: nat :: RecordedAt(actions, i, id, ok)
  }

  ghost predicate RecordedAt(actions: seq<Action>, i: nat, id: Id, ok: bool) {
    i < |actions| &&
    var s := Run(EMPTY, actions[..i]);
    Records(s, actions[i], id, ok) && (!ok ==> s.sender.attempts >= 5)
  }

  /** After every run a message is sent exactly when an acceptance of it was stored, and
      failed exactly when the refusal of a last attempt was. */
  lemma {:induction false} FateExactly(actions: seq<Action>, id: Id)
    ensures var s := Run(EMPTY, actions);
            && (id in s.mails && s.mails[id].status == Sent <==> Recorded(actions, id, true))
            && (id in s.mails && s.mails[id].status == Failed <==> Recorded(actions, id, false))
    decreases |actions|
  {
    hide Do, Run, Recorded, RecordedAt, Inv;
    if actions == [] {
      NothingRecorded(actions, id);
    } else {
      var n := |actions| - 1;
      var before, a := actions[..n], actions[n];
      assert actions == before + [a];
      RunSnoc(EMPTY, before, a);
      FateExactly(before, id);
      var s := Run(EMPTY, before);
      EmptyInv();
      RunKeeps(EMPTY, before);
      FateStep(s, a, id);
      RecordedSnoc(before, a, id, true);
      RecordedSnoc(before, a, id, false);
    }
  }

  lemma NothingRecorded(actions: seq<Action>, id: Id)
    requires actions == []
    ensures !Recorded(actions, id, true) && !Recorded(actions, id, false) && Run(EMPTY, actions) == EMPTY
  {}

  lemma RecordedSnoc(before: seq<Action>, a: Action, id: Id, ok: bool)
    ensures var s := Run(EMPTY, before);
            Recorded(before + [a], id, ok) <==>
            Recorded(before, id, ok) || (Records(s, a, id, ok) && (!ok ==> s.sender.attempts >= 5))
  {
    hide Run;
    var actions, n := before + [a], |before|;
    assert before[..n] == before && actions[..n] == before;
    forall i: nat | i < n ensures RecordedAt(actions, i, id, ok) == RecordedAt(before, i, id, ok) {
      assert actions[..i] == before[..i];
    }
    assert RecordedAt(actions, n, id, ok) <==> Records(Run(EMPTY, before), a, id, ok) && (!ok ==> Run(EMPTY, before).sender.attempts >= 5);
    if i: nat :| RecordedAt(before, i, id, ok) { assert RecordedAt(actions, i, id, ok); }
  }

  lemma FateStep(s: State, a: Action, id: Id)
    requires Inv(s)
    ensures var next := Do(s, a);
            && (id in next.mails && next.mails[id].status == Sent <==>
                (id in s.mails && s.mails[id].status == Sent) || Records(s, a, id, true))
            && (id in next.mails && next.mails[id].status == Failed <==>
                (id in s.mails && s.mails[id].status == Failed) || (Records(s, a, id, false) && s.sender.attempts >= 5))
  {
    hide Do, Inv;
    MailStep(s, a, id);
    if id in s.mails && s.mails[id].status in {Sent, Failed} {
      FinalStep(s, a, id);
      NotHeld(s, a, id);
    }
  }

  lemma EmptyInv()
    ensures Inv(EMPTY)
  {}

  /** The message with the sender is being sent, so no answer comes for one that is done. */
  lemma NotHeld(s: State, a: Action, id: Id)
    requires Inv(s) && id in s.mails && s.mails[id].status in {Sent, Failed}
    ensures !Records(s, a, id, true) && !Records(s, a, id, false)
  {
    hide MailOk, WaitingOk;
  }

  lemma {:induction false} RunSnoc(s: State, actions: seq<Action>, a: Action)
    ensures Run(s, actions + [a]) == Do(Run(s, actions), a)
    decreases |actions|
  {
    hide Do;
    if actions == [] {
      assert actions + [a] == [a] && [a][1..] == [];
      assert Run(Do(s, a), []) == Do(s, a);
    } else {
      assert (actions + [a])[1..] == actions[1..] + [a];
      RunSnoc(Do(s, actions[0]), actions[1..], a);
    }
  }
}
