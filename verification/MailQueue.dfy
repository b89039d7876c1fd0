/** The outgoing mail queue (src/utils/mailer.c): one sender at a time, which may
    stop between any two of its steps, and a queue that outlives it. */
module MailQueue {
  import opened Options

  type Id = nat

  datatype Status = Queued | Sending | Sent | Failed

  datatype Mail = Mail(status: Status, attempts: nat, next: int)

  const RETRY_MINUTES: seq<int> := [1, 5, 15, 60]
  const MAX_ATTEMPTS: nat := |RETRY_MINUTES| + 1

  /** The wait in ms after failed attempt number n. */
  function Delay(n: nat): int
    requires 1 <= n < MAX_ATTEMPTS
  {
    RETRY_MINUTES[n - 1] * 60 * 1000
  }

  /** Where the sender stands: stopped, between messages, holding a claimed
      message, or with the mail server's answer for it. */
  datatype Sender = Stopped | Resting | Claimed(id: Id, attempts: nat) | Answered(id: Id, attempts: nat, ok: bool)

  datatype Failure = Failure(at: int, attempts: nat)

  /** The stored messages and the sender; then what has happened: how often each
      message went to the mail server and was found interrupted, the failures not
      yet tried again, and how often the server has started. */
  datatype State = State(
    mails: map<Id, Mail>, sender: Sender,
    handed: map<Id, nat>, interrupted: map<Id, nat>, waiting: map<Id, Failure>, starts: nat)

  const EMPTY := State(map[], Stopped, map[], map[], map[], 0)

  datatype Action =
    | Enqueue(id: Id, now: int)
    | Claim(id: Id, now: int)
    | HandOver(ok: bool)
    | Finish(later: int, stored: bool)
    | Crash
    | Start

  /** What the find_and_modify takes: a queued message that is due, the longest due first. */
  predicate Next(mails: map<Id, Mail>, id: Id, now: int) {
    && Due(mails, id, now)
    && forall k | k in mails :: Due(mails, k, now) ==> mails[id].next <= mails[k].next
  }

  predicate Due(mails: map<Id, Mail>, id: Id, now: int) {
    id in mails && mails[id].status == Queued && mails[id].next <= now
  }

  /** How a message leaves an attempt. */
  function Outcome(m: Mail, attempts: nat, ok: bool, later: int): Mail
    requires attempts >= 1
  {
    if ok then m.(status := Sent)
    else if attempts >= MAX_ATTEMPTS then m.(status := Failed)
    else m.(status := Queued, next := later + Delay(attempts))
  }

  function Requeued(mails: map<Id, Mail>): (r: map<Id, Mail>)
    ensures r.Keys == mails.Keys
  {
    map id | id in mails :: if mails[id].status == Sending then mails[id].(status := Queued) else mails[id]
  }

  function Get(m: map<Id, nat>, id: Id): nat { if id in m then m[id] else 0 }

  function Finished(s: State, later: int, stored: bool): State
    requires s.sender.Answered? && s.sender.attempts >= 1
  {
    var w := s.sender;
    if !stored || w.id !in s.mails then s.(sender := Resting)
    else
      s.(mails := s.mails[w.id := Outcome(s.mails[w.id], w.attempts, w.ok, later)], sender := Resting,
         waiting := if !w.ok && w.attempts < MAX_ATTEMPTS then s.waiting[w.id := Failure(later, w.attempts)] else s.waiting)
  }

  function Started(s: State): State {
    s.(mails := Requeued(s.mails), sender := Resting, starts := s.starts + 1,
       interrupted := map id | id in s.mails :: Get(s.interrupted, id) + if s.mails[id].status == Sending then 1 else 0)
  }

  /** One step; a step that is not possible changes nothing. */
  function Do(s: State, a: Action): State {
    match a
    case Enqueue(id, now) =>
      if id in s.mails then s else s.(mails := s.mails[id := Mail(Queued, 0, now)])
    case Claim(id, now) =>
      if s.sender.Resting? && Next(s.mails, id, now) then
        var m := s.mails[id].(status := Sending, attempts := s.mails[id].attempts + 1);
        s.(mails := s.mails[id := m], sender := Claimed(id, m.attempts), waiting := s.waiting - {id})
      else s
    case HandOver(ok) =>
      if s.sender.Claimed? then
        s.(sender := Answered(s.sender.id, s.sender.attempts, ok),
           handed := s.handed[s.sender.id := Get(s.handed, s.sender.id) + 1])
      else s
    case Finish(later, stored) =>
      if s.sender.Answered? && s.sender.attempts >= 1 then Finished(s, later, stored) else s
    case Crash => s.(sender := Stopped)
    case Start => if s.sender.Stopped? then Started(s) else s
  }

  function Run(s: State, actions: seq<Action>): State
    decreases |actions|
  {
    if actions == [] then s else Run(Do(s, actions[0]), actions[1..])
  }

  // ---- Invariants -----------------------------------------------------------------------------

  function Restarts(s: State): nat { if s.starts == 0 then 0 else s.starts - 1 }

  ghost predicate Holds(w: Sender, id: Id) { (w.Claimed? || w.Answered?) && w.id == id }

  /** Interruptions never exceed the restarts, attempts the five plus the
      interruptions, and hand-overs the attempts. */
  ghost predicate MailOk(s: State, id: Id) {
    id in s.mails &&
    var m := s.mails[id];
    && Get(s.interrupted, id) <= Restarts(s)
    && m.attempts <= MAX_ATTEMPTS + Get(s.interrupted, id)
    && (m.status == Queued ==> m.attempts < MAX_ATTEMPTS + Get(s.interrupted, id))
    && Get(s.handed, id) + (if Holds(s.sender, id) && s.sender.Claimed? then 1 else 0) <= m.attempts
    && (m.status == Sending ==> s.starts > 0)
  }

  ghost predicate WaitingOk(s: State, id: Id, f: Failure) {
    && 1 <= f.attempts < MAX_ATTEMPTS
    && id in s.mails && s.mails[id].status == Queued && s.mails[id].attempts == f.attempts
    && s.mails[id].next == f.at + Delay(f.attempts)
  }

  ghost predicate Inv(s: State) {
    && (forall id | id in s.mails :: MailOk(s, id))
    && (forall id | id in s.handed || id in s.interrupted :: id in s.mails)
    && (forall id | id in s.waiting :: WaitingOk(s, id, s.waiting[id]))
    && ((s.sender.Claimed? || s.sender.Answered?) ==>
          s.sender.id in s.mails && s.mails[s.sender.id].status == Sending
          && s.mails[s.sender.id].attempts == s.sender.attempts && s.sender.attempts >= 1)
    && (!s.sender.Stopped? ==> s.starts > 0)
  }

  lemma DoKeeps(s: State, a: Action)
    requires Inv(s)
    ensures Inv(Do(s, a))
  {
    match a
    case Enqueue(id, now) => EnqueueKeeps(s, id, now);
    case Claim(id, now) => ClaimKeeps(s, id, now);
    case HandOver(ok) => HandOverKeeps(s, ok);
    case Finish(later, stored) => FinishKeeps(s, later, stored);
    case Crash => CrashKeeps(s);
    case Start => StartKeeps(s);
  }

  lemma EnqueueKeeps(s: State, id: Id, now: int)
    requires Inv(s)
    ensures Inv(Do(s, Enqueue(id, now)))
  {
    hide Delay;
    var s' := Do(s, Enqueue(id, now));
    forall k | k in s'.mails
      ensures MailOk(s', k)
    {
      if k in s.mails { assert MailOk(s, k); }
    }
    forall k | k in s.waiting
      ensures WaitingOk(s', k, s.waiting[k])
    {
      assert WaitingOk(s, k, s.waiting[k]);
    }
  }

  lemma ClaimKeeps(s: State, id: Id, now: int)
    requires Inv(s)
    ensures Inv(Do(s, Claim(id, now)))
  {
    hide Delay;
    var s' := Do(s, Claim(id, now));
    forall k | k in s'.mails
      ensures MailOk(s', k)
    {
      assert MailOk(s, k);
    }
    forall k | k in s'.waiting
      ensures WaitingOk(s', k, s'.waiting[k])
    {
      assert WaitingOk(s, k, s.waiting[k]);
    }
  }

  lemma HandOverKeeps(s: State, ok: bool)
    requires Inv(s)
    ensures Inv(Do(s, HandOver(ok)))
  {
    hide Delay;
    var s' := Do(s, HandOver(ok));
    forall k | k in s'.mails
      ensures MailOk(s', k)
    {
      assert MailOk(s, k);
    }
    forall k | k in s'.waiting
      ensures WaitingOk(s', k, s'.waiting[k])
    {
      assert WaitingOk(s, k, s.waiting[k]);
    }
  }

  lemma FinishKeeps(s: State, later: int, stored: bool)
    requires Inv(s)
    ensures Inv(Do(s, Finish(later, stored)))
  {
    hide Delay;
    var s' := Do(s, Finish(later, stored));
    forall k | k in s'.mails
      ensures MailOk(s', k)
    {
      assert MailOk(s, k);
    }
    forall k | k in s'.waiting
      ensures WaitingOk(s', k, s'.waiting[k])
    {
      if k in s.waiting { assert WaitingOk(s, k, s.waiting[k]); }
    }
  }

  lemma CrashKeeps(s: State)
    requires Inv(s)
    ensures Inv(Do(s, Crash))
  {
    hide Delay;
    var s' := Do(s, Crash);
    forall k | k in s'.mails
      ensures MailOk(s', k)
    {
      assert MailOk(s, k);
    }
    forall k | k in s'.waiting
      ensures WaitingOk(s', k, s'.waiting[k])
    {
      assert WaitingOk(s, k, s.waiting[k]);
    }
  }

  lemma StartKeeps(s: State)
    requires Inv(s)
    ensures Inv(Do(s, Start))
  {
    hide Delay;
    var s' := Do(s, Start);
    if s.sender.Stopped? {
      forall k | k in s'.mails
        ensures MailOk(s', k)
      {
        assert MailOk(s, k);
      }
      forall k | k in s'.waiting
        ensures WaitingOk(s', k, s'.waiting[k])
      {
        assert WaitingOk(s, k, s.waiting[k]);
      }
    }
  }

  lemma {:induction false} RunKeeps(s: State, actions: seq<Action>)
    requires Inv(s)
    ensures Inv(Run(s, actions))
    decreases |actions|
  {
    hide Inv, Do;
    if actions != [] {
      DoKeeps(s, actions[0]);
      RunKeeps(Do(s, actions[0]), actions[1..]);
    }
  }

  // ---- Safety over every run ---------------------------------------------------------------------

  /** However often the server stops and starts: a message is handed over at most
      five times plus once for each time it was found interrupted, which is at most
      the number of restarts. */
  lemma HandedAtMost(actions: seq<Action>, id: Id)
    ensures var s := Run(EMPTY, actions);
            && Get(s.handed, id) <= MAX_ATTEMPTS + Get(s.interrupted, id)
            && Get(s.interrupted, id) <= Restarts(s)
            && MAX_ATTEMPTS == 5
  {
    hide Run, Do;
    var s := Run(EMPTY, actions);
    RunKeeps(EMPTY, actions);
    if id in s.mails { assert MailOk(s, id); }
  }

  /** Sent and failed messages are never touched again. */
  lemma FinalStep(s: State, a: Action, id: Id)
    requires Inv(s) && id in s.mails && s.mails[id].status in {Sent, Failed}
    ensures id in Do(s, a).mails && Do(s, a).mails[id] == s.mails[id]
  {
    hide MailOk, WaitingOk, Delay;
  }

  lemma {:induction false} FinalForGood(s: State, actions: seq<Action>, id: Id)
    requires Inv(s) && id in s.mails && s.mails[id].status in {Sent, Failed}
    ensures id in Run(s, actions).mails && Run(s, actions).mails[id] == s.mails[id]
    decreases |actions|
  {
    hide Inv, Do;
    if actions != [] {
      FinalStep(s, actions[0], id);
      DoKeeps(s, actions[0]);
      FinalForGood(Do(s, actions[0]), actions[1..], id);
    }
  }

  /** A queued message stays as it is until it is claimed, and it is claimed only
      once it is due. */
  lemma {:induction false} WaitsUntilDue(s: State, actions: seq<Action>, id: Id)
    requires Inv(s) && id in s.mails && s.mails[id].status == Queued
    ensures (id in Run(s, actions).mails && Run(s, actions).mails[id] == s.mails[id])
            || exists a :: a in actions && a.Claim? && a.id == id && a.now >= s.mails[id].next
    decreases |actions|
  {
    hide Inv, Do;
    if actions != [] {
      var s' := Do(s, actions[0]);
      QueuedStep(s, actions[0], id);
      DoKeeps(s, actions[0]);
      if id in s'.mails && s'.mails[id] == s.mails[id] {
        WaitsUntilDue(s', actions[1..], id);
      } else {
        assert actions[0] in actions;
      }
    }
  }

  lemma QueuedStep(s: State, a: Action, id: Id)
    requires Inv(s) && id in s.mails && s.mails[id].status == Queued
    ensures (id in Do(s, a).mails && Do(s, a).mails[id] == s.mails[id])
            || (a.Claim? && a.id == id && a.now >= s.mails[id].next)
  {
    hide MailOk, WaitingOk, Delay;
  }

  /** In every reachable state a claim of a message that failed before comes at
      least the table's delay after that failure; the table is indexed in range. */
  lemma NeverTooEarly(actions: seq<Action>, id: Id, now: int)
    ensures var s := Run(EMPTY, actions);
            id in s.waiting && Do(s, Claim(id, now)) != s ==>
              1 <= s.waiting[id].attempts < MAX_ATTEMPTS && now >= s.waiting[id].at + Delay(s.waiting[id].attempts)
  {
    hide Run, Delay;
    var s := Run(EMPTY, actions);
    RunKeeps(EMPTY, actions);
    if id in s.waiting { assert WaitingOk(s, id, s.waiting[id]); }
  }

  // ---- The code -------------------------------------------------------------------------------------

  /** Among some messages one is due the longest. */
  lemma {:induction false} EarliestAmong(mails: map<Id, Mail>, ids: set<Id>) returns (first: Id)
    requires ids != {} && forall k | k in ids :: k in mails
    ensures first in ids && forall k | k in ids :: mails[first].next <= mails[k].next
    decreases |ids|
  {
    first :| first in ids;
    var rest := ids - {first};
    if rest != {} {
      var other := EarliestAmong(mails, rest);
      assert ids == rest + {first};
      if mails[other].next < mails[first].next { first := other; }
    } else {
      assert ids == {first};
    }
  }

  lemma NextExists(mails: map<Id, Mail>, now: int, id: Id)
    requires Due(mails, id, now)
    ensures exists k :: k in mails && Next(mails, k, now)
  {
    var ids := set k | k in mails && Due(mails, k, now);
    assert id in ids;
    var first := EarliestAmong(mails, ids);
    assert Next(mails, first, now);
  }

  class Mailer {
    var mails: map<Id, Mail>
    ghost var past: State

    ghost function View(): State
      reads this
    {
      past.(mails := mails)
    }

    constructor ()
      ensures View() == EMPTY
    {
      mails, past := map[], EMPTY;
    }

    /** mailer_enqueue, once the message has passed its checks; ids are new. */
    method Add(id: Id, now: int)
      requires id !in mails
      modifies this`mails
      ensures View() == Do(old(View()), Enqueue(id, now))
    {
      mails := mails[id := Mail(Queued, 0, now)];
    }

    /** The find_and_modify of send_next. */
    method ClaimNext(now: int) returns (r: Option<Id>)
      requires View().sender.Resting?
      modifies this
      ensures r.Some? <==> exists k :: k in old(mails) && Due(old(mails), k, now)
      ensures r.None? ==> View() == old(View())
      ensures r.Some? ==> View() == Do(old(View()), Claim(r.value, now)) && r.value in mails
                          && View().sender == Claimed(r.value, mails[r.value].attempts) && mails[r.value].attempts >= 1
    {
      if k :| k in mails && Due(mails, k, now) {
        NextExists(mails, now, k);
        var id :| id in mails && Next(mails, id, now);
        r := Some(id);
        mails := mails[id := mails[id].(status := Sending, attempts := mails[id].attempts + 1)];
        past := past.(sender := Claimed(id, mails[id].attempts), waiting := past.waiting - {id});
      } else {
        r := None;
      }
    }

    /** send_next with the mail server's answer, the time after it and whether the
        last update was stored: one claim, one hand-over, one outcome. */
    method SendNext(now: int, ok: bool, later: int, stored: bool) returns (handled: bool, ghost id: Id)
      requires View().sender.Resting?
      modifies this
      ensures handled <==> exists k :: k in old(mails) && Due(old(mails), k, now)
      ensures View() == if handled then Run(old(View()), [Claim(id, now), HandOver(ok), Finish(later, stored)]) else old(View())
      ensures View().sender.Resting?
    {
      hide Run, Delay;
      ghost var s := View();
      var r := ClaimNext(now);
      handled, id := r.Some?, 0;
      if !handled { return; }
      id := r.value;
      ghost var s1 := View();
      var attempts := mails[r.value].attempts;
      past := Do(past, HandOver(ok));
      ghost var s2 := View();
      assert s2 == Do(s1, HandOver(ok));
      if stored { mails := mails[r.value := Outcome(mails[r.value], attempts, ok, later)]; }
      past := Do(s2, Finish(later, stored));
      RunThree(s, Claim(id, now), HandOver(ok), Finish(later, stored));
    }

    /** requeue_interrupted, as the sender starts. */
    method RequeueInterrupted()
      requires View().sender.Stopped?
      modifies this
      ensures View() == Do(old(View()), Start)
    {
      past := Do(View(), Start);
      mails := Requeued(mails);
    }
  }

  lemma RunThree(s: State, a: Action, b: Action, c: Action)
    ensures Run(s, [a, b, c]) == Do(Do(Do(s, a), b), c)
  {
    hide Do;
    assert [a, b, c][1..] == [b, c] && [b, c][1..] == [c] && [c][1..] == [];
    assert Run(Do(Do(s, a), b), [c]) == Do(Do(Do(s, a), b), c);
  }
}
