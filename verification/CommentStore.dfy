/** The operations of src/db/cms_comments.c as the server runs them: every database
    call is one step of the comment protocol. */
module CommentStore {
  import opened Options
  import opened Comments

  // ---- Finding the author -----------------------------------------------------------------

  datatype Write = Written | Duplicate | Broken

  /** What one pass of commenter_for meets: the user with the address, whether the
      name is another's, whether that user is a commenter, whose name is written
      again, and how the write ends. */
  datatype Attempt = Attempt(found: Option<Id>, taken: bool, commenter: bool, write: Write)

  datatype Pass = Found(user: Id) | Made | Taken | Wrong | Again

  function OnePass(a: Attempt): Pass {
    if a.taken then Taken
    else if a.found.Some? then
      if !a.commenter then Found(a.found.value)
      else match a.write case Written => Found(a.found.value) case Duplicate => Taken case Broken => Again
    else match a.write case Written => Made case Duplicate => Again case Broken => Wrong
  }

  function BothPasses(first: Attempt, second: Attempt): (r: Pass)
    ensures r != Again
  {
    var p := OnePass(first);
    if p != Again then p else if OnePass(second) == Again then Wrong else OnePass(second)
  }

  /** The user whose document the passes looked at last. */
  function LastSeen(first: Attempt, second: Attempt): (r: Option<Id>)
    ensures r == first.found || r == second.found
  {
    if OnePass(first) == Again && second.found.Some? then second.found else first.found
  }

  lemma FoundIsSeen(first: Attempt, second: Attempt)
    ensures BothPasses(first, second).Found? ==> LastSeen(first, second) == Some(BothPasses(first, second).user)
  {}

  lemma FindIs(s: State, t: nat, u: Id, remembered: Option<Id>)
    requires Idle(s, t) && u in s.users
    ensures Do(s, FindCommenter(t, u, remembered)) ==
            if s.users[u].blocked then s else Moved(s, t, SubmitFound(u, s.users[u].verified.Some? && remembered == Some(u)))
  {
    hide DoVerify, DoReply, DoRenew, DoOther;
  }

  lemma MadeIs(s: State, t: nat, u: Id)
    requires Idle(s, t) && u !in s.known
    ensures Do(s, NewCommenter(t, u)) ==
            Moved(s.(users := s.users[u := User(None, false)], known := s.known + {u}), t, SubmitFound(u, false))
  {
    hide DoVerify, DoReply, DoRenew, DoOther;
  }

  /** The steps of a submit. */
  function SubmitSteps(t: nat, p: Pass, blocked: bool, newId: Id, remembered: Option<Id>, c: Id, h: Hash, now: int): seq<Action> {
    if p.Found? then [FindCommenter(t, p.user, remembered), InsertComment(t, c, now), InsertToken(t, h)]
    else if p.Made? && blocked then [NewCommenter(t, newId), Abandon(t)]
    else if p.Made? then [NewCommenter(t, newId), InsertComment(t, c, now), InsertToken(t, h)]
    else []
  }

  // ---- The database -----------------------------------------------------------------------

  /** The database. The operations that other threads have on their way and
      what has happened are kept beside the documents for the proofs only. */
  class Store {
    var comments: map<Id, Comment>
    var users: map<Id, User>
    var tokens: map<Hash, Token>
    ghost var past: State

    ghost function View(): State
      reads this
    {
      past.(comments := comments, users := users, tokens := tokens)
    }

    constructor ()
      ensures View() == EMPTY
    {
      comments, users, tokens := map[], map[], map[];
      past := EMPTY;
    }

    /** token_comment: the comment behind a live token. */
    method FindLiveToken(ghost t: nat, h: Hash, now: int) returns (c: Option<Id>)
      requires Idle(View(), t)
      modifies this`past
      ensures View() == Do(old(View()), FindToken(t, h, now))
      ensures c.Some? <==> h in tokens && tokens[h].expires > now
      ensures c.Some? ==> c.value == tokens[h].comment
      ensures c.None? ==> View() == old(View())
    {
      hide DoSubmit, DoReply, DoRenew, DoOther;
      if h in tokens && tokens[h].expires > now {
        c := Some(tokens[h].comment);
        past := Moved(past, t, VerifyFound(h, tokens[h].comment));
      } else {
        c := None;
      }
    }

    /** The find_and_modify of cms_comments_verify: the author when it took. */
    method TakeUnverified(ghost t: nat, c: Id, now: int) returns (author: Option<Id>)
      requires t in View().ops && View().ops[t].VerifyFound? && View().ops[t].comment == c
      modifies this`comments, this`past
      ensures View() == Do(old(View()), Confirm(t, now))
      ensures author.Some? <==> c in old(comments) && old(comments)[c].status == Unverified
      ensures author.Some? ==> author.value == old(comments)[c].commenter
    {
      hide DoSubmit, DoReply, DoRenew, DoOther;
      ghost var op := past.ops[t];
      if c in comments && comments[c].status == Unverified {
        author := Some(comments[c].commenter);
        comments := comments[c := comments[c].(status := Pending, verified := Some(now), expires := None)];
        past := Moved(past.(log := past.log + [Confirmation(op.hash, c)]), t, VerifyTaken(op.hash, c, author.value, now));
      } else {
        author := None;
        past := Moved(past, t, VerifyMissed(op.hash));
      }
    }

    method DeleteToken(ghost t: nat, h: Hash)
      requires t in View().ops && (View().ops[t].VerifyTaken? || View().ops[t].VerifyMissed?) && View().ops[t].hash == h
      modifies this`tokens, this`past
      ensures View() == Do(old(View()), SpendToken(t))
    {
      hide DoSubmit, DoReply, DoRenew, DoOther;
      ghost var op := past.ops[t];
      tokens := tokens - {h};
      past := if op.VerifyTaken? then Moved(past, t, VerifySpent(op.comment, op.user, op.now)) else Finished(past, t);
    }

    method MarkEmail(ghost t: nat, u: Id, now: int)
      requires t in View().ops && View().ops[t].VerifySpent? && View().ops[t].user == u && View().ops[t].now == now
      modifies this`users, this`past
      ensures View() == Do(old(View()), MarkVerified(t))
    {
      hide DoSubmit, DoReply, DoRenew, DoOther;
      if u in users { users := users[u := users[u].(verified := Some(now))]; }
      past := Finished(past, t);
    }

    /** cms_comments_verify, as it runs when nothing comes between its calls. */
    method Verify(ghost t: nat, h: Hash, now: int) returns (ok: bool)
      requires Idle(View(), t)
      modifies this
      ensures ok <==> old(Live(h, now)) && old(Awaits(tokens[h].comment))
      ensures View() == Run(old(View()), if ok then [FindToken(t, h, now), Confirm(t, now), SpendToken(t), MarkVerified(t)]
                                         else [FindToken(t, h, now), Confirm(t, now), SpendToken(t)])
    {
      hide Do;
      ghost var s := View();
      var c := FindLiveToken(t, h, now);
      FoundToken(s, t, h, now);
      if c.None? {
        RunThree(s, FindToken(t, h, now), Confirm(t, now), SpendToken(t));
        return false;
      }
      ghost var s1 := View();
      var author := TakeUnverified(t, c.value, now);
      TookComment(s1, t, now);
      DeleteToken(t, h);
      RunThree(s, FindToken(t, h, now), Confirm(t, now), SpendToken(t));
      if author.None? { return false; }
      ghost var s3 := View();
      SpentToken(Do(s1, Confirm(t, now)), t);
      MarkEmail(t, author.value, now);
      RunSnoc(s, [FindToken(t, h, now), Confirm(t, now), SpendToken(t)], MarkVerified(t));
      assert [FindToken(t, h, now), Confirm(t, now), SpendToken(t)] + [MarkVerified(t)]
          == [FindToken(t, h, now), Confirm(t, now), SpendToken(t), MarkVerified(t)];
      return true;
    }

    /** The passes of commenter_for: at most two, the second when the first met a
        write that failed and may go better. */
    method Passes(first: Attempt, second: Attempt) returns (p: Pass, verified: bool, blocked: bool)
      requires first.found.Some? ==> first.found.value in users
      requires second.found.Some? ==> second.found.value in users
      ensures p == BothPasses(first, second)
      ensures var seen := LastSeen(first, second);
              && verified == (seen.Some? && users[seen.value].verified.Some?)
              && blocked == (seen.Some? && users[seen.value].blocked)
    {
      p, verified, blocked := Again, false, false;
      var tries, i := [first, second], 0;
      while i < 2 && p == Again
        invariant 0 <= i <= 2
        invariant i == 0 ==> p == Again && !verified && !blocked
        invariant i == 1 ==> p == OnePass(first)
        invariant i == 1 ==> verified == (first.found.Some? && users[first.found.value].verified.Some?)
        invariant i == 1 ==> blocked == (first.found.Some? && users[first.found.value].blocked)
        invariant i == 2 ==> OnePass(first) == Again && p == OnePass(second)
        invariant i == 2 ==> var seen := LastSeen(first, second);
                             && verified == (seen.Some? && users[seen.value].verified.Some?)
                             && blocked == (seen.Some? && users[seen.value].blocked)
      {
        var a := tries[i];
        if a.found.Some? { verified, blocked := users[a.found.value].verified.Some?, users[a.found.value].blocked; }
        if a.taken {
          p := Taken;
        } else if a.found.Some? {
          p := Found(a.found.value);
          if a.commenter && a.write == Duplicate { p := Taken; }
          if a.commenter && a.write == Broken { p := Again; }
        } else {
          p := match a.write case Written => Made case Duplicate => Again case Broken => Wrong;
        }
        i := i + 1;
      }
      if p == Again { p := Wrong; }
    }

    /** commenter_for: the author found by address, or else the new one. */
    method CommenterFor(ghost t: nat, first: Attempt, second: Attempt, newId: Id, remembered: Option<Id>)
      returns (p: Pass, blocked: bool, trusted: bool)
      requires first.found.Some? ==> first.found.value in users
      requires second.found.Some? ==> second.found.value in users
      requires Idle(View(), t) && newId !in View().known && remembered != Some(newId)
      modifies this`users, this`past
      ensures p == BothPasses(first, second)
      ensures blocked == (LastSeen(first, second).Some? && old(users)[LastSeen(first, second).value].blocked)
      ensures trusted == (p.Found? && old(users)[p.user].verified.Some? && remembered == Some(p.user))
      ensures p.Taken? || p.Wrong? ==> View() == old(View())
      ensures p.Found? ==> View() == Do(old(View()), FindCommenter(t, p.user, remembered))
      ensures p.Found? && blocked ==> View() == old(View())
      ensures p.Made? ==> View() == Do(old(View()), NewCommenter(t, newId))
      ensures p.Made? || (p.Found? && !blocked) ==>
                && t in View().ops && View().ops[t] == SubmitFound(if p.Made? then newId else p.user, trusted)
                && View().owners == old(View()).owners
    {
      hide Do, OnePass, BothPasses, LastSeen;
      var verified;
      p, verified, blocked := Passes(first, second);
      FoundIsSeen(first, second);
      trusted := p.Found? && verified && remembered == Some(p.user);
      if p.Made? {
        MakeAuthor(t, newId);
      } else if p.Found? {
        NoteAuthor(t, p.user, remembered);
      }
    }

    method MakeAuthor(ghost t: nat, u: Id)
      requires Idle(View(), t) && u !in View().known
      modifies this`users, this`past
      ensures View() == Do(old(View()), NewCommenter(t, u))
      ensures t in View().ops && View().ops[t] == SubmitFound(u, false) && View().owners == old(View()).owners
    {
      hide Do;
      MadeIs(View(), t, u);
      users := users[u := User(None, false)];
      past := Moved(past.(known := past.known + {u}), t, SubmitFound(u, false));
    }

    method NoteAuthor(ghost t: nat, u: Id, ghost remembered: Option<Id>)
      requires Idle(View(), t) && u in users
      modifies this`past
      ensures View() == Do(old(View()), FindCommenter(t, u, remembered)) && View().owners == old(View()).owners
      ensures users[u].blocked ==> View() == old(View())
      ensures !users[u].blocked ==>
                t in View().ops && View().ops[t] == SubmitFound(u, users[u].verified.Some? && remembered == Some(u))
    {
      hide Do;
      FindIs(View(), t, u, remembered);
      if !users[u].blocked { past := Moved(past, t, SubmitFound(u, users[u].verified.Some? && remembered == Some(u))); }
    }

    method StoreComment(ghost t: nat, u: Id, trusted: bool, c: Id, now: int)
      requires t in View().ops && View().ops[t] == SubmitFound(u, trusted) && c !in View().owners
      modifies this`comments, this`past
      ensures View() == Do(old(View()), InsertComment(t, c, now))
      ensures !trusted ==> t in View().ops && View().ops[t] == SubmitStored(c, now + VERIFY_MS)
      ensures trusted ==> Idle(View(), t)
    {
      hide DoVerify, DoReply, DoRenew, DoOther;
      comments := comments[c := NewComment(u, trusted, now)];
      past := past.(owners := past.owners[c := u]);
      past := if trusted then Finished(past, t) else Moved(past, t, SubmitStored(c, now + VERIFY_MS));
    }

    /** The insert into comment_tokens, whose hash index is unique. */
    method StoreToken(ghost t: nat, h: Hash, c: Id, until: int) returns (ok: bool)
      requires t in View().ops
      requires View().ops[t] == SubmitStored(c, until) || View().ops[t] == RenewPurged(c, until)
      modifies this`tokens, this`past
      ensures ok ==> tokens == old(tokens)[h := Token(c, until)]
      ensures View() == Do(old(View()), if old(View()).ops[t].SubmitStored? then InsertToken(t, h) else RenewToken(t, h))
      ensures ok == (h !in old(tokens))
    {
      hide DoVerify, DoReply, DoOther;
      ok := h !in tokens;
      if ok {
        tokens := tokens[h := Token(c, until)];
        past := past.(issued := past.issued + {(h, c)});
      }
      past := Finished(past, t);
    }

    /** cms_comments_submit, when nothing comes between its calls. */
    method Submit(ghost t: nat, first: Attempt, second: Attempt, newId: Id, remembered: Option<Id>, c: Id, h: Hash, now: int)
      returns (r: SubmitResult)
      requires first.found.Some? ==> first.found.value in users
      requires second.found.Some? ==> second.found.value in users
      requires Idle(View(), t) && newId !in View().known && remembered != Some(newId) && c !in View().owners
      modifies this
      ensures var p := BothPasses(first, second);
              var seen := LastSeen(first, second);
              var blocked := seen.Some? && old(users)[seen.value].blocked;
              && View() == Run(old(View()), SubmitSteps(t, p, blocked, newId, remembered, c, h, now))
              && r == (if p.Taken? then SubmitNameTaken
                       else if p.Wrong? then SubmitError
                       else if blocked then SubmitBlocked
                       else if p.Found? && old(users)[p.user].verified.Some? && remembered == Some(p.user) then SubmitPending
                       else if h in old(tokens) then SubmitError else SubmitVerify)
    {
      hide Do, Run, BothPasses, LastSeen;
      ghost var s := View();
      var p, blocked, trusted := CommenterFor(t, first, second, newId, remembered);
      if p.Taken? || p.Wrong? {
        RunNone(s);
        return if p.Taken? then SubmitNameTaken else SubmitError;
      }
      ghost var a := if p.Found? then FindCommenter(t, p.user, remembered) else NewCommenter(t, newId);
      if blocked {
        if p.Made? {
          RunTwo(s, a, Abandon(t));
          AbandonIs(View(), t);
          past := Finished(past, t);
        } else {
          RunThree(s, a, InsertComment(t, c, now), InsertToken(t, h));
          IdleCalls(s, t, c, h, now);
        }
        return SubmitBlocked;
      }
      RunThree(s, a, InsertComment(t, c, now), InsertToken(t, h));
      var u := if p.Made? then newId else p.user;
      TokensKept(s, a);
      TokensKept(View(), InsertComment(t, c, now));
      StoreComment(t, u, trusted, c, now);
      if trusted {
        IdleCalls(View(), t, c, h, now);
        return SubmitPending;
      }
      var ok := StoreToken(t, h, c, now + VERIFY_MS);
      return if ok then SubmitVerify else SubmitError;
    }

    /** cms_comments_set_status */
    method Moderate(c: Id, status: Status, m: Id) returns (ok: bool)
      modifies this`comments
      ensures ok == (c in old(comments) && status in {Approved, Rejected})
      ensures ok ==> c in comments && comments[c] == old(comments)[c].(status := status, moderator := Some(m), expires := None)
      ensures ok ==> comments.Keys == old(comments).Keys && forall k | k in comments && k != c :: comments[k] == old(comments)[k]
      ensures !ok ==> comments == old(comments)
      ensures View() == if status in {Approved, Rejected} then Do(old(View()), SetStatus(c, status == Approved, m)) else old(View())
    {
      hide DoSubmit, DoVerify, DoReply, DoRenew;
      if status !in {Approved, Rejected} || c !in comments { return false; }
      comments := comments[c := comments[c].(status := status, moderator := Some(m), expires := None)];
      return true;
    }

    /** The first look of cms_comments_set_reply. */
    method LookForReply(ghost t: nat, c: Id, u: Id) returns (seen: Option<(Status, bool)>)
      requires Idle(View(), t)
      modifies this`past
      ensures View() == Do(old(View()), FindForReply(t, c, u))
      ensures seen.Some? <==> c in comments && comments[c].status in {Pending, Approved}
      ensures seen.Some? ==> seen.value == (comments[c].status, comments[c].reply.Some?)
      ensures seen.Some? ==> t in View().ops && View().ops[t] == ReplyFound(c, seen.value.0, seen.value.1, u)
      ensures seen.None? ==> View() == old(View())
    {
      hide DoSubmit, DoVerify, DoRenew, DoOther;
      if c !in comments || comments[c].status !in {Pending, Approved} { return None; }
      seen := Some((comments[c].status, comments[c].reply.Some?));
      past := Moved(past, t, ReplyFound(c, seen.value.0, seen.value.1, u));
    }

    /** Its filtered update: the status must still be the one it saw. */
    method StoreReply(ghost t: nat, c: Id, u: Id, status: Status, had: bool, text: string, now: int) returns (ok: bool)
      requires t in View().ops && View().ops[t] == ReplyFound(c, status, had, u)
      modifies this`comments, this`past
      ensures View() == Do(old(View()), WriteReply(t, text, now))
      ensures ok == (c in old(comments) && old(comments)[c].status == status)
      ensures ok ==> c in comments && comments[c] == old(comments)[c].(reply := Some(Rewritten(old(comments)[c].reply, had, u, text, now)))
      ensures ok && status == Pending ==> t in View().ops && View().ops[t] == ReplyStored(c, u)
      ensures !ok || status != Pending ==> Idle(View(), t)
    {
      hide DoSubmit, DoVerify, DoRenew, DoOther;
      ok := c in comments && comments[c].status == status;
      if ok { comments := comments[c := comments[c].(reply := Some(Rewritten(comments[c].reply, had, u, text, now)))]; }
      past := if ok && status == Pending then Moved(past, t, ReplyStored(c, u)) else Finished(past, t);
    }

    /** Its call of cms_comments_set_status. */
    method ApproveAfterReply(ghost t: nat, c: Id, u: Id) returns (ok: bool)
      requires t in View().ops && View().ops[t] == ReplyStored(c, u)
      modifies this`comments, this`past
      ensures View() == Do(old(View()), ApproveReplied(t))
      ensures ok == (c in old(comments))
      ensures ok ==> c in comments && comments[c] == Moderated(old(comments)[c], true, u)
    {
      hide DoSubmit, DoVerify, DoRenew;
      ok := Moderate(c, Approved, u);
      past := Finished(past, t);
    }

    /** cms_comments_set_reply, when nothing comes between its calls: a reply to a
        pending comment approves it, and a rewritten reply keeps its first date. */
    method SetReply(ghost t: nat, c: Id, u: Id, text: string, now: int) returns (ok: bool, first: bool, approved: bool)
      requires Idle(View(), t)
      modifies this
      ensures ok == (c in old(comments) && old(comments)[c].status in {Pending, Approved} && text != "" && u in users)
      ensures ok ==> first == old(comments)[c].reply.None? && approved == (old(comments)[c].status == Pending)
      ensures ok ==> View() == Run(old(View()), [FindForReply(t, c, u), WriteReply(t, text, now), ApproveReplied(t)])
      ensures ok ==> c in comments && comments[c].status == Approved && comments[c].reply.Some? &&
                     comments[c].reply.value.created ==
                       (if old(comments)[c].reply.Some? then old(comments)[c].reply.value.created else Some(now))
      ensures !ok ==> View() == old(View()) && !first && !approved
    {
      hide Run, Do;
      if text == "" || u !in users { return false, false, false; }
      ghost var s := View();
      RunThree(s, FindForReply(t, c, u), WriteReply(t, text, now), ApproveReplied(t));
      var seen := LookForReply(t, c, u);
      if seen.None? { return false, false, false; }
      ok := StoreReply(t, c, u, seen.value.0, seen.value.1, text, now);
      first := !seen.value.1;
      approved := false;
      if seen.value.0 == Pending {
        approved := ApproveAfterReply(t, c, u);
      } else {
        NoApproval(View(), t);
      }
    }

    /** The find_and_modify of cms_comments_renew_token. */
    method Extend(ghost t: nat, c: Id, now: int) returns (ok: bool)
      requires Idle(View(), t)
      modifies this`comments, this`past
      ensures View() == Do(old(View()), ExtendComment(t, c, now))
      ensures ok == old(Awaits(c))
      ensures ok ==> Awaits(c) && comments[c].expires == Some(now + VERIFY_MS)
      ensures ok ==> t in View().ops && View().ops[t] == RenewTaken(c, now + VERIFY_MS)
      ensures !ok ==> View() == old(View())
    {
      hide DoSubmit, DoVerify, DoReply, DoOther;
      ok := c in comments && comments[c].status == Unverified;
      if ok {
        comments := comments[c := comments[c].(expires := Some(now + VERIFY_MS))];
        past := Moved(past, t, RenewTaken(c, now + VERIFY_MS));
      }
    }

    method Purge(ghost t: nat, c: Id, until: int)
      requires t in View().ops && View().ops[t] == RenewTaken(c, until)
      modifies this`tokens, this`past
      ensures View() == Do(old(View()), PurgeTokens(t))
      ensures forall k :: k in tokens <==> k in old(tokens) && old(tokens)[k].comment != c
      ensures forall k | k in tokens :: tokens[k] == old(tokens)[k]
      ensures t in View().ops && View().ops[t] == RenewPurged(c, until)
    {
      hide DoSubmit, DoVerify, DoReply, DoOther;
      tokens := map k | k in tokens && tokens[k].comment != c :: tokens[k];
      past := Moved(past, t, RenewPurged(c, until));
    }

    /** cms_comments_renew_token, when nothing comes between its calls: the comment
        gets 24 more hours, and the only link left is the new one, provided the
        author still has an address. */
    method Renew(ghost t: nat, c: Id, h: Hash, now: int, address: bool, titled: bool) returns (ok: bool)
      requires Idle(View(), t)
      modifies this
      ensures View() == Run(old(View()), if address then [ExtendComment(t, c, now), PurgeTokens(t), RenewToken(t, h)]
                                         else [ExtendComment(t, c, now), Abandon(t)])
      ensures old(Awaits(c)) ==> Awaits(c) && comments[c].expires == Some(now + VERIFY_MS)
      ensures ok <==> old(Awaits(c)) && address && titled && (h in old(tokens) ==> old(tokens)[h].comment == c)
      ensures ok ==> h in tokens && forall k | k in tokens :: tokens[k].comment == c <==> k == h
      ensures !address ==> tokens == old(tokens)
    {
      hide Run, Do;
      ghost var s := View();
      ok := Extend(t, c, now);
      if !address {
        RunTwo(s, ExtendComment(t, c, now), Abandon(t));
        AbandonIs(View(), t);
        past := Finished(past, t);
        return false;
      }
      RunThree(s, ExtendComment(t, c, now), PurgeTokens(t), RenewToken(t, h));
      if !ok {
        NoRenewal(s, t, h);
        return;
      }
      Purge(t, c, now + VERIFY_MS);
      var stored := StoreToken(t, h, c, now + VERIFY_MS);
      ok := stored && titled;
    }

    predicate Live(h: Hash, now: int)
      reads this
    {
      h in tokens && tokens[h].expires > now
    }

    predicate Awaits(c: Id)
      reads this
    {
      c in comments && comments[c].status == Unverified
    }
  }

  datatype SubmitResult = SubmitVerify | SubmitPending | SubmitNameTaken | SubmitBlocked | SubmitError

  lemma RunNone(s: State)
    ensures Run(s, []) == s
  {}

  lemma RunTwo(s: State, a: Action, b: Action)
    ensures Run(s, [a, b]) == Do(Do(s, a), b)
  {
    hide Do;
    assert [a, b][1..] == [b] && [b][1..] == [];
    assert Run(Do(s, a), [b]) == Do(Do(s, a), b);
  }

  lemma AbandonIs(s: State, t: nat)
    ensures Do(s, Abandon(t)) == Finished(s, t)
  {
    hide DoSubmit, DoVerify, DoReply, DoRenew;
  }

  lemma TokensKept(s: State, a: Action)
    requires a.FindCommenter? || a.NewCommenter? || a.InsertComment?
    ensures Do(s, a).tokens == s.tokens
  {
    hide DoVerify, DoReply, DoRenew, DoOther;
  }

  lemma IdleCalls(s: State, t: nat, c: Id, h: Hash, now: int)
    requires Idle(s, t)
    ensures Do(s, InsertComment(t, c, now)) == s && Do(s, InsertToken(t, h)) == s
  {
    hide DoVerify, DoReply, DoRenew, DoOther;
  }

  lemma NoApproval(s: State, t: nat)
    requires Idle(s, t)
    ensures Do(s, ApproveReplied(t)) == s
  {
    hide DoSubmit, DoVerify, DoRenew, DoOther;
  }

  lemma NoRenewal(s: State, t: nat, h: Hash)
    requires Idle(s, t)
    ensures Do(s, PurgeTokens(t)) == s && Do(s, RenewToken(t, h)) == s
  {
    hide DoSubmit, DoVerify, DoReply, DoOther;
  }

  lemma FoundToken(s: State, t: nat, h: Hash, now: int)
    requires Idle(s, t)
    ensures var next := Do(s, FindToken(t, h, now));
            if h in s.tokens && s.tokens[h].expires > now then next == Moved(s, t, VerifyFound(h, s.tokens[h].comment))
            else next == s && Do(next, Confirm(t, now)) == s && Do(s, SpendToken(t)) == s
  {
    hide DoSubmit, DoReply, DoRenew, DoOther;
  }

  lemma TookComment(s: State, t: nat, now: int)
    requires t in s.ops && s.ops[t].VerifyFound?
    ensures var op := s.ops[t];
            var next := Do(s, Confirm(t, now));
            && t in next.ops
            && next.ops[t] == (if op.comment in s.comments && s.comments[op.comment].status == Unverified
                             then VerifyTaken(op.hash, op.comment, s.comments[op.comment].commenter, now)
                             else VerifyMissed(op.hash))
  {
    hide DoSubmit, DoReply, DoRenew, DoOther;
  }

  lemma SpentToken(s: State, t: nat)
    requires t in s.ops && s.ops[t].VerifyTaken?
    ensures var next := Do(s, SpendToken(t));
            t in next.ops && next.ops[t] == VerifySpent(s.ops[t].comment, s.ops[t].user, s.ops[t].now)
  {
    hide DoSubmit, DoReply, DoRenew, DoOther;
  }
}
