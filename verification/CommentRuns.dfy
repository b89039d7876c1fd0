/** What three remarks in src/db/cms_comments.c and its header promise, and over which
    runs they hold: the first date of a reply, the newest link, and the 24 hours. */
module CommentRuns {
  import opened Options
  import opened Comments

  /** The step belongs to an operation. */
  predicate HasThread(a: Action) {
    !(a.SetStatus? || a.DeleteReply? || a.DeleteComment? || a.Block? || a.RemoveUser? || a.ExpireComment? || a.ExpireToken?)
  }

  predicate ByOther(a: Action, t: nat) { HasThread(a) ==> a.t != t }

  lemma OpStaysPut(s: State, a: Action, t: nat)
    requires t in s.ops && ByOther(a, t)
    ensures t in Do(s, a).ops && Do(s, a).ops[t] == s.ops[t]
  {
    hide DoSubmit, DoVerify, DoReply, DoRenew, DoOther;
    if IsSubmit(a) { SubmitOther(s, a, t); }
    else if IsVerify(a) { VerifyOther(s, a, t); }
    else if IsReply(a) { ReplyOther(s, a, t); }
    else if IsRenew(a) { RenewOther(s, a, t); }
    else { RestOther(s, a, t); }
  }

  lemma SubmitOther(s: State, a: Action, t: nat)
    requires t in s.ops && ByOther(a, t) && IsSubmit(a)
    ensures t in DoSubmit(s, a).ops && DoSubmit(s, a).ops[t] == s.ops[t]
  {
    hide NewComment;
  }

  lemma VerifyOther(s: State, a: Action, t: nat)
    requires t in s.ops && ByOther(a, t) && IsVerify(a)
    ensures t in DoVerify(s, a).ops && DoVerify(s, a).ops[t] == s.ops[t]
  {}

  lemma ReplyOther(s: State, a: Action, t: nat)
    requires t in s.ops && ByOther(a, t) && IsReply(a)
    ensures t in DoReply(s, a).ops && DoReply(s, a).ops[t] == s.ops[t]
  {
    hide Rewritten;
  }

  lemma RenewOther(s: State, a: Action, t: nat)
    requires t in s.ops && ByOther(a, t) && IsRenew(a)
    ensures t in DoRenew(s, a).ops && DoRenew(s, a).ops[t] == s.ops[t]
  {}

  lemma RestOther(s: State, a: Action, t: nat)
    requires t in s.ops && ByOther(a, t)
    ensures t in DoOther(s, a).ops && DoOther(s, a).ops[t] == s.ops[t]
  {}

  lemma {:induction false} OpStaysThrough(s: State, actions: seq<Action>, t: nat)
    requires t in s.ops && forall a | a in actions :: ByOther(a, t)
    ensures t in Run(s, actions).ops && Run(s, actions).ops[t] == s.ops[t]
    decreases |actions|
  {
    hide Do, ByOther;
    if actions != [] {
      assert actions[0] in actions;
      OpStaysPut(s, actions[0], t);
      OpStaysThrough(Do(s, actions[0]), actions[1..], t);
    }
  }

  // ---- The first date of a reply ------------------------------------------------------------

  predicate HasReply(s: State, c: Id) { c in s.comments && s.comments[c].reply.Some? }

  function FirstDate(s: State, c: Id): Option<int>
    requires HasReply(s, c)
  {
    s.comments[c].reply.value.created
  }

  /** A write by an operation that saw no reply when it looked. */
  predicate FreshWrite(s: State, a: Action, c: Id) {
    && a.WriteReply? && a.t in s.ops && s.ops[a.t].ReplyFound? && s.ops[a.t].comment == c && !s.ops[a.t].had
    && c in s.comments && s.comments[c].status == s.ops[a.t].status
  }

  /** The step takes the reply's date away or sets another. */
  predicate Disturbs(s: State, a: Action, c: Id)
    requires HasReply(s, c)
  {
    a == DeleteReply(c) || (FreshWrite(s, a, c) && FirstDate(s, c) != Some(a.now))
  }

  predicate SameDate(s: State, next: State, c: Id)
    requires HasReply(s, c)
  {
    HasReply(next, c) && FirstDate(next, c) == FirstDate(s, c)
  }

  /** One step keeps the first date of a reply exactly when it neither deletes the
      reply nor writes it for an operation that had seen none. */
  lemma DateStep(s: State, a: Action, c: Id)
    requires Inv(s) && HasReply(s, c) && c in Do(s, a).comments
    ensures SameDate(s, Do(s, a), c) <==> !Disturbs(s, a, c)
  {
    hide Inv, DoSubmit, DoVerify, DoReply, DoRenew, DoOther;
    CommentSound(s, c);
    if IsSubmit(a) { SubmitDate(s, a, c); }
    else if IsVerify(a) { VerifyDate(s, a, c); }
    else if IsReply(a) { ReplyDate(s, a, c); }
    else if IsRenew(a) { RenewDate(s, a, c); }
    else { OtherDate(s, a, c); }
  }

  lemma SubmitDate(s: State, a: Action, c: Id)
    requires HasReply(s, c) && c in s.owners && IsSubmit(a)
    ensures SameDate(s, DoSubmit(s, a), c)
  {
    hide NewComment;
  }

  lemma VerifyDate(s: State, a: Action, c: Id)
    requires HasReply(s, c) && IsVerify(a)
    ensures SameDate(s, DoVerify(s, a), c)
  {}

  lemma ReplyDate(s: State, a: Action, c: Id)
    requires HasReply(s, c) && IsReply(a)
    ensures SameDate(s, DoReply(s, a), c) <==> !Disturbs(s, a, c)
  {}

  lemma RenewDate(s: State, a: Action, c: Id)
    requires HasReply(s, c) && IsRenew(a)
    ensures SameDate(s, DoRenew(s, a), c)
  {}

  lemma OtherDate(s: State, a: Action, c: Id)
    requires HasReply(s, c) && c in DoOther(s, a).comments
    ensures SameDate(s, DoOther(s, a), c)
  {}

  /** The comment stays stored through the run. */
  ghost predicate Stored(s: State, actions: seq<Action>, c: Id)
    decreases |actions|
  {
    c in s.comments && (actions == [] || Stored(Do(s, actions[0]), actions[1..], c))
  }

  /** Its reply has the same first date after every step. */
  ghost predicate DateKept(s: State, actions: seq<Action>, c: Id)
    decreases |actions|
  {
    HasReply(s, c) &&
    (actions == [] || (SameDate(s, Do(s, actions[0]), c) && DateKept(Do(s, actions[0]), actions[1..], c)))
  }

  /** No step of the run disturbs it. */
  ghost predicate Undisturbed(s: State, actions: seq<Action>, c: Id)
    requires HasReply(s, c)
    decreases |actions|
  {
    actions == [] || (!Disturbs(s, actions[0], c) && HasReply(Do(s, actions[0]), c) && Undisturbed(Do(s, actions[0]), actions[1..], c))
  }

  /** Over every run: the first date is kept throughout exactly when no reply is
      deleted and none is written by an operation that had seen none. */
  lemma {:induction false} DateKeptExactly(s: State, actions: seq<Action>, c: Id)
    requires Inv(s) && HasReply(s, c) && Stored(s, actions, c)
    ensures DateKept(s, actions, c) <==> Undisturbed(s, actions, c)
    ensures DateKept(s, actions, c) ==> SameDate(s, Run(s, actions), c)
    decreases |actions|
  {
    hide Inv, Do, Disturbs;
    if actions != [] {
      var next := Do(s, actions[0]);
      assert c in next.comments;
      DateStep(s, actions[0], c);
      DoKeeps(s, actions[0]);
      if HasReply(next, c) { DateKeptExactly(next, actions[1..], c); }
    }
  }

  /** A look, what others do meanwhile, and the write. */
  ghost predicate Rewrites(s: State, t: nat, c: Id, u: Id, mid: seq<Action>) {
    && Idle(s, t) && c in s.comments && s.comments[c].status in {Pending, Approved}
    && (forall a | a in mid :: ByOther(a, t))
    && var at := Run(Do(s, FindForReply(t, c, u)), mid);
       c in at.comments && at.comments[c].status == s.comments[c].status
  }

  /** What date a reply has after the write: of the reply then there if one was
      there at the look, none if that one is gone, and a new one otherwise. */
  lemma WrittenAgain(s: State, t: nat, c: Id, u: Id, mid: seq<Action>, text: string, now: int)
    requires Rewrites(s, t, c, u, mid)
    ensures var at := Run(Do(s, FindForReply(t, c, u)), mid);
            var next := Do(at, WriteReply(t, text, now));
            && HasReply(next, c)
            && FirstDate(next, c) == (if !HasReply(s, c) then Some(now)
                                      else if HasReply(at, c) then FirstDate(at, c) else None)
            && (HasReply(at, c) ==>
                  (SameDate(at, next, c) <==> HasReply(s, c) || FirstDate(at, c) == Some(now)))
  {
    hide Run, Do, ByOther;
    var looked := Do(s, FindForReply(t, c, u));
    ReplyStep(s, FindForReply(t, c, u));
    OpStaysThrough(looked, mid, t);
    var at := Run(looked, mid);
    ReplyStep(at, WriteReply(t, text, now));
  }

  /** A reply written again keeps its first date when nothing in between disturbs it. */
  lemma KeepsFirstDate(s: State, t: nat, c: Id, u: Id, mid: seq<Action>, text: string, now: int)
    requires Inv(s) && Rewrites(s, t, c, u, mid) && HasReply(s, c)
    requires var looked := Do(s, FindForReply(t, c, u));
             HasReply(looked, c) && Stored(looked, mid, c) && Undisturbed(looked, mid, c)
    ensures var next := Do(Run(Do(s, FindForReply(t, c, u)), mid), WriteReply(t, text, now));
            SameDate(s, next, c)
  {
    hide Inv, Run, Do, Rewrites, Stored, Undisturbed, Disturbs;
    var a := FindForReply(t, c, u);
    var looked := Do(s, a);
    DoKeeps(s, a);
    DateKeptExactly(looked, mid, c);
    WrittenAgain(s, t, c, u, mid, text, now);
    LookKeeps(s, t, c, u);
  }

  lemma LookKeeps(s: State, t: nat, c: Id, u: Id)
    requires HasReply(s, c)
    ensures SameDate(s, Do(s, FindForReply(t, c, u)), c)
  {
    hide Do;
    ReplyStep(s, FindForReply(t, c, u));
  }

  /** Every reply deleted between the look and the write comes back undated. */
  lemma UndatedReply(s: State, t: nat, c: Id, u: Id, text: string, now: int)
    requires Idle(s, t) && c in s.comments && s.comments[c].status == Approved && s.comments[c].reply.Some?
    ensures var next := Run(s, [FindForReply(t, c, u), DeleteReply(c), WriteReply(t, text, now)]);
            c in next.comments && next.comments[c].reply == Some(Reply(u, text, None, Some(now)))
  {
    hide Run, Do;
    RunThree(s, FindForReply(t, c, u), DeleteReply(c), WriteReply(t, text, now));
    LookIs(s, t, c, u);
    var s1 := Moved(s, t, ReplyFound(c, Approved, true, u));
    ReplyStep(s1, DeleteReply(c));
    WriteIs(WithComment(s1, c, s.comments[c].(reply := None)), t, text, now);
  }

  lemma LookIs(s: State, t: nat, c: Id, u: Id)
    requires Idle(s, t) && c in s.comments && s.comments[c].status == Approved
    ensures Do(s, FindForReply(t, c, u)) == Moved(s, t, ReplyFound(c, Approved, s.comments[c].reply.Some?, u))
  {
    hide Do;
    ReplyStep(s, FindForReply(t, c, u));
  }

  lemma WriteIs(s: State, t: nat, text: string, now: int)
    requires t in s.ops && s.ops[t].ReplyFound? && s.ops[t].status == Approved
    requires s.ops[t].comment in s.comments && s.comments[s.ops[t].comment].status == Approved
    ensures var op := s.ops[t];
            var doc := s.comments[op.comment];
            Do(s, WriteReply(t, text, now)) ==
            Finished(WithComment(s, op.comment, doc.(reply := Some(Rewritten(doc.reply, op.had, op.user, text, now)))), t)
  {
    hide Do, Rewritten;
    ReplyStep(s, WriteReply(t, text, now));
  }

  /** Two first replies that overlap: the date of the first one is gone. */
  lemma OverlappingReplies(s: State, t: nat, t2: nat, c: Id, u: Id, u2: Id, x: string, y: string, n1: int, n2: int)
    requires Idle(s, t) && Idle(s, t2) && t != t2
    requires c in s.comments && s.comments[c].status == Approved && s.comments[c].reply.None?
    ensures var looked := Do(Do(s, FindForReply(t, c, u)), FindForReply(t2, c, u2));
            var first := Do(looked, WriteReply(t, x, n1));
            var second := Do(first, WriteReply(t2, y, n2));
            && HasReply(first, c) && FirstDate(first, c) == Some(n1)
            && HasReply(second, c) && FirstDate(second, c) == Some(n2)
  {
    hide Do;
    LookIs(s, t, c, u);
    var s1 := Moved(s, t, ReplyFound(c, Approved, false, u));
    LookIs(s1, t2, c, u2);
    var s2 := Moved(s1, t2, ReplyFound(c, Approved, false, u2));
    WriteIs(s2, t, x, n1);
    WriteIs(Do(s2, WriteReply(t, x, n1)), t2, y, n2);
  }

  // ---- The newest link ---------------------------------------------------------------------------

  predicate IsLink(s: State, k: Hash, c: Id) { k in s.tokens && s.tokens[k].comment == c }

  /** Links of this comment other than h work. */
  ghost predicate OtherLinks(s: State, c: Id, h: Hash) { exists k :: IsLink(s, k, c) && k != h }

  /** The step stores the link k for the comment. */
  predicate StoresLink(s: State, a: Action, c: Id, k: Hash) {
    && (a.InsertToken? || a.RenewToken?) && a.hash == k && k !in s.tokens && a.t in s.ops
    && (if a.InsertToken? then s.ops[a.t].SubmitStored? && s.ops[a.t].comment == c
        else s.ops[a.t].RenewPurged? && s.ops[a.t].comment == c)
  }

  /** Some step of the run stores it. */
  ghost predicate StoredIn(s: State, actions: seq<Action>, c: Id, k: Hash)
    decreases |actions|
  {
    actions != [] && (StoresLink(s, actions[0], c, k) || StoredIn(Do(s, actions[0]), actions[1..], c, k))
  }

  lemma NewLink(s: State, a: Action, c: Id, k: Hash)
    requires IsLink(Do(s, a), k, c) && !IsLink(s, k, c)
    ensures StoresLink(s, a, c, k)
  {
    hide DoVerify, DoReply, DoOther, NewComment;
    if IsReply(a) { ReplyTokens(s, a); }
    else if !IsSubmit(a) && !IsVerify(a) && !IsRenew(a) { OtherTokens(s, a); }
    else if IsVerify(a) { VerifyTokens(s, a); }
  }

  lemma ReplyTokens(s: State, a: Action)
    requires IsReply(a)
    ensures DoReply(s, a).tokens == s.tokens
  {
    hide Rewritten;
  }

  lemma VerifyTokens(s: State, a: Action)
    requires IsVerify(a)
    ensures forall k | k in DoVerify(s, a).tokens :: k in s.tokens && DoVerify(s, a).tokens[k] == s.tokens[k]
  {}

  lemma OtherTokens(s: State, a: Action)
    ensures forall k | k in DoOther(s, a).tokens :: k in s.tokens && DoOther(s, a).tokens[k] == s.tokens[k]
  {}

  lemma {:induction false} StoredSince(s: State, actions: seq<Action>, c: Id, k: Hash)
    requires IsLink(Run(s, actions), k, c) && !IsLink(s, k, c)
    ensures StoredIn(s, actions, c, k)
    decreases |actions|
  {
    hide Do, IsLink, StoresLink;
    if actions != [] {
      var next := Do(s, actions[0]);
      if IsLink(next, k, c) { NewLink(s, actions[0], c, k); } else { StoredSince(next, actions[1..], c, k); }
    }
  }

  /** A renewal leaves only its own link exactly when no step between its purge and
      its insert stored a link of the comment that is still there. */
  lemma NewestOnlyExactly(s: State, t: nat, mid: seq<Action>, h: Hash)
    requires t in s.ops && s.ops[t].RenewTaken? && forall a | a in mid :: ByOther(a, t)
    requires h !in Run(Do(s, PurgeTokens(t)), mid).tokens
    ensures var c := s.ops[t].comment;
            var purged := Do(s, PurgeTokens(t));
            var at := Run(purged, mid);
            OtherLinks(Do(at, RenewToken(t, h)), c, h) <==> exists k :: StoredIn(purged, mid, c, k) && IsLink(at, k, c)
  {
    hide Do, Run, StoredIn, ByOther;
    var c := s.ops[t].comment;
    PurgeIs(s, t);
    var purged := Do(s, PurgeTokens(t));
    OpStaysThrough(purged, mid, t);
    var at := Run(purged, mid);
    LinkIs(at, t, h);
    forall k | IsLink(at, k, c) ensures StoredIn(purged, mid, c, k) { StoredSince(purged, mid, c, k); }
    var next := Do(at, RenewToken(t, h));
    assert forall k | k != h :: IsLink(next, k, c) <==> IsLink(at, k, c);
    assert !IsLink(at, h, c);
  }

  lemma LinkIs(s: State, t: nat, h: Hash)
    requires t in s.ops && s.ops[t].RenewPurged? && h !in s.tokens
    ensures var next := Do(s, RenewToken(t, h));
            && next.tokens == s.tokens[h := Token(s.ops[t].comment, s.ops[t].until)]
            && next.ops == s.ops - {t} && next.comments == s.comments && next.log == s.log
  {
    hide Do;
    RenewStep(s, RenewToken(t, h));
  }

  lemma PurgeIs(s: State, t: nat)
    requires t in s.ops && s.ops[t].RenewTaken?
    ensures var next := Do(s, PurgeTokens(t));
            && next.tokens.Keys <= s.tokens.Keys && (forall k :: !IsLink(next, k, s.ops[t].comment))
            && next.ops == s.ops[t := RenewPurged(s.ops[t].comment, s.ops[t].until)]
            && next.comments == s.comments && next.log == s.log
  {
    hide Do;
    RenewStep(s, PurgeTokens(t));
  }

  lemma ExtendIs(s: State, t: nat, c: Id, now: int)
    requires t !in s.ops && c in s.comments && s.comments[c].status == Unverified
    ensures var next := Do(s, ExtendComment(t, c, now));
            && c in next.comments && next.comments[c].status == Unverified && next.tokens == s.tokens
            && next.ops == s.ops[t := RenewTaken(c, now + VERIFY_MS)] && next.log == s.log
  {
    hide Do;
    RenewStep(s, ExtendComment(t, c, now));
  }

  /** Two renewals that overlap leave both their links working. */
  lemma OverlappingRenewals(s: State, t: nat, t2: nat, c: Id, h: Hash, h2: Hash, now: int)
    requires t !in s.ops && t2 !in s.ops && t != t2 && h != h2 && h !in s.tokens && h2 !in s.tokens
    requires c in s.comments && s.comments[c].status == Unverified
    ensures var next := Run(Run(s, [ExtendComment(t, c, now), ExtendComment(t2, c, now), PurgeTokens(t)]),
                            [PurgeTokens(t2), RenewToken(t, h), RenewToken(t2, h2)]);
            IsLink(next, h, c) && IsLink(next, h2, c)
  {
    hide Run, Do;
    RunThree(s, ExtendComment(t, c, now), ExtendComment(t2, c, now), PurgeTokens(t));
    ExtendIs(s, t, c, now);
    var s1 := Do(s, ExtendComment(t, c, now));
    ExtendIs(s1, t2, c, now);
    var s2 := Do(s1, ExtendComment(t2, c, now));
    PurgeIs(s2, t);
    var s3 := Do(s2, PurgeTokens(t));
    RunThree(s3, PurgeTokens(t2), RenewToken(t, h), RenewToken(t2, h2));
    PurgeIs(s3, t2);
    var s4 := Do(s3, PurgeTokens(t2));
    LinkIs(s4, t, h);
    LinkIs(Do(s4, RenewToken(t, h)), t2, h2);
  }

  /** So does a submit that stores its link only after a renewal has purged. */
  lemma SubmitDuringRenewal(s: State, t: nat, t2: nat, c: Id, h: Hash, h2: Hash, now: int)
    requires t in s.ops && s.ops[t].SubmitStored? && s.ops[t].comment == c && t2 !in s.ops
    requires h != h2 && h !in s.tokens && h2 !in s.tokens && c in s.comments && s.comments[c].status == Unverified
    ensures var renewed := Run(s, [ExtendComment(t2, c, now), PurgeTokens(t2), InsertToken(t, h)]);
            var next := Do(renewed, RenewToken(t2, h2));
            IsLink(next, h, c) && IsLink(next, h2, c)
  {
    hide Run, Do;
    RunThree(s, ExtendComment(t2, c, now), PurgeTokens(t2), InsertToken(t, h));
    ExtendIs(s, t2, c, now);
    var s1 := Do(s, ExtendComment(t2, c, now));
    PurgeIs(s1, t2);
    var s2 := Do(s1, PurgeTokens(t2));
    InsertIs(s2, t, h);
    LinkIs(Do(s2, InsertToken(t, h)), t2, h2);
  }

  lemma InsertIs(s: State, t: nat, h: Hash)
    requires t in s.ops && s.ops[t].SubmitStored? && h !in s.tokens
    ensures var next := Do(s, InsertToken(t, h));
            && next.tokens == s.tokens[h := Token(s.ops[t].comment, s.ops[t].until)]
            && next.ops == s.ops - {t}
  {
    hide DoVerify, DoReply, DoRenew, DoOther;
  }

  // ---- Which link confirms -------------------------------------------------------------------------

  /** A verify that has found the link k of the comment and has not yet confirmed. */
  predicate IsFinder(s: State, t: nat, k: Hash, c: Id) { t in s.ops && s.ops[t] == VerifyFound(k, c) }

  /** No step of the run stores a link of the comment. */
  ghost predicate NoNewLinks(s: State, actions: seq<Action>, c: Id)
    decreases |actions|
  {
    actions == [] || ((forall k :: !StoresLink(s, actions[0], c, k)) && NoNewLinks(Do(s, actions[0]), actions[1..], c))
  }

  /** The run confirms the comment with the link k. */
  ghost predicate Confirms(s: State, actions: seq<Action>, c: Id, k: Hash) {
    exists i :: |s.log| <= i < |Run(s, actions).log| && Run(s, actions).log[i] == Confirmation(k, c)
  }

  /** Some later run that stores no link of the comment confirms it with another link than h. */
  ghost predicate OtherCanConfirm(s: State, c: Id, h: Hash) {
    exists actions, k :: k != h && NoNewLinks(s, actions, c) && Confirms(s, actions, c, k)
  }

  /** The comment still waits and another link of it works, or has been found by a
      verify on its way. */
  ghost predicate OtherOnItsWay(s: State, c: Id, h: Hash) {
    Waits(s, c) && (OtherLinks(s, c, h) || exists t, k :: IsFinder(s, t, k, c) && k != h)
  }

  lemma NewFinder(s: State, a: Action, t: nat, k: Hash, c: Id)
    requires IsFinder(Do(s, a), t, k, c) && !IsFinder(s, t, k, c)
    ensures IsLink(s, k, c)
  {
    if t in s.ops && ByOther(a, t) { OpStaysPut(s, a, t); }
    if IsVerify(a) { VerifyFinder(s, a, t, k, c); }
    else if IsSubmit(a) { SubmitFinder(s, a, t, k, c); }
    else if IsReply(a) { ReplyFinder(s, a, t, k, c); }
    else if IsRenew(a) { RenewFinder(s, a, t, k, c); }
    else { OtherFinder(s, a, t, k, c); }
    hide DoSubmit, DoVerify, DoReply, DoRenew, DoOther;
  }

  lemma VerifyFinder(s: State, a: Action, t: nat, k: Hash, c: Id)
    requires IsVerify(a) && IsFinder(DoVerify(s, a), t, k, c) && !IsFinder(s, t, k, c)
    ensures IsLink(s, k, c)
  {}

  lemma SubmitFinder(s: State, a: Action, t: nat, k: Hash, c: Id)
    requires IsSubmit(a) && IsFinder(DoSubmit(s, a), t, k, c)
    ensures IsFinder(s, t, k, c)
  {
    hide NewComment;
  }

  lemma ReplyFinder(s: State, a: Action, t: nat, k: Hash, c: Id)
    requires IsReply(a) && IsFinder(DoReply(s, a), t, k, c)
    ensures IsFinder(s, t, k, c)
  {
    hide Rewritten;
  }

  lemma RenewFinder(s: State, a: Action, t: nat, k: Hash, c: Id)
    requires IsRenew(a) && IsFinder(DoRenew(s, a), t, k, c)
    ensures IsFinder(s, t, k, c)
  {}

  lemma OtherFinder(s: State, a: Action, t: nat, k: Hash, c: Id)
    requires IsFinder(DoOther(s, a), t, k, c)
    ensures IsFinder(s, t, k, c)
  {}

  /** Only a confirmation logs, and what it logs a verify had found while the comment waited. */
  lemma LogStep(s: State, a: Action)
    ensures var next := Do(s, a);
            next.log == s.log || (a.Confirm? && exists k, c :: IsFinder(s, a.t, k, c) && Waits(s, c) && next.log == s.log + [Confirmation(k, c)])
  {
    hide DoSubmit, DoVerify, DoReply, DoRenew, DoOther;
    if IsVerify(a) { VerifyLog(s, a); }
    else if IsSubmit(a) { SubmitLog(s, a); }
    else if IsReply(a) { ReplyLog(s, a); }
    else if IsRenew(a) { RenewLog(s, a); }
    else { OtherLog(s, a); }
  }

  lemma VerifyLog(s: State, a: Action)
    requires IsVerify(a)
    ensures var next := DoVerify(s, a);
            next.log == s.log || (a.Confirm? && exists k, c :: IsFinder(s, a.t, k, c) && Waits(s, c) && next.log == s.log + [Confirmation(k, c)])
  {
    if a.Confirm? && a.t in s.ops && s.ops[a.t].VerifyFound? && Waits(s, s.ops[a.t].comment) {
      assert IsFinder(s, a.t, s.ops[a.t].hash, s.ops[a.t].comment);
    }
  }

  lemma SubmitLog(s: State, a: Action)
    requires IsSubmit(a)
    ensures DoSubmit(s, a).log == s.log
  {
    hide NewComment;
  }

  lemma ReplyLog(s: State, a: Action)
    requires IsReply(a)
    ensures DoReply(s, a).log == s.log
  {
    hide Rewritten;
  }

  lemma RenewLog(s: State, a: Action)
    requires IsRenew(a)
    ensures DoRenew(s, a).log == s.log
  {}

  lemma OtherLog(s: State, a: Action)
    ensures DoOther(s, a).log == s.log
  {}

  /** A comment that does not wait will not wait again. */
  lemma WaitsNoMore(s: State, a: Action, c: Id)
    requires Inv(s) && c in s.owners && !Waits(s, c)
    ensures !Waits(Do(s, a), c) && c in Do(s, a).owners
  {
    hide Inv, Do;
    StepOnward(s, a, c);
    DoKeeps(s, a);
  }

  lemma OwnerStays(s: State, a: Action, c: Id)
    requires Inv(s) && c in s.owners
    ensures c in Do(s, a).owners
  {
    hide Inv, Do;
    DoKeeps(s, a);
  }

  /** The step logs at most one confirmation, and none of c with another link than h. */
  predicate LogsNoOther(s: State, next: State, c: Id, h: Hash) {
    next.log == s.log ||
    (|next.log| == |s.log| + 1 && s.log <= next.log && (next.log[|s.log|].comment == c ==> next.log[|s.log|].hash == h))
  }

  lemma NoOtherLink(s: State, a: Action, c: Id, h: Hash)
    requires OtherLinks(Do(s, a), c, h) && forall k :: !StoresLink(s, a, c, k)
    ensures OtherLinks(s, c, h)
  {
    hide Do, StoresLink;
    var k :| IsLink(Do(s, a), k, c) && k != h;
    if !IsLink(s, k, c) { NewLink(s, a, c, k); }
  }

  lemma NoOtherFinder(s: State, a: Action, t: nat, k: Hash, c: Id, h: Hash)
    requires IsFinder(Do(s, a), t, k, c) && k != h
    ensures OtherLinks(s, c, h) || IsFinder(s, t, k, c)
  {
    hide Do;
    if !IsFinder(s, t, k, c) { NewFinder(s, a, t, k, c); }
  }

  /** Without a new link, another one does not come on its way. */
  lemma NoOtherStep(s: State, a: Action, c: Id, h: Hash)
    requires Inv(s) && c in s.owners && !OtherOnItsWay(s, c, h) && forall k :: !StoresLink(s, a, c, k)
    ensures !OtherOnItsWay(Do(s, a), c, h) && c in Do(s, a).owners
    ensures LogsNoOther(s, Do(s, a), c, h)
  {
    hide Inv, Do, StoresLink;
    var next := Do(s, a);
    OwnerStays(s, a, c);
    LogStep(s, a);
    if next.log != s.log {
      var k, d :| IsFinder(s, a.t, k, d) && Waits(s, d) && next.log == s.log + [Confirmation(k, d)];
      assert next.log[|s.log|] == Confirmation(k, d);
    }
    if !Waits(s, c) {
      WaitsNoMore(s, a, c);
    } else {
      if OtherLinks(next, c, h) { NoOtherLink(s, a, c, h); }
      if t, k :| IsFinder(next, t, k, c) && k != h { NoOtherFinder(s, a, t, k, c, h); }
    }
  }

  lemma {:induction false} LogGrowsOn(s: State, actions: seq<Action>)
    requires Inv(s)
    ensures s.log <= Run(s, actions).log
    decreases |actions|
  {
    hide Inv, Do;
    if actions != [] {
      DoKeeps(s, actions[0]);
      LogGrowsOn(Do(s, actions[0]), actions[1..]);
    }
  }

  lemma {:induction false} NoOtherConfirms(s: State, actions: seq<Action>, c: Id, h: Hash, i: nat)
    requires Inv(s) && c in s.owners && !OtherOnItsWay(s, c, h) && NoNewLinks(s, actions, c)
    requires |s.log| <= i < |Run(s, actions).log|
    ensures Run(s, actions).log[i].comment == c ==> Run(s, actions).log[i].hash == h
    decreases |actions|
  {
    hide Inv, Do, OtherOnItsWay, StoresLink;
    if actions != [] {
      var next := Do(s, actions[0]);
      NoOtherStep(s, actions[0], c, h);
      DoKeeps(s, actions[0]);
      LogGrowsOn(next, actions[1..]);
      if i >= |next.log| { NoOtherConfirms(next, actions[1..], c, h, i); }
    }
  }

  lemma {:induction false} FreeThread(threads: set<nat>) returns (t: nat)
    ensures t !in threads && forall x | x in threads :: x < t
    decreases |threads|
  {
    t := 0;
    if threads != {} {
      var x :| x in threads;
      var rest := threads - {x};
      var u := FreeThread(rest);
      t := if x < u then u else x + 1;
      assert threads == rest + {x};
    }
  }

  /** A verify that has found a link of a waiting comment can confirm it at once. */
  lemma FinderConfirms(s: State, t: nat, k: Hash, c: Id, now: int)
    requires IsFinder(s, t, k, c) && Waits(s, c)
    ensures var next := Do(s, Confirm(t, now));
            && next.log == s.log + [Confirmation(k, c)]
            && c in next.comments && next.comments[c].status == Pending
  {
    hide DoSubmit, DoReply, DoRenew, DoOther;
  }

  lemma FindIs(s: State, t: nat, k: Hash, now: int)
    requires t !in s.ops && k in s.tokens && s.tokens[k].expires > now
    ensures Do(s, FindToken(t, k, now)) == Moved(s, t, VerifyFound(k, s.tokens[k].comment))
  {
    hide DoSubmit, DoReply, DoRenew, DoOther;
  }

  lemma RunOne(s: State, a: Action)
    ensures Run(s, [a]) == Do(s, a)
  {
    hide Do;
    assert [a][1..] == [];
  }

  lemma RunPair(s: State, a: Action, b: Action)
    ensures Run(s, [a, b]) == Do(Do(s, a), b)
  {
    hide Do;
    assert [a, b][1..] == [b];
    RunOne(Do(s, a), b);
  }

  predicate IsVerifyStep(a: Action) { a.FindToken? || a.Confirm? }

  lemma VerifyStoresNone(s: State, actions: seq<Action>, c: Id)
    requires forall a | a in actions :: IsVerifyStep(a)
    ensures NoNewLinks(s, actions, c)
    decreases |actions|
  {
    hide Do;
    if actions != [] {
      assert actions[0] in actions;
      VerifyStoresNone(Do(s, actions[0]), actions[1..], c);
    }
  }

  /** Another link than h can still confirm the comment, with no link stored anew,
      exactly when the comment waits and another link works or has been found. */
  lemma ConfirmsExactly(s: State, c: Id, h: Hash)
    requires Inv(s) && c in s.owners
    ensures OtherCanConfirm(s, c, h) <==> OtherOnItsWay(s, c, h)
  {
    hide Inv, Run, NoNewLinks, Do;
    if OtherOnItsWay(s, c, h) {
      if t, k :| IsFinder(s, t, k, c) && k != h {
        FinderCan(s, t, k, c, h);
      } else {
        var k :| IsLink(s, k, c) && k != h;
        LinkCan(s, k, c, h);
      }
    } else if OtherCanConfirm(s, c, h) {
      var actions, k :| k != h && NoNewLinks(s, actions, c) && Confirms(s, actions, c, k);
      var i :| |s.log| <= i < |Run(s, actions).log| && Run(s, actions).log[i] == Confirmation(k, c);
      NoOtherConfirms(s, actions, c, h, i);
    }
  }

  lemma FinderCan(s: State, t: nat, k: Hash, c: Id, h: Hash)
    requires IsFinder(s, t, k, c) && Waits(s, c) && k != h
    ensures OtherCanConfirm(s, c, h)
  {
    hide Run, NoNewLinks, Do;
    var actions := [Confirm(t, 0)];
    FinderConfirms(s, t, k, c, 0);
    RunOne(s, Confirm(t, 0));
    VerifyStoresNone(s, actions, c);
    assert Run(s, actions).log[|s.log|] == Confirmation(k, c);
    assert Confirms(s, actions, c, k);
  }

  lemma LinkCan(s: State, k: Hash, c: Id, h: Hash)
    requires IsLink(s, k, c) && Waits(s, c) && k != h
    ensures OtherCanConfirm(s, c, h)
  {
    hide Run, NoNewLinks, Do;
    var t := FreeThread(s.ops.Keys);
    var now := s.tokens[k].expires - 1;
    var a, b := FindToken(t, k, now), Confirm(t, now);
    var actions := [a, b];
    FindIs(s, t, k, now);
    var found := Do(s, a);
    FinderConfirms(found, t, k, c, now);
    RunPair(s, a, b);
    VerifyStoresNone(s, actions, c);
    assert Run(s, actions).log[|s.log|] == Confirmation(k, c);
    assert Confirms(s, actions, c, k);
  }

  /** After a renewal another link than the new one can still confirm, exactly when the
      comment waits and some step since the purge stored a link that is still there or
      some verify on its way has found another one. */
  lemma NewestOnlyConfirms(s: State, t: nat, mid: seq<Action>, h: Hash)
    requires Inv(s) && t in s.ops && s.ops[t].RenewTaken? && forall a | a in mid :: ByOther(a, t)
    requires h !in Run(Do(s, PurgeTokens(t)), mid).tokens
    ensures var c := s.ops[t].comment;
            var purged := Do(s, PurgeTokens(t));
            var at := Run(purged, mid);
            OtherCanConfirm(Do(at, RenewToken(t, h)), c, h) <==>
              Waits(at, c) && ((exists k :: StoredIn(purged, mid, c, k) && IsLink(at, k, c)) || exists u, k :: IsFinder(at, u, k, c) && k != h)
  {
    hide Inv, Do, Run, StoredIn, ByOther, OtherCanConfirm;
    var c := s.ops[t].comment;
    var purged := Do(s, PurgeTokens(t));
    var at := Run(purged, mid);
    var next := Do(at, RenewToken(t, h));
    NewestOnlyExactly(s, t, mid, h);
    PurgeIs(s, t);
    OpStaysThrough(purged, mid, t);
    LinkIs(at, t, h);
    DoKeeps(s, PurgeTokens(t));
    RunKeeps(purged, mid);
    DoKeeps(at, RenewToken(t, h));
    RenewOwner(at, t, h);
    ConfirmsExactly(next, c, h);
    RenewWaits(at, t, h, c);
    assert forall u, k :: IsFinder(next, u, k, c) <==> IsFinder(at, u, k, c);
  }

  lemma RenewOwner(s: State, t: nat, h: Hash)
    requires Inv(s) && t in s.ops && s.ops[t].RenewPurged?
    ensures s.ops[t].comment in Do(s, RenewToken(t, h)).owners
  {
    OpSound(s, t);
    hide Inv, Do;
    DoKeeps(s, RenewToken(t, h));
  }

  lemma RenewWaits(s: State, t: nat, h: Hash, c: Id)
    ensures Waits(Do(s, RenewToken(t, h)), c) <==> Waits(s, c)
  {
    hide Do;
    RenewStep(s, RenewToken(t, h));
  }

  /** A verify that found the old link before the purge confirms with it after the
      renewal, though no other link is stored any more. */
  lemma OldLinkConfirms(s: State, t: nat, t2: nat, c: Id, earlier: Hash, h: Hash, now: int)
    requires t !in s.ops && t2 !in s.ops && t != t2 && earlier != h && h !in s.tokens
    requires Waits(s, c) && IsLink(s, earlier, c) && s.tokens[earlier].expires > now
    ensures var renewed := Do(Run(s, [FindToken(t2, earlier, now), ExtendComment(t, c, now), PurgeTokens(t)]), RenewToken(t, h));
            var next := Do(renewed, Confirm(t2, now));
            && !OtherLinks(renewed, c, h)
            && c in next.comments && next.comments[c].status == Pending && next.log == s.log + [Confirmation(earlier, c)]
  {
    hide Run, Do;
    RunThree(s, FindToken(t2, earlier, now), ExtendComment(t, c, now), PurgeTokens(t));
    FindIs(s, t2, earlier, now);
    var s1 := Do(s, FindToken(t2, earlier, now));
    ExtendIs(s1, t, c, now);
    var s2 := Do(s1, ExtendComment(t, c, now));
    PurgeIs(s2, t);
    var s3 := Do(s2, PurgeTokens(t));
    LinkIs(s3, t, h);
    var s4 := Do(s3, RenewToken(t, h));
    assert forall k :: IsLink(s4, k, c) ==> k == h || IsLink(s3, k, c);
    FinderConfirms(s4, t2, earlier, c, now);
  }

  // ---- The 24 hours -----------------------------------------------------------------------------------

  /** The step gives the comment 24 more hours. */
  predicate Extends(s: State, a: Action, c: Id) {
    a.ExtendComment? && a.comment == c && Idle(s, a.t) && c in s.comments && s.comments[c].status == Unverified
  }

  /** When the comment was extended, in order. */
  function Extensions(s: State, actions: seq<Action>, c: Id): seq<int>
    decreases |actions|
  {
    if actions == [] then []
    else (if Extends(s, actions[0], c) then [actions[0].now] else []) + Extensions(Do(s, actions[0]), actions[1..], c)
  }

  predicate Waits(s: State, c: Id) { c in s.comments && s.comments[c].status == Unverified }

  function LastOf(times: seq<int>, first: int): int { if times == [] then first else times[|times| - 1] }

  lemma ExpiryStep(s: State, a: Action, c: Id)
    requires Inv(s) && Waits(s, c) && Waits(Do(s, a), c)
    ensures Do(s, a).comments[c].sent == s.comments[c].sent
    ensures Do(s, a).comments[c].expires == if Extends(s, a, c) then Some(a.now + VERIFY_MS) else s.comments[c].expires
  {
    hide Inv, DoSubmit, DoVerify, DoReply, DoRenew, DoOther;
    CommentSound(s, c);
    if IsSubmit(a) { SubmitSent(s, a, c); }
    else if IsVerify(a) { VerifySent(s, a, c); }
    else if IsReply(a) { ReplySent(s, a, c); }
    else if IsRenew(a) { RenewSent(s, a, c); }
    else { OtherSent(s, a, c); }
  }

  predicate SameTimes(s: State, next: State, c: Id)
    requires Waits(s, c)
  {
    Waits(next, c) ==> next.comments[c].sent == s.comments[c].sent && next.comments[c].expires == s.comments[c].expires
  }

  lemma SubmitSent(s: State, a: Action, c: Id)
    requires Waits(s, c) && c in s.owners && IsSubmit(a)
    ensures SameTimes(s, DoSubmit(s, a), c)
  {
    hide NewComment;
  }

  lemma VerifySent(s: State, a: Action, c: Id)
    requires Waits(s, c) && IsVerify(a)
    ensures SameTimes(s, DoVerify(s, a), c)
  {}

  lemma ReplySent(s: State, a: Action, c: Id)
    requires Waits(s, c) && IsReply(a)
    ensures SameTimes(s, DoReply(s, a), c)
  {
    hide Rewritten;
  }

  lemma RenewSent(s: State, a: Action, c: Id)
    requires Waits(s, c) && IsRenew(a) && Waits(DoRenew(s, a), c)
    ensures DoRenew(s, a).comments[c].sent == s.comments[c].sent
    ensures DoRenew(s, a).comments[c].expires == if Extends(s, a, c) then Some(a.now + VERIFY_MS) else s.comments[c].expires
  {}

  lemma OtherSent(s: State, a: Action, c: Id)
    requires Waits(s, c)
    ensures SameTimes(s, DoOther(s, a), c)
  {}

  lemma {:induction false} ExpiryRun(s: State, actions: seq<Action>, c: Id, from: int)
    requires Inv(s) && Waits(s, c) && s.comments[c].expires == Some(from + VERIFY_MS) && Waits(Run(s, actions), c)
    ensures Run(s, actions).comments[c].sent == s.comments[c].sent
    ensures Run(s, actions).comments[c].expires == Some(LastOf(Extensions(s, actions, c), from) + VERIFY_MS)
    decreases |actions|
  {
    hide Inv, Do;
    if actions != [] {
      var a, rest := actions[0], actions[1..];
      var next := Do(s, a);
      DoKeeps(s, a);
      StillWaits(s, a, rest, c);
      ExpiryStep(s, a, c);
      ExpiryRun(next, rest, c, if Extends(s, a, c) then a.now else from);
    }
  }

  /** What waits at the end has waited all along. */
  lemma StillWaits(s: State, a: Action, rest: seq<Action>, c: Id)
    requires Inv(s) && Waits(s, c) && Waits(Run(Do(s, a), rest), c)
    ensures Waits(Do(s, a), c)
  {
    hide Inv, Do, Run;
    var next := Do(s, a);
    CommentSound(s, c);
    StepOnward(s, a, c);
    DoKeeps(s, a);
    if c in next.comments { RankNeverFalls(next, rest, c); } else { GoneForGood(next, rest, c); }
  }

  lemma {:induction false} ExpirySince(s: State, actions: seq<Action>, c: Id)
    requires Inv(s) && c !in s.owners && Waits(Run(s, actions), c)
    ensures var doc := Run(s, actions).comments[c];
            doc.expires == Some(LastOf(Extensions(s, actions, c), doc.sent) + VERIFY_MS)
    decreases |actions|
  {
    hide Inv, Do, Extends;
    if actions == [] {
      CommentSound(s, c);
    } else {
      var a, rest := actions[0], actions[1..];
      var next := Do(s, a);
      DoKeeps(s, a);
      NotExtended(s, a, c);
      Arrives(s, a, c);
      if c !in next.owners {
        ExpirySince(next, rest, c);
      } else {
        if next.comments[c].status == Unverified {
          ExpiryRun(next, rest, c, next.comments[c].sent);
        } else {
          RankNeverFalls(next, rest, c);
        }
      }
    }
  }

  lemma NotExtended(s: State, a: Action, c: Id)
    requires Inv(s) && c !in s.owners
    ensures !Extends(s, a, c)
  {
    if c in s.comments { CommentSound(s, c); }
  }

  /** A comment id comes into use by a submit, with 24 hours from then. */
  lemma Arrives(s: State, a: Action, c: Id)
    requires Inv(s) && c !in s.owners
    ensures var next := Do(s, a);
            && (c in next.owners ==> c in next.comments)
            && (c in next.owners && next.comments[c].status == Unverified ==>
                  next.comments[c].expires == Some(next.comments[c].sent + VERIFY_MS))
  {
    hide Inv, DoVerify, DoReply, DoRenew, DoOther;
    if !IsSubmit(a) { NoOwner(s, a); }
  }

  lemma NoOwner(s: State, a: Action)
    requires !IsSubmit(a)
    ensures Do(s, a).owners == s.owners
  {
    hide DoSubmit, DoVerify, DoReply, DoRenew, DoOther;
    if IsVerify(a) { VerifyOwners(s, a); }
    else if IsReply(a) { ReplyOwners(s, a); }
    else if IsRenew(a) { RenewOwners(s, a); }
    else { OtherOwners(s, a); }
  }

  lemma VerifyOwners(s: State, a: Action)
    requires IsVerify(a)
    ensures DoVerify(s, a).owners == s.owners
  {}

  lemma ReplyOwners(s: State, a: Action)
    requires IsReply(a)
    ensures DoReply(s, a).owners == s.owners
  {
    hide Rewritten;
  }

  lemma RenewOwners(s: State, a: Action)
    requires IsRenew(a)
    ensures DoRenew(s, a).owners == s.owners
  {}

  lemma OtherOwners(s: State, a: Action)
    ensures DoOther(s, a).owners == s.owners
  {}

  /** After every run, an unverified comment expires 24 hours after it was sent or,
      if it was extended, after it last was. */
  lemma ExpiresExactly(actions: seq<Action>, c: Id)
    requires Waits(Run(EMPTY, actions), c)
    ensures var doc := Run(EMPTY, actions).comments[c];
            var moved := Extensions(EMPTY, actions, c);
            && doc.expires == Some(LastOf(moved, doc.sent) + VERIFY_MS)
            && (doc.expires == Some(doc.sent + VERIFY_MS) <==> moved == [] || moved[|moved| - 1] == doc.sent)
  {
    hide Run, Extensions;
    ExpirySince(EMPTY, actions, c);
  }

  /** A comment sent at 0 and extended at 5 expires 24 hours after 5. */
  lemma ExtendedExample()
    ensures var s := Run(EMPTY, [NewCommenter(0, 7), InsertComment(0, 1, 0), ExtendComment(1, 1, 5)]);
            Waits(s, 1) && s.comments[1].sent == 0 && s.comments[1].expires == Some(5 + VERIFY_MS)
  {
    hide Run, Do;
    var a, b, c := NewCommenter(0, 7), InsertComment(0, 1, 0), ExtendComment(1, 1, 5);
    RunThree(EMPTY, a, b, c);
    SubmitStep(EMPTY, a);
    var s1 := DoSubmit(EMPTY, a);
    SubmitStep(s1, b);
    RenewStep(DoSubmit(s1, b), c);
  }

  lemma SubmitStep(s: State, a: Action)
    requires IsSubmit(a)
    ensures Do(s, a) == DoSubmit(s, a)
  {}
}
