/** What every step of the comment protocol does to a comment, a link and a user, field
    by field, and what the last step that set a comment's status makes of it
    (src/db/cms_comments.c). */
module CommentSteps {
  import opened Options
  import opened Comments

  // ---- What a step asks of a comment ----------------------------------------------------------

  /** The step stores the comment for the first time. */
  predicate Arrives(s: State, a: Action, c: Id) {
    a.InsertComment? && a.comment == c && a.t in s.ops && s.ops[a.t].SubmitFound? && c !in s.owners
  }

  /** The step confirms the waiting comment with a link that was found. */
  predicate Confirms(s: State, a: Action, c: Id) {
    && a.Confirm? && a.t in s.ops && s.ops[a.t].VerifyFound? && s.ops[a.t].comment == c
    && c in s.comments && s.comments[c].status == Unverified
  }

  /** A moderator asks for a status. */
  predicate Moderates(s: State, a: Action, c: Id) { a.SetStatus? && a.comment == c && c in s.comments }

  /** A reply to a pending comment approves it. */
  predicate ApprovesReplied(s: State, a: Action, c: Id) {
    a.ApproveReplied? && a.t in s.ops && s.ops[a.t].ReplyStored? && s.ops[a.t].comment == c && c in s.comments
  }

  predicate Extends(s: State, a: Action, c: Id) {
    a.ExtendComment? && a.comment == c && Idle(s, a.t) && c in s.comments && s.comments[c].status == Unverified
  }

  /** The step writes a reply: the comment still has the status it was seen with. */
  predicate Replies(s: State, a: Action, c: Id) {
    && a.WriteReply? && a.t in s.ops && s.ops[a.t].ReplyFound? && s.ops[a.t].comment == c
    && c in s.comments && s.comments[c].status == s.ops[a.t].status
  }

  /** The status a step gives a comment, if it gives one. */
  function Asks(s: State, a: Action, c: Id): Option<Status> {
    if Arrives(s, a, c) then Some(if s.ops[a.t].remembered then Pending else Unverified)
    else if Confirms(s, a, c) then Some(Pending)
    else if Moderates(s, a, c) then Some(if a.approve then Approved else Rejected)
    else if ApprovesReplied(s, a, c) then Some(Approved)
    else None
  }

  // ---- Field by field --------------------------------------------------------------------------

  const DAY_MS: int := 86400000

  /** A comment as it arrives. */
  predicate NewDoc(s: State, a: Action, doc: Comment)
    requires a.InsertComment? && a.t in s.ops && s.ops[a.t].SubmitFound?
  {
    var trusted := s.ops[a.t].remembered;
    && doc.commenter == s.ops[a.t].user && doc.sent == a.now && doc.moderator.None? && doc.reply.None?
    && (trusted ==> doc.status == Pending && doc.expires.None? && doc.verified == Some(a.now))
    && (!trusted ==> doc.status == Unverified && doc.expires == Some(a.now + DAY_MS) && doc.verified.None?)
  }

  /** A reply as it is written: who, what and when; the first date is kept by one who saw a reply. */
  predicate NewReply(s: State, a: Action, was: Option<Reply>, reply: Option<Reply>)
    requires a.WriteReply? && a.t in s.ops && s.ops[a.t].ReplyFound?
  {
    && reply.Some? && reply.value.user == s.ops[a.t].user && reply.value.text == a.text
    && (s.ops[a.t].had ==> reply.value.updated == Some(a.now) && reply.value.created == if was.Some? then was.value.created else None)
    && (!s.ops[a.t].had ==> reply.value.updated.None? && reply.value.created == Some(a.now))
  }

  predicate NextDoc(s: State, a: Action, c: Id, was: Comment, doc: Comment) {
    && doc.commenter == was.commenter && doc.sent == was.sent
    && doc.status == (if Asks(s, a, c).Some? then Asks(s, a, c).value else was.status)
    && doc.moderator == (if Moderates(s, a, c) then Some(a.moderator)
                         else if ApprovesReplied(s, a, c) then Some(s.ops[a.t].user) else was.moderator)
    && doc.verified == (if Confirms(s, a, c) then Some(a.now) else was.verified)
    && doc.expires == (if Asks(s, a, c).Some? then None else if Extends(s, a, c) then Some(a.now + DAY_MS) else was.expires)
    && (if Replies(s, a, c) then NewReply(s, a, was.reply, doc.reply)
        else if a == DeleteReply(c) then doc.reply.None? else doc.reply == was.reply)
  }

  /** The step removes the comment: it is deleted, or its time has come. */
  predicate Leaves(s: State, a: Action, c: Id) {
    a == DeleteComment(c)
    || (a.ExpireComment? && a.comment == c && c in s.comments && s.comments[c].expires.Some?
        && s.comments[c].expires.value <= a.now)
  }

  ghost predicate DocStepped(s: State, a: Action, c: Id, next: State) {
    && (c in next.comments <==> (c in s.comments && !Leaves(s, a, c)) || Arrives(s, a, c))
    && (c in next.comments && Arrives(s, a, c) ==> NewDoc(s, a, next.comments[c]))
    && (c in next.comments && !Arrives(s, a, c) && c in s.comments ==> NextDoc(s, a, c, s.comments[c], next.comments[c]))
  }

  /** The step says nothing about the comment. */
  predicate Quiet(s: State, a: Action, c: Id) {
    && !Arrives(s, a, c) && !Confirms(s, a, c) && !Moderates(s, a, c) && !ApprovesReplied(s, a, c) && !Extends(s, a, c)
    && !Replies(s, a, c) && a != DeleteReply(c) && !Leaves(s, a, c)
  }

  predicate SameDoc(s: State, next: State, c: Id) {
    (c in next.comments <==> c in s.comments) && (c in s.comments ==> next.comments[c] == s.comments[c])
  }

  lemma QuietDoc(s: State, a: Action, c: Id, next: State)
    requires Quiet(s, a, c) && SameDoc(s, next, c)
    ensures DocStepped(s, a, c, next)
  {
    hide Arrives, Confirms, Moderates, ApprovesReplied, Extends, Replies, Leaves;
  }

  lemma SubmitDoc(s: State, a: Action, c: Id)
    requires IsSubmit(a)
    ensures DocStepped(s, a, c, DoSubmit(s, a))
  {
    hide DocStepped;
    if Arrives(s, a, c) { ArriveDoc(s, a, c); } else { QuietDoc(s, a, c, DoSubmit(s, a)); }
  }

  lemma ArriveDoc(s: State, a: Action, c: Id)
    requires Arrives(s, a, c)
    ensures DocStepped(s, a, c, DoSubmit(s, a))
  {
    hide NextDoc;
    assert VERIFY_MS == DAY_MS;
  }

  lemma VerifyDoc(s: State, a: Action, c: Id)
    requires IsVerify(a)
    ensures DocStepped(s, a, c, DoVerify(s, a))
  {
    hide DocStepped;
    if Confirms(s, a, c) { ConfirmDoc(s, a, c); } else { QuietDoc(s, a, c, DoVerify(s, a)); }
  }

  lemma ConfirmDoc(s: State, a: Action, c: Id)
    requires Confirms(s, a, c)
    ensures DocStepped(s, a, c, DoVerify(s, a))
  {
    hide NewDoc, NewReply;
  }

  lemma ReplyDoc(s: State, a: Action, c: Id)
    requires IsReply(a)
    ensures DocStepped(s, a, c, DoReply(s, a))
  {
    hide DocStepped;
    if Replies(s, a, c) {
      WriteDoc(s, a, c);
    } else if ApprovesReplied(s, a, c) {
      ApproveDoc(s, a, c);
    } else if a == DeleteReply(c) {
      UnreplyDoc(s, c);
    } else {
      QuietDoc(s, a, c, DoReply(s, a));
    }
  }

  lemma WriteDoc(s: State, a: Action, c: Id)
    requires Replies(s, a, c)
    ensures DocStepped(s, a, c, DoReply(s, a))
  {
    hide NewDoc;
  }

  lemma ApproveDoc(s: State, a: Action, c: Id)
    requires ApprovesReplied(s, a, c)
    ensures DocStepped(s, a, c, DoReply(s, a))
  {
    hide NewDoc, NewReply;
  }

  lemma UnreplyDoc(s: State, c: Id)
    ensures DocStepped(s, DeleteReply(c), c, DoReply(s, DeleteReply(c)))
  {
    hide NewDoc, NewReply;
  }

  lemma RenewDoc(s: State, a: Action, c: Id)
    requires IsRenew(a)
    ensures DocStepped(s, a, c, DoRenew(s, a))
  {
    hide DocStepped;
    if Extends(s, a, c) { ExtendDoc(s, a, c); } else { QuietDoc(s, a, c, DoRenew(s, a)); }
  }

  lemma ExtendDoc(s: State, a: Action, c: Id)
    requires Extends(s, a, c)
    ensures DocStepped(s, a, c, DoRenew(s, a))
  {
    hide NewDoc, NewReply;
    assert VERIFY_MS == DAY_MS;
  }

  lemma OtherDoc(s: State, a: Action, c: Id)
    requires !IsSubmit(a) && !IsVerify(a) && !IsReply(a) && !IsRenew(a)
    ensures DocStepped(s, a, c, DoOther(s, a))
  {
    hide DocStepped;
    if Moderates(s, a, c) {
      ModerateDoc(s, a, c);
    } else if Leaves(s, a, c) {
      LeaveDoc(s, a, c);
    } else {
      QuietDoc(s, a, c, DoOther(s, a));
    }
  }

  lemma ModerateDoc(s: State, a: Action, c: Id)
    requires Moderates(s, a, c)
    ensures DocStepped(s, a, c, DoOther(s, a))
  {
    hide NewDoc, NewReply;
  }

  lemma LeaveDoc(s: State, a: Action, c: Id)
    requires Leaves(s, a, c)
    ensures DocStepped(s, a, c, DoOther(s, a))
  {
    hide NewDoc, NextDoc;
  }

  /** Every step, on every comment: whether it is stored, and every field of it. */
  lemma DocStep(s: State, a: Action, c: Id)
    ensures DocStepped(s, a, c, Do(s, a))
  {
    hide DoSubmit, DoVerify, DoReply, DoRenew, DoOther, DocStepped;
    if IsSubmit(a) {
      SubmitDoc(s, a, c);
    } else if IsVerify(a) {
      VerifyDoc(s, a, c);
    } else if IsReply(a) {
      ReplyDoc(s, a, c);
    } else if IsRenew(a) {
      RenewDoc(s, a, c);
    } else {
      OtherDoc(s, a, c);
    }
  }

  // ---- Links and users ---------------------------------------------------------------------------

  /** The step stores this link for its comment. */
  predicate StoresLink(s: State, a: Action, h: Hash) {
    && h !in s.tokens
    && ((a.InsertToken? && a.hash == h && a.t in s.ops && s.ops[a.t].SubmitStored?)
        || (a.RenewToken? && a.hash == h && a.t in s.ops && s.ops[a.t].RenewPurged?))
  }

  /** The step takes the link away: used, replaced by a renewal, or out of date. */
  predicate DropsLink(s: State, a: Action, h: Hash)
    requires h in s.tokens
  {
    || (a.SpendToken? && a.t in s.ops && (s.ops[a.t].VerifyTaken? || s.ops[a.t].VerifyMissed?) && s.ops[a.t].hash == h)
    || (a.PurgeTokens? && a.t in s.ops && s.ops[a.t].RenewTaken? && s.ops[a.t].comment == s.tokens[h].comment)
    || (a.ExpireToken? && a.hash == h && s.tokens[h].expires <= a.now)
  }

  ghost predicate LinkStepped(s: State, a: Action, h: Hash, next: State) {
    && (h in next.tokens <==> (h in s.tokens && !DropsLink(s, a, h)) || StoresLink(s, a, h))
    && (h in next.tokens && h in s.tokens ==> next.tokens[h] == s.tokens[h])
    && (h in next.tokens && StoresLink(s, a, h) ==> next.tokens[h] == Token(s.ops[a.t].comment, s.ops[a.t].until))
  }

  lemma LinkStep(s: State, a: Action, h: Hash)
    ensures LinkStepped(s, a, h, Do(s, a))
  {
    hide DoSubmit, DoVerify, DoReply, DoRenew, DoOther, LinkStepped;
    if IsSubmit(a) {
      SubmitLink(s, a, h);
    } else if IsVerify(a) {
      VerifyLink(s, a, h);
    } else if IsReply(a) {
      ReplyLink(s, a, h);
    } else if IsRenew(a) {
      RenewLink(s, a, h);
    } else {
      OtherLink(s, a, h);
    }
  }

  lemma SubmitLink(s: State, a: Action, h: Hash)
    requires IsSubmit(a)
    ensures LinkStepped(s, a, h, DoSubmit(s, a))
  {}

  lemma VerifyLink(s: State, a: Action, h: Hash)
    requires IsVerify(a)
    ensures LinkStepped(s, a, h, DoVerify(s, a))
  {}

  lemma ReplyLink(s: State, a: Action, h: Hash)
    requires IsReply(a)
    ensures LinkStepped(s, a, h, DoReply(s, a))
  {}

  lemma RenewLink(s: State, a: Action, h: Hash)
    requires IsRenew(a)
    ensures LinkStepped(s, a, h, DoRenew(s, a))
  {}

  lemma OtherLink(s: State, a: Action, h: Hash)
    requires !IsSubmit(a) && !IsVerify(a) && !IsReply(a) && !IsRenew(a)
    ensures LinkStepped(s, a, h, DoOther(s, a))
  {}

  predicate Joins(s: State, a: Action, u: Id) { a.NewCommenter? && a.user == u && Idle(s, a.t) && u !in s.known }

  /** The step notes that the user's address is proved. */
  predicate Proves(s: State, a: Action, u: Id) {
    a.MarkVerified? && a.t in s.ops && s.ops[a.t].VerifySpent? && s.ops[a.t].user == u
  }

  ghost predicate UserStepped(s: State, a: Action, u: Id, next: State) {
    && (u in next.users <==> (u in s.users && a != RemoveUser(u)) || Joins(s, a, u))
    && (u in next.users && Joins(s, a, u) ==> next.users[u] == User(None, false))
    && (u in next.users && !Joins(s, a, u) && u in s.users ==>
          && next.users[u].verified == (if Proves(s, a, u) then Some(s.ops[a.t].now) else s.users[u].verified)
          && next.users[u].blocked == (if a.Block? && a.user == u then a.block else s.users[u].blocked))
  }

  lemma UserStep(s: State, a: Action, u: Id)
    ensures UserStepped(s, a, u, Do(s, a))
  {
    hide DoSubmit, DoVerify, DoReply, DoRenew, DoOther, UserStepped;
    if IsSubmit(a) {
      SubmitUser(s, a, u);
    } else if IsVerify(a) {
      VerifyUser(s, a, u);
    } else if IsReply(a) {
      ReplyUser(s, a, u);
    } else if IsRenew(a) {
      RenewUser(s, a, u);
    } else {
      OtherUser(s, a, u);
    }
  }

  lemma SubmitUser(s: State, a: Action, u: Id)
    requires IsSubmit(a)
    ensures UserStepped(s, a, u, DoSubmit(s, a))
  {}

  lemma VerifyUser(s: State, a: Action, u: Id)
    requires IsVerify(a)
    ensures UserStepped(s, a, u, DoVerify(s, a))
  {}

  lemma ReplyUser(s: State, a: Action, u: Id)
    requires IsReply(a)
    ensures UserStepped(s, a, u, DoReply(s, a))
  {}

  lemma RenewUser(s: State, a: Action, u: Id)
    requires IsRenew(a)
    ensures UserStepped(s, a, u, DoRenew(s, a))
  {}

  lemma OtherUser(s: State, a: Action, u: Id)
    requires !IsSubmit(a) && !IsVerify(a) && !IsReply(a) && !IsRenew(a)
    ensures UserStepped(s, a, u, DoOther(s, a))
  {}

  // ---- The last word on a comment ------------------------------------------------------------------

  /** Step i of the run is the last one that gives the comment a status. */
  ghost predicate LastSays(actions: seq<Action>, c: Id, i: nat, status: Status) {
    && i < |actions| && Asks(Run(EMPTY, actions[..i]), actions[i], c) == Some(status)
    && forall j :: i < j < |actions| ==> Asks(Run(EMPTY, actions[..j]), actions[j], c).None?
  }

  /** After every run the status of a stored comment is the one the last step that gave
      it a status asked for. */
  lemma {:induction false} LastDecides(actions: seq<Action>, c: Id) returns (i: nat)
    requires c in Run(EMPTY, actions).comments
    ensures LastSays(actions, c, i, Run(EMPTY, actions).comments[c].status)
    decreases |actions|
  {
    hide Do, Run, Asks;
    if actions == [] {
      NothingRun(actions);
    } else {
      var n := |actions| - 1;
      var before, a := actions[..n], actions[n];
      assert actions == before + [a];
      RunSnoc(EMPTY, before, a);
      var s := Run(EMPTY, before);
      DocStep(s, a, c);
      StatusOf(s, a, c);
      assert forall j :: 0 <= j <= n ==> actions[..j] == before[..j];
      if Asks(s, a, c).Some? {
        i := n;
      } else {
        i := LastDecides(before, c);
        SaysStill(before, a, c, i, Run(EMPTY, before).comments[c].status);
      }
    }
  }

  lemma NothingRun(actions: seq<Action>)
    requires actions == []
    ensures Run(EMPTY, actions).comments == map[]
  {}

  lemma StatusOf(s: State, a: Action, c: Id)
    requires DocStepped(s, a, c, Do(s, a)) && c in Do(s, a).comments
    ensures Asks(s, a, c).Some? ==> Do(s, a).comments[c].status == Asks(s, a, c).value
    ensures Asks(s, a, c).None? ==> c in s.comments && Do(s, a).comments[c].status == s.comments[c].status
  {
    hide Do;
  }

  lemma SaysStill(before: seq<Action>, a: Action, c: Id, i: nat, status: Status)
    requires LastSays(before, c, i, status) && Asks(Run(EMPTY, before), a, c).None?
    ensures LastSays(before + [a], c, i, status)
  {
    hide Run, Asks;
    var actions := before + [a];
    assert forall j :: 0 <= j <= |before| ==> actions[..j] == before[..j];
    assert before[..|before|] == before;
  }

  lemma OneLast(actions: seq<Action>, c: Id, i: nat, x: Status, j: nat, y: Status)
    requires LastSays(actions, c, i, x) && LastSays(actions, c, j, y)
    ensures x == y
  {
    hide Run, Asks;
  }

  /** A stored comment is rejected exactly when the last step on its status was a
      moderator's rejection, and approved exactly when it was a moderator's approval or
      that of a reply. */
  lemma VerdictExactly(actions: seq<Action>, c: Id)
    requires c in Run(EMPTY, actions).comments
    ensures var status := Run(EMPTY, actions).comments[c].status;
            && (status == Rejected <==> exists i: nat :: LastSays(actions, c, i, Rejected) && Moderation(actions, c, i, false))
            && (status == Approved <==> exists i: nat :: LastSays(actions, c, i, Approved) && Approval(actions, c, i))
  {
    hide Run, LastSays;
    var status := Run(EMPTY, actions).comments[c].status;
    var i := LastDecides(actions, c);
    SaysBy(actions, c, i, status);
    forall k: nat, other | LastSays(actions, c, k, other) ensures other == status {
      OneLast(actions, c, k, other, i, status);
    }
  }

  /** Step i is a moderator's word on the comment. */
  ghost predicate Moderation(actions: seq<Action>, c: Id, i: nat, approve: bool) {
    i < |actions| && actions[i].SetStatus? && actions[i].comment == c && actions[i].approve == approve
  }

  ghost predicate Approval(actions: seq<Action>, c: Id, i: nat) {
    Moderation(actions, c, i, true) || (i < |actions| && actions[i].ApproveReplied?)
  }

  lemma SaysBy(actions: seq<Action>, c: Id, i: nat, status: Status)
    requires LastSays(actions, c, i, status)
    ensures i < |actions| && (status == Rejected ==> Moderation(actions, c, i, false))
    ensures status == Approved ==> Approval(actions, c, i)
  {
    hide Run;
  }
}
