/** The life of a blog comment (src/db/cms_comments.c). Every operation is a few
    database calls; each call is one atomic step on the stored documents, and the
    steps of different operations interleave freely. */
module Comments {
  import opened Options

  type Id = nat
  type Hash = nat

  // ---- Stored documents ------------------------------------------------------------------

  datatype Status = Unverified | Pending | Approved | Rejected

  datatype Reply = Reply(user: Id, text: string, created: Option<int>, updated: Option<int>)

  datatype Comment = Comment(
    commenter: Id, sent: int, status: Status, expires: Option<int>, verified: Option<int>,
    moderator: Option<Id>, reply: Option<Reply>)

  datatype User = User(verified: Option<int>, blocked: bool)

  datatype Token = Token(comment: Id, expires: int)

  // ---- Operations on their way ---------------------------------------------------------------

  /** Where an operation stands between two of its database calls. */
  datatype Op =
    | SubmitFound(user: Id, remembered: bool)
    | SubmitStored(comment: Id, until: int)
    | VerifyFound(hash: Hash, comment: Id)
    | VerifyTaken(hash: Hash, comment: Id, user: Id, now: int)
    | VerifyMissed(hash: Hash)
    | VerifySpent(comment: Id, user: Id, now: int)
    | ReplyFound(comment: Id, status: Status, had: bool, user: Id)
    | ReplyStored(comment: Id, user: Id)
    | RenewTaken(comment: Id, until: int)
    | RenewPurged(comment: Id, until: int)

  /** A verify that succeeded. */
  datatype Confirmation = Confirmation(hash: Hash, comment: Id)

  /** The documents, the operations on their way, and what has happened: whose
      each comment ever stored was, the tokens ever issued and for which comment,
      and the confirmations in order. */
  datatype State = State(
    comments: map<Id, Comment>, users: map<Id, User>, tokens: map<Hash, Token>,
    ops: map<nat, Op>,
    owners: map<Id, Id>, known: set<Id>, issued: set<(Hash, Id)>, log: seq<Confirmation>)

  const EMPTY := State(map[], map[], map[], map[], map[], {}, {}, [])

  const VERIFY_MS: int := 24 * 3600 * 1000

  /** One database call by operation t, with the clock, random values and
      arguments that the call sees. */
  datatype Action =
    | FindCommenter(t: nat, user: Id, remembered: Option<Id>)
    | NewCommenter(t: nat, user: Id)
    | InsertComment(t: nat, comment: Id, now: int)
    | InsertToken(t: nat, hash: Hash)
    | FindToken(t: nat, hash: Hash, now: int)
    | Confirm(t: nat, now: int)
    | SpendToken(t: nat)
    | MarkVerified(t: nat)
    | SetStatus(comment: Id, approve: bool, moderator: Id)
    | FindForReply(t: nat, comment: Id, user: Id)
    | WriteReply(t: nat, text: string, now: int)
    | ApproveReplied(t: nat)
    | DeleteReply(comment: Id)
    | DeleteComment(comment: Id)
    | Block(user: Id, block: bool)
    | RemoveUser(user: Id)
    | ExtendComment(t: nat, comment: Id, now: int)
    | PurgeTokens(t: nat)
    | RenewToken(t: nat, hash: Hash)
    | ExpireComment(comment: Id, now: int)
    | ExpireToken(hash: Hash, now: int)
    | Abandon(t: nat)

  predicate Idle(s: State, t: nat) { t !in s.ops }

  function Moved(s: State, t: nat, op: Op): State { s.(ops := s.ops[t := op]) }

  function Finished(s: State, t: nat): State { s.(ops := s.ops - {t}) }

  function WithComment(s: State, c: Id, doc: Comment): State { s.(comments := s.comments[c := doc]) }

  function Moderated(doc: Comment, approve: bool, moderator: Id): Comment {
    doc.(status := if approve then Approved else Rejected, moderator := Some(moderator), expires := None)
  }

  function ModeratedIn(s: State, c: Id, approve: bool, moderator: Id): State {
    if c in s.comments then WithComment(s, c, Moderated(s.comments[c], approve, moderator)) else s
  }

  function NewComment(user: Id, remembered: bool, now: int): Comment {
    if remembered then Comment(user, now, Pending, None, Some(now), None, None)
    else Comment(user, now, Unverified, Some(now + VERIFY_MS), None, None, None)
  }

  /** Written again, a reply keeps its first date and says when it changed: the
      fields are set one by one, on whatever reply is there. */
  function Rewritten(was: Option<Reply>, had: bool, user: Id, text: string, now: int): Reply {
    if had then Reply(user, text, if was.Some? then was.value.created else None, Some(now))
    else Reply(user, text, Some(now), None)
  }

  /** Stores a token unless its hash is taken. */
  function WithToken(s: State, h: Hash, c: Id, until: int): State {
    if h in s.tokens then s
    else s.(tokens := s.tokens[h := Token(c, until)], issued := s.issued + {(h, c)})
  }

  // ---- What each call does ----------------------------------------------------------------------

  function DoSubmit(s: State, a: Action): State {
    match a
    case FindCommenter(t, u, remembered) =>
      if Idle(s, t) && u in s.users && !s.users[u].blocked then
        Moved(s, t, SubmitFound(u, s.users[u].verified.Some? && remembered == Some(u)))
      else s
    case NewCommenter(t, u) =>
      if Idle(s, t) && u !in s.known then
        Moved(s.(users := s.users[u := User(None, false)], known := s.known + {u}), t, SubmitFound(u, false))
      else s
    case InsertComment(t, c, now) =>
      if t in s.ops && s.ops[t].SubmitFound? && c !in s.owners then
        var op := s.ops[t];
        var next := WithComment(s, c, NewComment(op.user, op.remembered, now)).(owners := s.owners[c := op.user]);
        if op.remembered then Finished(next, t) else Moved(next, t, SubmitStored(c, now + VERIFY_MS))
      else s
    case InsertToken(t, h) =>
      if t in s.ops && s.ops[t].SubmitStored? then
        Finished(WithToken(s, h, s.ops[t].comment, s.ops[t].until), t)
      else s
    case _ => s
  }

  function DoVerify(s: State, a: Action): State {
    match a
    case FindToken(t, h, now) =>
      if Idle(s, t) && h in s.tokens && s.tokens[h].expires > now then
        Moved(s, t, VerifyFound(h, s.tokens[h].comment))
      else s
    case Confirm(t, now) =>
      if t in s.ops && s.ops[t].VerifyFound? then
        var op := s.ops[t];
        var c := op.comment;
        if c in s.comments && s.comments[c].status == Unverified then
          var doc := s.comments[c];
          var next := WithComment(s, c, doc.(status := Pending, verified := Some(now), expires := None));
          Moved(next.(log := s.log + [Confirmation(op.hash, c)]), t, VerifyTaken(op.hash, c, doc.commenter, now))
        else Moved(s, t, VerifyMissed(op.hash))
      else s
    case SpendToken(t) =>
      if t in s.ops && s.ops[t].VerifyTaken? then
        var op := s.ops[t];
        Moved(s.(tokens := s.tokens - {op.hash}), t, VerifySpent(op.comment, op.user, op.now))
      else if t in s.ops && s.ops[t].VerifyMissed? then
        Finished(s.(tokens := s.tokens - {s.ops[t].hash}), t)
      else s
    case MarkVerified(t) =>
      if t in s.ops && s.ops[t].VerifySpent? then
        var op := s.ops[t];
        var next := if op.user in s.users then s.(users := s.users[op.user := s.users[op.user].(verified := Some(op.now))]) else s;
        Finished(next, t)
      else s
    case _ => s
  }

  function DoReply(s: State, a: Action): State {
    match a
    case FindForReply(t, c, u) =>
      if Idle(s, t) && c in s.comments && s.comments[c].status in {Pending, Approved} then
        Moved(s, t, ReplyFound(c, s.comments[c].status, s.comments[c].reply.Some?, u))
      else s
    case WriteReply(t, text, now) =>
      if t in s.ops && s.ops[t].ReplyFound? then
        var op := s.ops[t];
        var c := op.comment;
        if c in s.comments && s.comments[c].status == op.status then
          var doc := s.comments[c];
          var next := WithComment(s, c, doc.(reply := Some(Rewritten(doc.reply, op.had, op.user, text, now))));
          if op.status == Pending then Moved(next, t, ReplyStored(c, op.user)) else Finished(next, t)
        else Finished(s, t)
      else s
    case ApproveReplied(t) =>
      if t in s.ops && s.ops[t].ReplyStored? then
        Finished(ModeratedIn(s, s.ops[t].comment, true, s.ops[t].user), t)
      else s
    case DeleteReply(c) =>
      if c in s.comments then WithComment(s, c, s.comments[c].(reply := None)) else s
    case _ => s
  }

  function DoRenew(s: State, a: Action): State {
    match a
    case ExtendComment(t, c, now) =>
      if Idle(s, t) && c in s.comments && s.comments[c].status == Unverified then
        Moved(WithComment(s, c, s.comments[c].(expires := Some(now + VERIFY_MS))), t, RenewTaken(c, now + VERIFY_MS))
      else s
    case PurgeTokens(t) =>
      if t in s.ops && s.ops[t].RenewTaken? then
        var op := s.ops[t];
        Moved(s.(tokens := map h | h in s.tokens && s.tokens[h].comment != op.comment :: s.tokens[h]), t,
              RenewPurged(op.comment, op.until))
      else s
    case RenewToken(t, h) =>
      if t in s.ops && s.ops[t].RenewPurged? then
        Finished(WithToken(s, h, s.ops[t].comment, s.ops[t].until), t)
      else s
    case _ => s
  }

  function DoOther(s: State, a: Action): State {
    match a
    case SetStatus(c, approve, m) => ModeratedIn(s, c, approve, m)
    case DeleteComment(c) => s.(comments := s.comments - {c})
    case Block(u, b) =>
      if u in s.users then s.(users := s.users[u := s.users[u].(blocked := b)]) else s
    case RemoveUser(u) => s.(users := s.users - {u})
    case ExpireComment(c, now) =>
      if c in s.comments && s.comments[c].expires.Some? && s.comments[c].expires.value <= now then
        s.(comments := s.comments - {c})
      else s
    case ExpireToken(h, now) =>
      if h in s.tokens && s.tokens[h].expires <= now then s.(tokens := s.tokens - {h}) else s
    case Abandon(t) => Finished(s, t)
    case _ => s
  }

  predicate IsSubmit(a: Action) { a.FindCommenter? || a.NewCommenter? || a.InsertComment? || a.InsertToken? }

  predicate IsVerify(a: Action) { a.FindToken? || a.Confirm? || a.SpendToken? || a.MarkVerified? }

  predicate IsReply(a: Action) { a.FindForReply? || a.WriteReply? || a.ApproveReplied? || a.DeleteReply? }

  predicate IsRenew(a: Action) { a.ExtendComment? || a.PurgeTokens? || a.RenewToken? }

  /** One step. A call that its operation is not ready for changes nothing. */
  function Do(s: State, a: Action): State {
    if IsSubmit(a) then DoSubmit(s, a)
    else if IsVerify(a) then DoVerify(s, a)
    else if IsReply(a) then DoReply(s, a)
    else if IsRenew(a) then DoRenew(s, a)
    else DoOther(s, a)
  }

  function Run(s: State, actions: seq<Action>): State
    decreases |actions|
  {
    if actions == [] then s else Run(Do(s, actions[0]), actions[1..])
  }

  // ---- Invariants -----------------------------------------------------------------------------------

  /** The comment was confirmed with a token. */
  ghost predicate Confirmed(log: seq<Confirmation>, c: Id) {
    exists i :: 0 <= i < |log| && log[i].comment == c
  }

  /** Some comment of this user was confirmed with a token. */
  ghost predicate Proven(s: State, u: Id) {
    exists i :: 0 <= i < |s.log| && s.log[i].comment in s.owners && s.owners[s.log[i].comment] == u
  }

  ghost predicate CommentOk(s: State, c: Id, doc: Comment) {
    && c in s.owners && s.owners[c] == doc.commenter
    && (doc.expires.Some? <==> doc.status == Unverified)
    && (Confirmed(s.log, c) ==> doc.status != Unverified)
    && (doc.status == Pending ==> Confirmed(s.log, c) || Proven(s, doc.commenter))
  }

  ghost predicate OpOk(s: State, op: Op) {
    match op
    case SubmitFound(u, remembered) => remembered ==> Proven(s, u)
    case SubmitStored(c, _) => c in s.owners
    case VerifyFound(h, c) => (h, c) in s.issued
    case VerifyTaken(h, c, u, _) => Proven(s, u)
    case VerifyMissed(_) => true
    case VerifySpent(c, u, _) => Proven(s, u)
    case ReplyFound(c, _, _, _) => c in s.owners
    case ReplyStored(c, _) => c in s.owners
    case RenewTaken(c, _) => c in s.owners
    case RenewPurged(c, _) => c in s.owners
  }

  /** Confirmations name issued tokens and never the same comment twice. */
  ghost predicate LogOk(s: State) {
    && (forall i :: 0 <= i < |s.log| ==> (s.log[i].hash, s.log[i].comment) in s.issued)
    && (forall i, j :: 0 <= i < j < |s.log| ==> s.log[i].comment != s.log[j].comment)
  }

  ghost predicate Inv(s: State) {
    && (forall c | c in s.comments :: CommentOk(s, c, s.comments[c]))
    && (forall u | u in s.users :: u in s.known && (s.users[u].verified.Some? ==> Proven(s, u)))
    && (forall h | h in s.tokens :: (h, s.tokens[h].comment) in s.issued)
    && (forall t | t in s.ops :: OpOk(s, s.ops[t]))
    && (forall p | p in s.issued :: p.1 in s.owners)
    && LogOk(s)
  }

  // ---- Every step keeps them --------------------------------------------------------------------------

  /** What has happened stays so. */
  ghost predicate Grows(s: State, next: State) {
    && (forall c | c in s.owners :: c in next.owners && next.owners[c] == s.owners[c])
    && s.issued <= next.issued
    && s.log <= next.log
  }

  lemma ProvenStays(s: State, next: State, u: Id)
    requires Grows(s, next) && Proven(s, u)
    ensures Proven(next, u)
  {
    var i :| 0 <= i < |s.log| && s.log[i].comment in s.owners && s.owners[s.log[i].comment] == u;
    assert next.log[i] == s.log[i];
  }

  lemma OpStays(s: State, next: State, op: Op)
    requires Grows(s, next) && OpOk(s, op)
    ensures OpOk(next, op)
  {
    hide Proven;
    forall u | Proven(s, u)
      ensures Proven(next, u)
    {
      ProvenStays(s, next, u);
    }
  }

  lemma CommentStays(s: State, next: State, c: Id, doc: Comment)
    requires Grows(s, next) && CommentOk(s, c, doc) && next.log == s.log
    ensures CommentOk(next, c, doc)
  {
    hide Proven, Confirmed;
    if doc.status == Pending && Proven(s, doc.commenter) { ProvenStays(s, next, doc.commenter); }
  }

  lemma MovedKeeps(s: State, t: nat, op: Op)
    requires Inv(s) && OpOk(s, op)
    ensures Inv(Moved(s, t, op))
  {
    StaysInv(s, Moved(s, t, op));
  }

  lemma FinishedKeeps(s: State, t: nat)
    requires Inv(s)
    ensures Inv(Finished(s, t))
  {
    StaysInv(s, Finished(s, t));
  }

  /** With the same history, the parts of the invariant that look at the rest carry over. */
  lemma StaysInv(s: State, next: State)
    requires next.owners == s.owners && next.issued == s.issued && next.log == s.log
    ensures forall u :: Proven(s, u) ==> Proven(next, u)
    ensures forall op :: OpOk(s, op) ==> OpOk(next, op)
    ensures forall c, doc :: CommentOk(s, c, doc) ==> CommentOk(next, c, doc)
    ensures LogOk(s) ==> LogOk(next)
  {
    forall u | Proven(s, u)
      ensures Proven(next, u)
    {
      ProvenStays(s, next, u);
    }
    forall op | OpOk(s, op)
      ensures OpOk(next, op)
    {
      OpStays(s, next, op);
    }
    forall c, doc | CommentOk(s, c, doc)
      ensures CommentOk(next, c, doc)
    {
      CommentStays(s, next, c, doc);
    }
  }

  lemma CommentKeeps(s: State, c: Id, doc: Comment)
    requires Inv(s) && CommentOk(s, c, doc)
    ensures Inv(WithComment(s, c, doc))
  {
    hide CommentOk, OpOk, Proven, LogOk;
    StaysInv(s, WithComment(s, c, doc));
  }

  lemma FewerCommentsKeeps(s: State, c: Id)
    requires Inv(s)
    ensures Inv(s.(comments := s.comments - {c}))
  {
    hide CommentOk, OpOk, Proven, LogOk;
    StaysInv(s, s.(comments := s.comments - {c}));
  }

  lemma FewerTokensKeeps(s: State, tokens: map<Hash, Token>)
    requires Inv(s) && forall h | h in tokens :: h in s.tokens && tokens[h] == s.tokens[h]
    ensures Inv(s.(tokens := tokens))
  {
    hide CommentOk, OpOk, Proven, LogOk;
    StaysInv(s, s.(tokens := tokens));
  }

  lemma UsersKeeps(s: State, users: map<Id, User>)
    requires Inv(s) && forall u | u in users :: u in s.known && (users[u].verified.Some? ==> Proven(s, u))
    ensures Inv(s.(users := users))
  {
    hide CommentOk, OpOk, Proven, LogOk;
    StaysInv(s, s.(users := users));
  }

  lemma KnownKeeps(s: State, u: Id)
    requires Inv(s)
    ensures Inv(s.(known := s.known + {u}))
  {
    hide CommentOk, OpOk, Proven, LogOk;
    StaysInv(s, s.(known := s.known + {u}));
  }

  /** The history grows by an owner or a token; the log stays. */
  lemma HistoryKeeps(s: State, next: State)
    requires Inv(s) && Grows(s, next) && next.log == s.log
    requires next == s.(owners := next.owners, issued := next.issued)
    requires forall p | p in next.issued :: p.1 in next.owners
    ensures Inv(next)
  {
    hide CommentOk, OpOk, Proven;
    forall c | c in s.comments
      ensures CommentOk(next, c, s.comments[c])
    {
      CommentStays(s, next, c, s.comments[c]);
    }
    forall t | t in s.ops
      ensures OpOk(next, s.ops[t])
    {
      OpStays(s, next, s.ops[t]);
    }
    forall u | u in s.users && s.users[u].verified.Some?
      ensures Proven(next, u)
    {
      ProvenStays(s, next, u);
    }
  }

  lemma TokenKeeps(s: State, h: Hash, c: Id, until: int)
    requires Inv(s) && c in s.owners
    ensures Inv(WithToken(s, h, c, until))
  {
    hide CommentOk, OpOk, Proven, LogOk;
    if h !in s.tokens {
      var s1 := s.(issued := s.issued + {(h, c)});
      HistoryKeeps(s, s1);
      var next := WithToken(s, h, c, until);
      StaysInv(s1, next);
    }
  }

  // ---- Submit ----------------------------------------------------------------------------------------

  lemma SubmitKeeps(s: State, a: Action)
    requires Inv(s) && IsSubmit(a)
    ensures Inv(DoSubmit(s, a)) && Grows(s, DoSubmit(s, a))
  {
    hide CommentOk, Proven, LogOk;
    match a
    case FindCommenter(t, u, remembered) =>
      if Idle(s, t) && u in s.users && !s.users[u].blocked {
        MovedKeeps(s, t, SubmitFound(u, s.users[u].verified.Some? && remembered == Some(u)));
      }
    case NewCommenter(t, u) =>
      if Idle(s, t) && u !in s.known {
        KnownKeeps(s, u);
        var s1 := s.(known := s.known + {u});
        UsersKeeps(s1, s.users[u := User(None, false)]);
        MovedKeeps(s1.(users := s.users[u := User(None, false)]), t, SubmitFound(u, false));
      }
    case InsertComment(t, c, now) =>
      if t in s.ops && s.ops[t].SubmitFound? && c !in s.owners { InsertKeeps(s, t, c, now); }
    case InsertToken(t, h) =>
      if t in s.ops && s.ops[t].SubmitStored? {
        var op := s.ops[t];
        assert OpOk(s, op);
        TokenKeeps(s, h, op.comment, op.until);
        FinishedKeeps(WithToken(s, h, op.comment, op.until), t);
      }
  }

  lemma InsertKeeps(s: State, t: nat, c: Id, now: int)
    requires Inv(s) && t in s.ops && s.ops[t].SubmitFound? && c !in s.owners
    ensures var next := DoSubmit(s, InsertComment(t, c, now)); Inv(next) && Grows(s, next)
  {
    hide Proven, Confirmed, LogOk, CommentOk;
    var op := s.ops[t];
    assert OpOk(s, op);
    var s1 := s.(owners := s.owners[c := op.user]);
    HistoryKeeps(s, s1);
    if op.remembered { ProvenStays(s, s1, op.user); }
    NotConfirmedYet(s, c);
    var doc := NewComment(op.user, op.remembered, now);
    NewCommentOk(s1, c, op.user, op.remembered, now);
    CommentKeeps(s1, c, doc);
    var s2 := WithComment(s1, c, doc);
    if op.remembered { FinishedKeeps(s2, t); } else { MovedKeeps(s2, t, SubmitStored(c, now + VERIFY_MS)); }
  }

  lemma NewCommentOk(s: State, c: Id, u: Id, remembered: bool, now: int)
    requires c in s.owners && s.owners[c] == u && !Confirmed(s.log, c) && (remembered ==> Proven(s, u))
    ensures CommentOk(s, c, NewComment(u, remembered, now))
  {}

  lemma NotConfirmedYet(s: State, c: Id)
    requires Inv(s) && c !in s.owners
    ensures !Confirmed(s.log, c)
  {
    hide CommentOk, OpOk, Proven;
    forall i | 0 <= i < |s.log|
      ensures s.log[i].comment != c
    {
      assert (s.log[i].hash, s.log[i].comment) in s.issued;
    }
  }

  // ---- Verify ----------------------------------------------------------------------------------------

  lemma VerifyKeeps(s: State, a: Action)
    requires Inv(s) && IsVerify(a)
    ensures Inv(DoVerify(s, a)) && Grows(s, DoVerify(s, a))
  {
    hide CommentOk, Proven, LogOk;
    match a
    case FindToken(t, h, now) =>
      if Idle(s, t) && h in s.tokens && s.tokens[h].expires > now {
        MovedKeeps(s, t, VerifyFound(h, s.tokens[h].comment));
      }
    case Confirm(t, now) =>
      if t in s.ops && s.ops[t].VerifyFound? { ConfirmKeeps(s, t, now); }
    case SpendToken(t) => SpendKeeps(s, t);
    case MarkVerified(t) => MarkKeeps(s, t);
  }

  lemma SpendKeeps(s: State, t: nat)
    requires Inv(s)
    ensures var next := DoVerify(s, SpendToken(t)); Inv(next) && Grows(s, next)
  {
    hide CommentOk, Proven, LogOk;
    if t in s.ops && (s.ops[t].VerifyTaken? || s.ops[t].VerifyMissed?) {
      var op := s.ops[t];
      assert OpOk(s, op);
      FewerTokensKeeps(s, s.tokens - {op.hash});
      var s1 := s.(tokens := s.tokens - {op.hash});
      StaysInv(s, s1);
      if op.VerifyTaken? { MovedKeeps(s1, t, VerifySpent(op.comment, op.user, op.now)); } else { FinishedKeeps(s1, t); }
    }
  }

  lemma MarkKeeps(s: State, t: nat)
    requires Inv(s)
    ensures var next := DoVerify(s, MarkVerified(t)); Inv(next) && Grows(s, next)
  {
    hide CommentOk, Proven, LogOk;
    if t in s.ops && s.ops[t].VerifySpent? {
      var op := s.ops[t];
      assert OpOk(s, op);
      if op.user in s.users {
        var users := s.users[op.user := s.users[op.user].(verified := Some(op.now))];
        UsersKeeps(s, users);
        FinishedKeeps(s.(users := users), t);
      } else {
        FinishedKeeps(s, t);
      }
    }
  }

  lemma ConfirmKeeps(s: State, t: nat, now: int)
    requires Inv(s) && t in s.ops && s.ops[t].VerifyFound?
    ensures var next := DoVerify(s, Confirm(t, now)); Inv(next) && Grows(s, next)
  {
    hide CommentOk, Proven, LogOk;
    var op := s.ops[t];
    var c := op.comment;
    assert OpOk(s, op);
    if c in s.comments && s.comments[c].status == Unverified {
      var doc := s.comments[c];
      var done := doc.(status := Pending, verified := Some(now), expires := None);
      var log := s.log + [Confirmation(op.hash, c)];
      var s1 := s.(comments := s.comments[c := done], log := log);
      LogsConfirmation(s, op.hash, c, done);
      MovedKeeps(s1, t, VerifyTaken(op.hash, c, doc.commenter, now));
    } else {
      MovedKeeps(s, t, VerifyMissed(op.hash));
    }
  }

  lemma ConfirmedMore(log: seq<Confirmation>, x: Confirmation, c: Id)
    ensures Confirmed(log + [x], c) <==> Confirmed(log, c) || x.comment == c
  {
    var more := log + [x];
    if Confirmed(log, c) {
      var i :| 0 <= i < |log| && log[i].comment == c;
      assert more[i].comment == c;
    }
    if x.comment == c { assert more[|log|].comment == c; }
  }

  /** The one step that logs: the comment leaves the unverified ones as its token is logged. */
  lemma LogsConfirmation(s: State, h: Hash, c: Id, done: Comment)
    requires Inv(s) && c in s.comments && s.comments[c].status == Unverified && (h, c) in s.issued
    requires done.commenter == s.comments[c].commenter && done.status == Pending && done.expires == None
    ensures var next := s.(comments := s.comments[c := done], log := s.log + [Confirmation(h, c)]);
            Inv(next) && Grows(s, next) && Proven(next, done.commenter)
  {
    hide Proven, Confirmed;
    var x := Confirmation(h, c);
    var next := s.(comments := s.comments[c := done], log := s.log + [x]);
    assert CommentOk(s, c, s.comments[c]);
    LastProven(next, done.commenter);
    forall k | k in next.comments
      ensures CommentOk(next, k, next.comments[k])
    {
      ConfirmedMore(s.log, x, k);
      if k != c {
        assert CommentOk(s, k, s.comments[k]);
        if Proven(s, s.comments[k].commenter) { ProvenStays(s, next, s.comments[k].commenter); }
      }
    }
    hide CommentOk;
    LogGrows(s, x);
    forall t | t in s.ops
      ensures OpOk(next, s.ops[t])
    {
      OpStays(s, next, s.ops[t]);
    }
    forall u | u in s.users && s.users[u].verified.Some?
      ensures Proven(next, u)
    {
      ProvenStays(s, next, u);
    }
  }

  lemma LastProven(s: State, u: Id)
    requires |s.log| > 0 && s.log[|s.log| - 1].comment in s.owners && s.owners[s.log[|s.log| - 1].comment] == u
    ensures Proven(s, u)
  {}

  lemma LogGrows(s: State, x: Confirmation)
    requires LogOk(s) && (x.hash, x.comment) in s.issued && !Confirmed(s.log, x.comment)
    ensures LogOk(s.(log := s.log + [x]))
  {}

  // ---- Reply, renewal and the rest --------------------------------------------------------------------

  lemma ModeratedKeeps(s: State, c: Id, approve: bool, m: Id)
    requires Inv(s)
    ensures Inv(ModeratedIn(s, c, approve, m))
  {
    hide Proven, LogOk, OpOk;
    if c in s.comments {
      assert CommentOk(s, c, s.comments[c]);
      CommentKeeps(s, c, Moderated(s.comments[c], approve, m));
    }
  }

  lemma ReplyKeeps(s: State, a: Action)
    requires Inv(s) && IsReply(a)
    ensures Inv(DoReply(s, a)) && Grows(s, DoReply(s, a))
  {
    hide Proven, LogOk, Inv, Rewritten, CommentOk;
    match a
    case FindForReply(t, c, u) =>
      if Idle(s, t) && c in s.comments && s.comments[c].status in {Pending, Approved} {
        OwnerKnown(s, c);
        MovedKeeps(s, t, ReplyFound(c, s.comments[c].status, s.comments[c].reply.Some?, u));
      }
    case WriteReply(t, text, now) =>
      if t in s.ops && s.ops[t].ReplyFound? {
        var op := s.ops[t];
        var c := op.comment;
        if c in s.comments && s.comments[c].status == op.status {
          OwnerKnown(s, c);
          var r := Some(Rewritten(s.comments[c].reply, op.had, op.user, text, now));
          RepliedKeeps(s, c, r);
          var s1 := WithComment(s, c, s.comments[c].(reply := r));
          if op.status == Pending { MovedKeeps(s1, t, ReplyStored(c, op.user)); } else { FinishedKeeps(s1, t); }
        } else {
          FinishedKeeps(s, t);
        }
      }
    case ApproveReplied(t) =>
      if t in s.ops && s.ops[t].ReplyStored? {
        ModeratedKeeps(s, s.ops[t].comment, true, s.ops[t].user);
        FinishedKeeps(ModeratedIn(s, s.ops[t].comment, true, s.ops[t].user), t);
      }
    case DeleteReply(c) =>
      if c in s.comments { RepliedKeeps(s, c, None); }
  }

  lemma OwnerKnown(s: State, c: Id)
    requires Inv(s) && c in s.comments
    ensures c in s.owners
  {
    assert CommentOk(s, c, s.comments[c]);
  }

  lemma RepliedKeeps(s: State, c: Id, r: Option<Reply>)
    requires Inv(s) && c in s.comments
    ensures Inv(WithComment(s, c, s.comments[c].(reply := r)))
  {
    hide Proven, LogOk, OpOk;
    assert CommentOk(s, c, s.comments[c]);
    CommentKeeps(s, c, s.comments[c].(reply := r));
  }

  lemma ExtendedKeeps(s: State, c: Id, until: int)
    requires Inv(s) && c in s.comments && s.comments[c].status == Unverified
    ensures Inv(WithComment(s, c, s.comments[c].(expires := Some(until))))
  {
    hide Proven, LogOk, OpOk;
    assert CommentOk(s, c, s.comments[c]);
    CommentKeeps(s, c, s.comments[c].(expires := Some(until)));
  }

  lemma RenewKeeps(s: State, a: Action)
    requires Inv(s) && IsRenew(a)
    ensures Inv(DoRenew(s, a)) && Grows(s, DoRenew(s, a))
  {
    hide Proven, LogOk, CommentOk;
    match a
    case ExtendComment(t, c, now) =>
      if Idle(s, t) && c in s.comments && s.comments[c].status == Unverified {
        hide Inv;
        OwnerKnown(s, c);
        ExtendedKeeps(s, c, now + VERIFY_MS);
        MovedKeeps(WithComment(s, c, s.comments[c].(expires := Some(now + VERIFY_MS))), t, RenewTaken(c, now + VERIFY_MS));
      }
    case PurgeTokens(t) => PurgeKeeps(s, t);
    case RenewToken(t, h) =>
      if t in s.ops && s.ops[t].RenewPurged? {
        var op := s.ops[t];
        assert OpOk(s, op);
        hide Inv;
        TokenKeeps(s, h, op.comment, op.until);
        FinishedKeeps(WithToken(s, h, op.comment, op.until), t);
      }
  }

  lemma PurgeKeeps(s: State, t: nat)
    requires Inv(s)
    ensures var next := DoRenew(s, PurgeTokens(t)); Inv(next) && Grows(s, next)
  {
    hide Proven, LogOk, CommentOk;
    if t in s.ops && s.ops[t].RenewTaken? {
      var op := s.ops[t];
      assert OpOk(s, op);
      hide Inv;
      var tokens := map h | h in s.tokens && s.tokens[h].comment != op.comment :: s.tokens[h];
      FewerTokensKeeps(s, tokens);
      MovedKeeps(s.(tokens := tokens), t, RenewPurged(op.comment, op.until));
    }
  }

  lemma BlockKeeps(s: State, u: Id, b: bool)
    requires Inv(s) && u in s.users
    ensures Inv(s.(users := s.users[u := s.users[u].(blocked := b)]))
  {
    hide Proven, LogOk, CommentOk, OpOk;
    UsersKeeps(s, s.users[u := s.users[u].(blocked := b)]);
  }

  lemma RemoveKeeps(s: State, u: Id)
    requires Inv(s)
    ensures Inv(s.(users := s.users - {u}))
  {
    hide Proven, LogOk, CommentOk, OpOk;
    UsersKeeps(s, s.users - {u});
  }

  lemma OtherKeeps(s: State, a: Action)
    requires Inv(s)
    ensures Inv(DoOther(s, a)) && Grows(s, DoOther(s, a))
  {
    hide Inv;
    match a
    case SetStatus(c, approve, m) => ModeratedKeeps(s, c, approve, m);
    case DeleteComment(c) => FewerCommentsKeeps(s, c);
    case Block(u, b) =>
      if u in s.users { BlockKeeps(s, u, b); }
    case RemoveUser(u) => RemoveKeeps(s, u);
    case ExpireComment(c, now) => FewerCommentsKeeps(s, c);
    case ExpireToken(h, now) => FewerTokensKeeps(s, s.tokens - {h});
    case Abandon(t) => FinishedKeeps(s, t);
    case _ =>
  }

  lemma DoKeeps(s: State, a: Action)
    requires Inv(s)
    ensures Inv(Do(s, a)) && Grows(s, Do(s, a))
  {
    hide Inv, Grows, DoSubmit, DoVerify, DoReply, DoRenew, DoOther;
    if IsSubmit(a) { SubmitKeeps(s, a); }
    else if IsVerify(a) { VerifyKeeps(s, a); }
    else if IsReply(a) { ReplyKeeps(s, a); }
    else if IsRenew(a) { RenewKeeps(s, a); }
    else { OtherKeeps(s, a); }
  }

  lemma {:induction false} RunKeeps(s: State, actions: seq<Action>)
    requires Inv(s)
    ensures Inv(Run(s, actions))
    decreases |actions|
  {
    hide Inv, Do, Grows;
    if actions != [] {
      DoKeeps(s, actions[0]);
      RunKeeps(Do(s, actions[0]), actions[1..]);
    }
  }

  // ---- Safety over every run ------------------------------------------------------------------------------

  /** After every interleaving: an expiry date exactly on the unverified comments;
      at most one confirmation of a comment, by a token issued for it, and none
      left unverified; a pending comment was confirmed or its author had proved
      the address; and a verified author has a confirmed comment. */
  lemma CommentSafety(actions: seq<Action>)
    ensures var s := Run(EMPTY, actions);
            && (forall c | c in s.comments :: s.comments[c].expires.Some? <==> s.comments[c].status == Unverified)
            && (forall i, j :: 0 <= i < j < |s.log| ==> s.log[i].comment != s.log[j].comment)
            && (forall x | x in s.log :: (x.hash, x.comment) in s.issued)
            && (forall c | c in s.comments && Confirmed(s.log, c) :: s.comments[c].status != Unverified)
            && (forall c | c in s.comments && s.comments[c].status == Pending ::
                  Confirmed(s.log, c) || Proven(s, s.comments[c].commenter))
            && (forall u | u in s.users && s.users[u].verified.Some? :: Proven(s, u))
  {
    hide Run, Proven, Confirmed, OpOk;
    RunKeeps(EMPTY, actions);
  }

  function Rank(st: Status): nat {
    match st
    case Unverified => 0
    case Pending => 1
    case Approved => 2
    case Rejected => 2
  }

  /** A step from s to next never lowers a status, never brings a comment back, and
      takes one away only by deleting it or, while it is unverified, by expiry. */
  ghost predicate Onward(s: State, next: State, a: Action, c: Id) {
    && (c in s.comments && c in next.comments ==> Rank(next.comments[c].status) >= Rank(s.comments[c].status))
    && (c in s.owners && c !in s.comments ==> c !in next.comments)
    && (c in s.comments && c !in next.comments ==>
          a == DeleteComment(c) || (a.ExpireComment? && a.comment == c && s.comments[c].status == Unverified))
  }

  /** A comment turns pending only through a token issued for it, or on arrival
      from a remembered author whose address a token had proved before. */
  ghost predicate PendingRightly(s: State, next: State, a: Action, c: Id) {
    c in next.comments && next.comments[c].status == Pending && (c in s.comments ==> s.comments[c].status != Pending) ==>
      if a.Confirm? then
        && a.t in s.ops && s.ops[a.t].VerifyFound? && s.ops[a.t].comment == c && (s.ops[a.t].hash, c) in s.issued
        && next.log == s.log + [Confirmation(s.ops[a.t].hash, c)]
      else
        && a.InsertComment? && a.comment == c
        && a.t in s.ops && s.ops[a.t].SubmitFound? && s.ops[a.t].remembered && Proven(s, s.ops[a.t].user)
  }

  lemma SubmitOnward(s: State, a: Action, c: Id)
    requires Inv(s) && IsSubmit(a)
    ensures Onward(s, DoSubmit(s, a), a, c) && PendingRightly(s, DoSubmit(s, a), a, c)
  {
    if c in s.comments { CommentSound(s, c); }
    if (a.InsertComment? || a.InsertToken?) && a.t in s.ops { OpSound(s, a.t); }
    hide Inv, Proven;
  }

  lemma VerifyOnward(s: State, a: Action, c: Id)
    requires Inv(s) && IsVerify(a)
    ensures Onward(s, DoVerify(s, a), a, c) && PendingRightly(s, DoVerify(s, a), a, c)
  {
    if !a.FindToken? && a.t in s.ops { OpSound(s, a.t); }
    hide Inv, Proven;
  }

  lemma ReplyOnward(s: State, a: Action, c: Id)
    requires IsReply(a)
    ensures Onward(s, DoReply(s, a), a, c) && PendingRightly(s, DoReply(s, a), a, c)
  {
    hide Proven, Rewritten;
  }

  lemma RenewOnward(s: State, a: Action, c: Id)
    requires IsRenew(a)
    ensures Onward(s, DoRenew(s, a), a, c) && PendingRightly(s, DoRenew(s, a), a, c)
  {
    hide Proven;
  }

  lemma OtherOnward(s: State, a: Action, c: Id)
    requires Inv(s)
    ensures Onward(s, DoOther(s, a), a, c) && PendingRightly(s, DoOther(s, a), a, c)
  {
    if c in s.comments { CommentSound(s, c); }
    hide Inv, Proven;
  }

  lemma StepOnward(s: State, a: Action, c: Id)
    requires Inv(s)
    ensures Onward(s, Do(s, a), a, c) && PendingRightly(s, Do(s, a), a, c)
  {
    hide Inv, Onward, PendingRightly, DoSubmit, DoVerify, DoReply, DoRenew, DoOther;
    if IsSubmit(a) { SubmitOnward(s, a, c); }
    else if IsVerify(a) { VerifyOnward(s, a, c); }
    else if IsReply(a) { ReplyOnward(s, a, c); }
    else if IsRenew(a) { RenewOnward(s, a, c); }
    else { OtherOnward(s, a, c); }
  }

  lemma OpSound(s: State, t: nat)
    requires Inv(s) && t in s.ops
    ensures OpOk(s, s.ops[t])
  {}

  lemma CommentSound(s: State, c: Id)
    requires Inv(s) && c in s.comments
    ensures c in s.owners && (s.comments[c].expires.Some? <==> s.comments[c].status == Unverified)
  {
    assert CommentOk(s, c, s.comments[c]);
  }

  lemma {:induction false} GoneForGood(s: State, actions: seq<Action>, c: Id)
    requires Inv(s) && c in s.owners && c !in s.comments
    ensures c !in Run(s, actions).comments
    decreases |actions|
  {
    hide Inv, Do;
    if actions != [] {
      StepOnward(s, actions[0], c);
      DoKeeps(s, actions[0]);
      GoneForGood(Do(s, actions[0]), actions[1..], c);
    }
  }

  /** A status never falls, however long the comment is followed. */
  lemma {:induction false} RankNeverFalls(s: State, actions: seq<Action>, c: Id)
    requires Inv(s) && c in s.comments
    ensures var next := Run(s, actions);
            c in next.comments ==> Rank(next.comments[c].status) >= Rank(s.comments[c].status)
    decreases |actions|
  {
    hide Inv, Do;
    if actions != [] {
      var s1 := Do(s, actions[0]);
      CommentSound(s, c);
      StepOnward(s, actions[0], c);
      DoKeeps(s, actions[0]);
      if c in s1.comments {
        RankNeverFalls(s1, actions[1..], c);
      } else {
        GoneForGood(s1, actions[1..], c);
      }
    }
  }

  /** Expiry never takes a confirmed or moderated comment: without a deletion it stays. */
  lemma {:induction false} NeverExpires(s: State, actions: seq<Action>, c: Id)
    requires Inv(s) && c in s.comments && s.comments[c].status != Unverified && DeleteComment(c) !in actions
    ensures c in Run(s, actions).comments
    decreases |actions|
  {
    hide Inv, Do;
    if actions != [] {
      StepOnward(s, actions[0], c);
      DoKeeps(s, actions[0]);
      NeverExpires(Do(s, actions[0]), actions[1..], c);
    }
  }

  // ---- Single steps ------------------------------------------------------------------------------------------

  lemma ReplyStep(s: State, a: Action)
    requires IsReply(a)
    ensures Do(s, a) == DoReply(s, a)
  {}

  lemma RunThree(s: State, a: Action, b: Action, c: Action)
    ensures Run(s, [a, b, c]) == Do(Do(Do(s, a), b), c)
  {
    hide Do;
    assert [a, b, c][1..] == [b, c] && [b, c][1..] == [c] && [c][1..] == [];
    assert Run(Do(Do(s, a), b), [c]) == Do(Do(Do(s, a), b), c);
  }

  lemma RenewStep(s: State, a: Action)
    requires IsRenew(a)
    ensures Do(s, a) == DoRenew(s, a)
  {}

  lemma {:induction false} RunSnoc(s: State, actions: seq<Action>, a: Action)
    ensures Run(s, actions + [a]) == Do(Run(s, actions), a)
    decreases |actions|
  {
    hide Do;
    if actions == [] {
      assert actions + [a] == [a] && [a][1..] == [];
    } else {
      assert (actions + [a])[1..] == actions[1..] + [a];
      RunSnoc(Do(s, actions[0]), actions[1..], a);
    }
  }
}
