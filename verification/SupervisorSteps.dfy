/** What a tick and a scan of the supervisor make of an extension, and when it counts as
    running (src/extensions/extensions.c). */
module SupervisorSteps {
  import opened Options
  import opened Supervisor

  // ---- A tick -----------------------------------------------------------------------------------

  /** It is to run: enabled, its directory there, its manifest usable. */
  predicate IsWanted(e: Extension) { e.enabled && e.present && e.phase != Invalid }

  predicate Lives(e: Extension, alive: set<int>) { e.pid > 0 && e.pid in alive }

  /** The how manieth exit within a minute one noticed now is. */
  function CrashNumber(e: Extension, now: int): int { if now - e.crashWindow > 60 then 1 else e.crashes + 1 }

  /** A launch is due: it is to run, has no process, has not failed and its pause is over. */
  predicate LaunchDue(e: Extension, now: int) { IsWanted(e) && e.pid == 0 && e.phase != Failed && now >= e.nextStart }

  predicate TickedTo(e: Extension, r: Extension, now: int, alive: set<int>, child: Option<int>, answers: bool) {
    if !IsWanted(e) then
      r.phase == (if e.phase == Invalid then Invalid else Disabled) && r.pid == if Lives(e, alive) then e.pid else 0
    else if Lives(e, alive) then
      r == e.(phase := if answers then Running else Starting)
    else if e.pid > 0 then
      && r.pid == 0 && r.crashes == CrashNumber(e, now)
      && if r.crashes >= 5 then r.phase == Failed else r.phase == Starting && r.nextStart == now + r.crashes
    else if LaunchDue(e, now) then
      r == if child.Some? then e.(pid := child.value, phase := Starting) else e.(phase := Failed)
    else r == e
  }

  /** One tick: who is launched, stopped, counted out or found running. */
  lemma TickMeans(e: Extension, n: Name, clock: int, used: set<int>, now: int, alive: set<int>, child: Option<int>, answers: bool)
    requires EntryOk(e, n, clock, used)
    ensures var r := Reconciled(e, now, alive, child, answers);
            && TickedTo(e, r, now, alive, child, answers)
            && r.name == e.name && r.enabled == e.enabled && r.present == e.present
            && (r.phase == Running <==> IsWanted(e) && Lives(e, alive) && answers)
    ensures Launches(e, now, alive) <==> LaunchDue(e, now)
  {}

  // ---- A scan -----------------------------------------------------------------------------------

  predicate Found(dirs: seq<Dir>, n: Name) { Dir(n, true) in dirs || Dir(n, false) in dirs }

  /** An entry the scan knew, after it. */
  predicate Rescanned(e: Extension, r: Extension, dirs: seq<Dir>) {
    && r == e.(phase := r.phase, present := Found(dirs, e.name))
    && r.phase == if Dir(e.name, false) in dirs then Invalid
                  else if Dir(e.name, true) in dirs && e.pid == 0 && e.phase != Failed then Disabled
                  else e.phase
  }

  lemma {:induction false} ListedIs(exts: map<Name, Extension>, dirs: seq<Dir>, n: Name)
    requires n in exts && exts[n].name == n && !exts[n].present && !(Dir(n, true) in dirs && Dir(n, false) in dirs)
    ensures var r := ListedAll(exts, dirs); n in r && Rescanned(exts[n], r[n], dirs)
    decreases |dirs|
  {
    if dirs != [] {
      var before, d := dirs[..|dirs| - 1], dirs[|dirs| - 1];
      assert dirs == before + [d];
      ListedIs(exts, before, n);
      if d.name == n { assert d == Dir(n, d.valid) && d in dirs; }
    }
  }

  lemma {:induction false} NewIs(exts: map<Name, Extension>, dirs: seq<Dir>, n: Name)
    requires n !in exts && !(Dir(n, true) in dirs && Dir(n, false) in dirs)
    ensures var r := ListedAll(exts, dirs);
            n in r ==> Found(dirs, n) && r[n] == Fresh(n).(present := true, phase := if Dir(n, true) in dirs then Disabled else Invalid)
    ensures |ListedAll(exts, dirs)| <= |exts| + |dirs|
    ensures |exts| + |dirs| <= MAX_EXTENSIONS && Found(dirs, n) ==> n in ListedAll(exts, dirs)
    decreases |dirs|
  {
    if dirs != [] {
      var before, d := dirs[..|dirs| - 1], dirs[|dirs| - 1];
      assert dirs == before + [d];
      NewIs(exts, before, n);
      var l := ListedAll(exts, before);
      if d.name == n { assert d == Dir(n, d.valid) && d in dirs; }
      if d.name in l {
        SameSize(l, d.name, Reread(l[d.name], d.valid));
      } else {
        OneMore(l, d.name, Reread(Fresh(d.name), d.valid));
      }
    }
  }

  /** A scan, for an entry there was: it goes when its directory is missed and it has no
      process, and otherwise only its phase changes, by its manifest. */
  lemma ScanMeans(exts: map<Name, Extension>, dirs: seq<Dir>, n: Name)
    requires n in exts && exts[n].name == n && !(Dir(n, true) in dirs && Dir(n, false) in dirs)
    ensures var r := Scanned(exts, dirs);
            && (n in r <==> Found(dirs, n) || exts[n].pid != 0)
            && (n in r ==> Rescanned(exts[n], r[n], dirs))
  {
    hide ListedAll;
    ListedIs(Unseen(exts), dirs, n);
  }

  /** And for one there was not: it is listed switched off, and it is when there is room. */
  lemma ScanAdds(exts: map<Name, Extension>, dirs: seq<Dir>, n: Name)
    requires n !in exts && !(Dir(n, true) in dirs && Dir(n, false) in dirs)
    ensures var r := Scanned(exts, dirs);
            && (n in r ==> Found(dirs, n) && r[n] == Fresh(n).(present := true, phase := if Dir(n, true) in dirs then Disabled else Invalid))
            && (Found(dirs, n) && |exts| + |dirs| <= MAX_EXTENSIONS ==> n in r)
  {
    hide ListedAll;
    NewIs(Unseen(exts), dirs, n);
    SizeOfUnseen(exts);
  }

  // ---- Running ---------------------------------------------------------------------------------------

  predicate IsRunning(s: State, n: Name) { n in s.exts && s.exts[n].phase == Running }

  /** A tick at this step finds the extension alive, wanted and answering. */
  predicate Answers(s: State, a: Action, n: Name) {
    && a.Tick? && a.name == n && Possible(s, a) && a.answers && IsWanted(s.exts[n]) && Lives(s.exts[n], s.alive)
  }

  /** The step leaves alone what it is listed as: no tick of it, no scan that finds its manifest unusable. */
  predicate LeavesPhase(s: State, a: Action, n: Name) {
    !(a.Tick? && a.name == n && Possible(s, a)) && !(a.Rescan? && Dir(n, false) in a.dirs)
  }

  lemma {:induction false} ListedRunning(exts: map<Name, Extension>, dirs: seq<Dir>, n: Name)
    requires n in exts ==> (exts[n].phase == Running ==> exts[n].pid != 0)
    ensures var r := ListedAll(exts, dirs);
            && (n in r && r[n].phase == Running <==> n in exts && exts[n].phase == Running && Dir(n, false) !in dirs)
            && (n in r && r[n].phase == Running ==> r[n].pid != 0)
    decreases |dirs|
  {
    if dirs != [] {
      var before, d := dirs[..|dirs| - 1], dirs[|dirs| - 1];
      assert dirs == before + [d];
      ListedRunning(exts, before, n);
      if d.name == n { assert d == Dir(n, d.valid) && d in dirs; }
    }
  }

  lemma RunningStep(s: State, a: Action, n: Name)
    requires Inv(s)
    ensures IsRunning(Do(s, a), n) <==> Answers(s, a, n) || (IsRunning(s, n) && LeavesPhase(s, a, n))
  {
    hide PidsOk, ListedAll, Reconciled, Launches, EntryOk;
    if n in s.exts { EntryFacts(s, n); }
    match a
    case Tick(k, now, child, answers) =>
      if k == n && Possible(s, a) {
        EntryOf(s, n);
        TickMeans(s.exts[n], n, s.clock, s.used, now, s.alive, child, answers);
      }
    case Exit(p) =>
    case Rescan(dirs) => ListedRunning(Unseen(s.exts), dirs, n);
    case Switch(k, on) =>
  }

  lemma EntryFacts(s: State, n: Name)
    requires Inv(s) && n in s.exts
    ensures s.exts[n].phase == Running ==> s.exts[n].pid != 0
  {}

  /** Some tick of the run found it answering, and no step since has said otherwise. */
  ghost predicate Answered(actions: seq<Action>, n: Name) { exists i: nat :: AnsweredAt(actions, i, n) }

  ghost predicate AnsweredAt(actions: seq<Action>, i: nat, n: Name) {
    && i < |actions| && Answers(Run(START, actions[..i]), actions[i], n)
    && forall j :: i < j < |actions| ==> LeavesPhase(Run(START, actions[..j]), actions[j], n)
  }

  /** After every run an extension is listed as running exactly when its last tick found its
      process alive and its socket answering, with no unusable manifest found since. */
  lemma {:induction false} RunningExactly(actions: seq<Action>, n: Name)
    ensures IsRunning(Run(START, actions), n) <==> Answered(actions, n)
    decreases |actions|
  {
    hide Run, Do, IsRunning, Answered, Inv;
    if actions == [] {
      NothingRuns(actions, n);
    } else {
      var k := |actions| - 1;
      var before, a := actions[..k], actions[k];
      assert actions == before + [a];
      RunSnoc(START, before, a);
      RunningExactly(before, n);
      StartOk();
      RunKeeps(START, before);
      RunningStep(Run(START, before), a, n);
      AnsweredSnoc(before, a, n);
    }
  }

  lemma NothingRuns(actions: seq<Action>, n: Name)
    requires actions == []
    ensures !IsRunning(Run(START, actions), n) && !Answered(actions, n)
  {}

  lemma AnsweredSnoc(before: seq<Action>, a: Action, n: Name)
    ensures var s := Run(START, before);
            Answered(before + [a], n) <==> Answers(s, a, n) || (Answered(before, n) && LeavesPhase(s, a, n))
  {
    hide Run, Answers, LeavesPhase;
    var actions, k := before + [a], |before|;
    assert before[..k] == before;
    assert forall i :: 0 <= i <= k ==> actions[..i] == before[..i];
    if Answers(Run(START, before), a, n) { assert AnsweredAt(actions, k, n); }
    if i: nat :| AnsweredAt(before, i, n) {
      if LeavesPhase(Run(START, before), a, n) { assert AnsweredAt(actions, i, n); }
    }
    if i: nat :| AnsweredAt(actions, i, n) {
      if i < k { assert AnsweredAt(before, i, n); }
    }
  }

  lemma {:induction false} RunSnoc(s: State, actions: seq<Action>, a: Action)
    ensures Run(s, actions + [a]) == Do(Run(s, actions), a)
    decreases |actions|
  {
    hide Do;
    if actions == [] {
      assert actions + [a] == [a] && [a][1..] == [];
      assert Run(Do(s, a), []) == Do(s, a);
    } else {
      assert (actions + [a])[1..] == actions[1..] + [a];
      RunSnoc(Do(s, actions[0]), actions[1..], a);
    }
  }

  /** Enabling a failed extension gives it a new start: the next tick launches it. */
  lemma EnableRetries(s: State, n: Name, now: int, p: int)
    requires Inv(s) && IsFailed(s, n) && now >= s.clock && p > 0 && p !in s.used
    ensures var next := Do(Do(s, Switch(n, true)), Tick(n, now, Some(p), false));
            n in next.exts && next.exts[n].pid == p && p in next.alive && Get(next.launches, n) == Get(s.launches, n) + 1
  {
    hide PidsOk, ExitsOk, Reconciled, Launches;
    EntryOf(s, n);
    var s1 := Do(s, Switch(n, true));
    DoKeeps(s, Switch(n, true));
    EntryOf(s1, n);
    TickMeans(s1.exts[n], n, s1.clock, s1.used, now, s1.alive, Some(p), false);
  }
}
