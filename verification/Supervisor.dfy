/** The extension supervisor (src/extensions/extensions.c): a registry of
    extensions whose processes a periodic tick starts, watches and stops, while
    the admin rescans the directory and switches extensions on and off. */
module Supervisor {
  import opened Options

  type Name = string

  datatype Phase = Disabled | Starting | Running | Failed | Invalid

  /** A registry entry. `exits` are the times at which the exits counted by
      `crashes` were noticed; the code keeps only their number. */
  datatype Extension = Extension(
    name: Name, enabled: bool, phase: Phase, pid: int, termSent: int, nextStart: int,
    crashes: int, crashWindow: int, present: bool, exits: seq<int>)

  const MAX_EXTENSIONS: nat := 32
  const CRASH_WINDOW: int := 60
  const CRASH_LIMIT: int := 5

  function Fresh(n: Name): Extension { Extension(n, false, Disabled, 0, 0, 0, 0, 0, false, []) }

  // ---- One tick for one extension ----------------------------------------------------------

  predicate Wanted(e: Extension) { e.enabled && e.phase != Invalid && e.present }

  predicate Alive(pid: int, alive: set<int>) { pid > 0 && pid in alive }

  /** request_stop: only what it records; the signals are the environment's exits. */
  function Stopping(e: Extension, now: int, alive: set<int>): Extension {
    if e.pid <= 0 then e
    else if !Alive(e.pid, alive) then e.(pid := 0, termSent := 0)
    else if e.termSent == 0 then e.(termSent := now)
    else e
  }

  /** The process is gone: count the exit in its window, give up at the limit. */
  function Exited(e: Extension, now: int): Extension {
    var w := if now - e.crashWindow > CRASH_WINDOW then e.(crashWindow := now, crashes := 0, exits := []) else e;
    var c := w.(pid := 0, crashes := w.crashes + 1, exits := w.exits + [now]);
    if c.crashes >= CRASH_LIMIT then c.(phase := Failed)
    else c.(nextStart := now + c.crashes, phase := Starting)
  }

  predicate IsExited(e: Extension, alive: set<int>) { e.pid != 0 && !Alive(e.pid, alive) }

  predicate GivenUp(e: Extension) { e.phase == Failed && e.pid == 0 }

  /** The entry as it is when the tick comes to launching or probing. */
  function Checked(e: Extension, now: int, alive: set<int>): Extension {
    if IsExited(e, alive) then Exited(e, now) else e
  }

  /** This tick calls spawn. */
  predicate Launches(e: Extension, now: int, alive: set<int>) {
    && Wanted(e) && !GivenUp(e)
    && !(IsExited(e, alive) && Exited(e, now).phase == Failed)
    && Checked(e, now, alive).pid == 0 && now >= Checked(e, now, alive).nextStart
  }

  /** reconcile, with the outcome of spawn (no child when it failed) and of the
      probe of the socket. */
  function Reconciled(e: Extension, now: int, alive: set<int>, child: Option<int>, answers: bool): Extension {
    if !Wanted(e) then
      var r := Stopping(e, now, alive);
      if r.phase != Invalid then r.(phase := Disabled) else r
    else if GivenUp(e) then e
    else
      var c := Checked(e, now, alive);
      if IsExited(e, alive) && c.phase == Failed then c
      else if c.pid == 0 then
        if now < c.nextStart then c
        else if child.None? then c.(phase := Failed)
        else c.(pid := child.value, phase := Starting)
      else c.(phase := if answers then Running else Starting)
  }

  // ---- Rescan and switch ----------------------------------------------------------------------

  /** A directory found by a scan, and whether its manifest is usable. */
  datatype Dir = Dir(name: Name, valid: bool)

  /** The manifest read again: an entry with a process, or a failed one, keeps its phase. */
  function Reread(e: Extension, valid: bool): Extension {
    if !valid then e.(phase := Invalid, present := true)
    else if e.pid != 0 || e.phase == Failed then e.(present := true)
    else e.(phase := Disabled, present := true)
  }

  function Unseen(exts: map<Name, Extension>): map<Name, Extension> {
    map n | n in exts :: exts[n].(present := false)
  }

  function Listed(exts: map<Name, Extension>, d: Dir): map<Name, Extension> {
    if d.name in exts then exts[d.name := Reread(exts[d.name], d.valid)]
    else if |exts| >= MAX_EXTENSIONS then exts
    else exts[d.name := Reread(Fresh(d.name), d.valid)]
  }

  function ListedAll(exts: map<Name, Extension>, dirs: seq<Dir>): map<Name, Extension> {
    if dirs == [] then exts else Listed(ListedAll(exts, dirs[..|dirs| - 1]), dirs[|dirs| - 1])
  }

  predicate Kept(e: Extension) { e.present || e.pid != 0 }

  function Compacted(exts: map<Name, Extension>): map<Name, Extension> {
    map n | n in exts && Kept(exts[n]) :: exts[n]
  }

  function Scanned(exts: map<Name, Extension>, dirs: seq<Dir>): map<Name, Extension> {
    Compacted(ListedAll(Unseen(exts), dirs))
  }

  function Switched(e: Extension, on: bool): Extension {
    var r := e.(enabled := on);
    if !on then r
    else r.(crashes := 0, exits := [], nextStart := 0, phase := if r.phase == Failed then Disabled else r.phase)
  }

  // ---- The system --------------------------------------------------------------------------------

  /** The registry, the clock, the children that are alive and all there have been,
      and how often each extension was launched. */
  datatype State = State(
    exts: map<Name, Extension>, clock: int, alive: set<int>, used: set<int>, launches: map<Name, nat>)

  const START := State(map[], 0, {}, {}, map[])

  datatype Action =
    | Tick(name: Name, now: int, child: Option<int>, answers: bool)
    | Exit(pid: int)
    | Rescan(dirs: seq<Dir>)
    | Switch(name: Name, on: bool)

  function Get(m: map<Name, nat>, n: Name): nat { if n in m then m[n] else 0 }

  /** The clock does not go back and the system does not hand out a process id twice. */
  predicate Possible(s: State, a: Action) {
    match a
    case Tick(n, now, child, _) =>
      n in s.exts && now >= s.clock && (child.Some? ==> child.value > 0 && child.value !in s.used)
    case Switch(n, _) => n in s.exts
    case _ => true
  }

  function Do(s: State, a: Action): State {
    if !Possible(s, a) then s
    else
      match a
      case Tick(n, now, child, answers) =>
        var e := s.exts[n];
        var s' := s.(exts := s.exts[n := Reconciled(e, now, s.alive, child, answers)], clock := now);
        if Launches(e, now, s.alive) && child.Some? then
          s'.(alive := s.alive + {child.value}, used := s.used + {child.value},
              launches := s.launches[n := Get(s.launches, n) + 1])
        else s'
      case Exit(p) => s.(alive := s.alive - {p})
      case Rescan(dirs) => s.(exts := Scanned(s.exts, dirs))
      case Switch(n, on) => s.(exts := s.exts[n := Switched(s.exts[n], on)])
  }

  function Run(s: State, actions: seq<Action>): State
    decreases |actions|
  {
    if actions == [] then s else Run(Do(s, actions[0]), actions[1..])
  }

  // ---- Invariants ----------------------------------------------------------------------------------

  /** The counted exits lie within one window. */
  ghost predicate ExitsOk(e: Extension, clock: int) {
    && e.crashes == |e.exits| && e.crashWindow <= clock
    && (forall t | t in e.exits :: e.crashWindow <= t <= e.crashWindow + CRASH_WINDOW && t <= clock)
  }

  ghost predicate EntryOk(e: Extension, n: Name, clock: int, used: set<int>) {
    && e.name == n
    && e.pid >= 0 && (e.pid > 0 ==> e.pid in used)
    && (e.phase == Failed ==> e.pid == 0 && e.present)
    && (e.phase == Running ==> e.pid > 0)
    && ExitsOk(e, clock)
  }

  ghost predicate Recorded(exts: map<Name, Extension>, p: int) {
    exists n :: n in exts && exts[n].pid == p
  }

  /** Every live child is recorded, no two entries record the same process, and
      the registry stays within its array. */
  ghost predicate PidsOk(exts: map<Name, Extension>, alive: set<int>, used: set<int>) {
    && (forall m, n | m in exts && n in exts && m != n :: exts[m].pid == exts[n].pid ==> exts[n].pid == 0)
    && (forall p | p in alive :: p > 0 && p in used && Recorded(exts, p))
    && |exts| <= MAX_EXTENSIONS
  }

  ghost predicate Inv(s: State) {
    && s.clock >= 0
    && (forall n | n in s.exts :: EntryOk(s.exts[n], n, s.clock, s.used))
    && PidsOk(s.exts, s.alive, s.used)
  }

  // ---- A tick -----------------------------------------------------------------------------------------

  lemma ExitedOk(e: Extension, now: int, clock: int)
    requires ExitsOk(e, clock) && now >= clock
    ensures ExitsOk(Exited(e, now), now)
  {}

  /** What a tick does to an entry: its process changes only when the old one is
      gone, and then to none or to the child just launched. */
  lemma ReconciledOk(e: Extension, n: Name, now: int, clock: int, used: set<int>, alive: set<int>, child: Option<int>, answers: bool)
    requires EntryOk(e, n, clock, used) && now >= clock && (child.Some? ==> child.value > 0)
    ensures var r := Reconciled(e, now, alive, child, answers);
            && EntryOk(r, n, now, used + {r.pid}) && r.present == e.present && r.enabled == e.enabled
            && (r.pid != e.pid ==> !Alive(e.pid, alive))
            && (if Launches(e, now, alive) && child.Some? then r.pid == child.value else r.pid == e.pid || r.pid == 0)
  {
    if IsExited(e, alive) { ExitedOk(e, now, clock); }
  }

  lemma LaterOk(e: Extension, n: Name, clock: int, now: int, used: set<int>, wider: set<int>)
    requires EntryOk(e, n, clock, used) && now >= clock && used <= wider
    ensures EntryOk(e, n, now, wider)
  {}

  /** The processes stay in order when one entry's changes to a new one or to none. */
  lemma PidChanges(exts: map<Name, Extension>, n: Name, r: Extension, alive: set<int>, used: set<int>)
    requires PidsOk(exts, alive, used) && n in exts && r.pid >= 0
    requires forall k | k in exts :: exts[k].pid >= 0 && (exts[k].pid > 0 ==> exts[k].pid in used)
    requires r.pid == exts[n].pid || (!Alive(exts[n].pid, alive) && (r.pid > 0 ==> r.pid !in used))
    ensures PidsOk(exts[n := r], if r.pid > 0 && r.pid !in used then alive + {r.pid} else alive, used + {r.pid})
  {
    var renewed := exts[n := r];
    forall p | p in alive
      ensures Recorded(renewed, p)
    {
      var k :| k in exts && exts[k].pid == p;
      assert renewed[k].pid == p;
    }
    assert renewed[n].pid == r.pid;
    SameSize(exts, n, r);
  }

  lemma SameSize(exts: map<Name, Extension>, n: Name, r: Extension)
    requires n in exts
    ensures |exts[n := r]| == |exts|
  {
    assert exts[n := r].Keys == exts.Keys;
    assert |exts[n := r]| == |exts[n := r].Keys| && |exts| == |exts.Keys|;
  }

  lemma TickKeeps(s: State, n: Name, now: int, child: Option<int>, answers: bool)
    requires Inv(s) && Possible(s, Tick(n, now, child, answers))
    ensures Inv(Do(s, Tick(n, now, child, answers)))
  {
    hide Reconciled, Launches, EntryOk, PidsOk, Alive;
    var e := s.exts[n];
    var s' := Do(s, Tick(n, now, child, answers));
    var r := Reconciled(e, now, s.alive, child, answers);
    EntryOf(s, n);
    ReconciledOk(e, n, now, s.clock, s.used, s.alive, child, answers);
    PidFacts(r, n, now, s.used + {r.pid});
    forall k | k in s.exts
      ensures s.exts[k].pid >= 0 && (s.exts[k].pid > 0 ==> s.exts[k].pid in s.used)
    {
      EntryOf(s, k);
    }
    PidChanges(s.exts, n, r, s.alive, s.used);
    forall k | k in s'.exts
      ensures EntryOk(s'.exts[k], k, now, s'.used)
    {
      if k == n {
        NoZero(r, n, now, s.used, s'.used);
      } else {
        LaterOk(s.exts[k], k, s.clock, now, s.used, s'.used);
      }
    }
    UsedZero(s'.exts, s'.alive, s.used, r.pid, s'.used);
  }

  lemma EntryOf(s: State, n: Name)
    requires Inv(s) && n in s.exts
    ensures EntryOk(s.exts[n], n, s.clock, s.used)
    ensures s.exts[n].pid >= 0 && (s.exts[n].pid > 0 ==> s.exts[n].pid in s.used)
  {}

  lemma PidFacts(e: Extension, n: Name, clock: int, used: set<int>)
    requires EntryOk(e, n, clock, used)
    ensures e.pid >= 0
  {}

  lemma NoZero(e: Extension, n: Name, clock: int, used: set<int>, wider: set<int>)
    requires EntryOk(e, n, clock, used + {e.pid}) && used <= wider && (e.pid > 0 ==> e.pid in wider)
    ensures EntryOk(e, n, clock, wider)
  {}

  lemma UsedZero(exts: map<Name, Extension>, alive: set<int>, used: set<int>, p: int, wider: set<int>)
    requires PidsOk(exts, alive, used + {p}) && used <= wider && (p > 0 ==> p in wider)
    ensures PidsOk(exts, alive, wider)
  {}

  /** A stop is asked for once: while the process lives, later ticks keep the time
      of the first request, from which the grace period runs; once it is gone the
      entry forgets it. */
  lemma StopAskedOnce(e: Extension, first: int, later: int, alive: set<int>, alive2: set<int>)
    requires e.pid > 0 && first > 0 && Alive(e.pid, alive) && alive2 <= alive
    ensures var asked := Stopping(e, first, alive);
            var again := Stopping(asked, later, alive2);
            && asked.pid == e.pid && asked.termSent == (if e.termSent == 0 then first else e.termSent)
            && (if e.pid in alive2 then again == asked else again.pid == 0 && again.termSent == 0)
  {}

  // ---- Exits and switches -----------------------------------------------------------------------------

  lemma ExitKeeps(s: State, p: int)
    requires Inv(s)
    ensures Inv(Do(s, Exit(p)))
  {
    hide EntryOk;
  }

  /** Whatever else changes, the same entries with the same processes are in order. */
  lemma SamePids(exts: map<Name, Extension>, renewed: map<Name, Extension>, alive: set<int>, used: set<int>)
    requires PidsOk(exts, alive, used) && renewed.Keys == exts.Keys
    requires forall n | n in exts :: renewed[n].pid == exts[n].pid
    ensures PidsOk(renewed, alive, used)
  {
    forall p | p in alive
      ensures Recorded(renewed, p)
    {
      var k :| k in exts && exts[k].pid == p;
      assert renewed[k].pid == p;
    }
    assert |renewed| == |renewed.Keys| && |exts| == |exts.Keys|;
  }

  lemma SwitchedOk(e: Extension, n: Name, clock: int, used: set<int>, on: bool)
    requires EntryOk(e, n, clock, used)
    ensures EntryOk(Switched(e, on), n, clock, used) && Switched(e, on).pid == e.pid
  {}

  lemma SwitchKeeps(s: State, n: Name, on: bool)
    requires Inv(s)
    ensures Inv(Do(s, Switch(n, on)))
  {
    hide EntryOk, PidsOk, Switched;
    if n in s.exts {
      var e := Switched(s.exts[n], on);
      SwitchedOk(s.exts[n], n, s.clock, s.used, on);
      assert s.exts[n := e].Keys == s.exts.Keys;
      SamePids(s.exts, s.exts[n := e], s.alive, s.used);
    }
  }

  // ---- Scans ------------------------------------------------------------------------------------------

  /** The invariant while a scan is on its way: entries it has not come to count
      as if they were there. */
  ghost predicate ScanInv(exts: map<Name, Extension>, clock: int, alive: set<int>, used: set<int>) {
    && clock >= 0
    && (forall n | n in exts :: EntryOk(exts[n].(present := true), n, clock, used))
    && PidsOk(exts, alive, used)
  }

  lemma Seen(e: Extension, n: Name, clock: int, used: set<int>, b: bool)
    requires EntryOk(e, n, clock, used)
    ensures EntryOk(e.(present := b).(present := true), n, clock, used)
  {}

  lemma UnseenKeeps(s: State)
    requires Inv(s)
    ensures ScanInv(Unseen(s.exts), s.clock, s.alive, s.used)
  {
    hide EntryOk, PidsOk;
    var exts := Unseen(s.exts);
    forall n | n in exts
      ensures EntryOk(exts[n].(present := true), n, s.clock, s.used)
    {
      Seen(s.exts[n], n, s.clock, s.used, false);
    }
    assert exts.Keys == s.exts.Keys;
    SamePids(s.exts, exts, s.alive, s.used);
  }

  lemma RereadOk(e: Extension, n: Name, clock: int, used: set<int>, valid: bool)
    requires EntryOk(e.(present := true), n, clock, used)
    ensures var r := Reread(e, valid); EntryOk(r, n, clock, used) && r.pid == e.pid && r.present
  {}

  lemma FreshOk(n: Name, clock: int, used: set<int>)
    requires clock >= 0
    ensures EntryOk(Fresh(n).(present := true), n, clock, used) && Fresh(n).pid == 0
  {}

  /** A new entry without a process. */
  lemma PidAdded(exts: map<Name, Extension>, n: Name, e: Extension, alive: set<int>, used: set<int>)
    requires PidsOk(exts, alive, used) && n !in exts && e.pid == 0 && |exts| < MAX_EXTENSIONS
    ensures PidsOk(exts[n := e], alive, used)
  {
    forall p | p in alive
      ensures Recorded(exts[n := e], p)
    {
      var k :| k in exts && exts[k].pid == p;
      assert exts[n := e][k].pid == p;
    }
    assert exts[n := e].Keys == exts.Keys + {n};
    assert |exts[n := e]| == |exts[n := e].Keys| && |exts| == |exts.Keys|;
  }

  lemma ListedKeeps(exts: map<Name, Extension>, d: Dir, clock: int, alive: set<int>, used: set<int>)
    requires ScanInv(exts, clock, alive, used)
    ensures ScanInv(Listed(exts, d), clock, alive, used)
  {
    hide EntryOk, PidsOk, Reread, Fresh;
    var renewed := Listed(exts, d);
    if d.name in exts || |exts| < MAX_EXTENSIONS {
      var e := if d.name in exts then exts[d.name] else Fresh(d.name);
      FreshOk(d.name, clock, used);
      RereadOk(e, d.name, clock, used, d.valid);
      var r := Reread(e, d.valid);
      assert r.(present := true) == r;
      if d.name in exts {
        assert renewed.Keys == exts.Keys;
        SamePids(exts, renewed, alive, used);
      } else {
        PidAdded(exts, d.name, r, alive, used);
      }
    }
  }

  lemma {:induction false} ListedAllKeeps(exts: map<Name, Extension>, dirs: seq<Dir>, clock: int, alive: set<int>, used: set<int>)
    requires ScanInv(exts, clock, alive, used)
    ensures ScanInv(ListedAll(exts, dirs), clock, alive, used)
    decreases |dirs|
  {
    hide ScanInv, Listed;
    if dirs != [] {
      var before := dirs[..|dirs| - 1];
      ListedAllKeeps(exts, before, clock, alive, used);
      ListedKeeps(ListedAll(exts, before), dirs[|dirs| - 1], clock, alive, used);
    }
  }

  /** What the compaction drops has no process, and what it keeps may count as seen
      only if it was. */
  lemma CompactedKeeps(exts: map<Name, Extension>, clock: int, alive: set<int>, used: set<int>)
    requires ScanInv(exts, clock, alive, used)
    ensures var kept := Compacted(exts);
            (forall n | n in kept :: EntryOk(kept[n], n, clock, used)) && PidsOk(kept, alive, used)
  {
    var kept := Compacted(exts);
    forall n | n in kept
      ensures EntryOk(kept[n], n, clock, used)
    {
      KeptOk(exts[n], n, clock, used);
    }
    hide EntryOk;
    forall p | p in alive
      ensures Recorded(kept, p)
    {
      var k :| k in exts && exts[k].pid == p;
      assert kept[k].pid == p;
    }
    FewerKeys(exts, kept);
  }

  lemma KeptOk(e: Extension, n: Name, clock: int, used: set<int>)
    requires EntryOk(e.(present := true), n, clock, used) && Kept(e)
    ensures EntryOk(e, n, clock, used)
  {}

  lemma FewerKeys(exts: map<Name, Extension>, kept: map<Name, Extension>)
    requires kept.Keys <= exts.Keys
    ensures |kept| <= |exts|
  {
    assert |kept| == |kept.Keys| && |exts| == |exts.Keys|;
    FewerOf(kept.Keys, exts.Keys);
  }

  lemma FewerOf<T>(a: set<T>, b: set<T>)
    requires a <= b
    ensures |a| <= |b|
  {
    assert b == a + (b - a);
  }

  lemma RescanKeeps(s: State, dirs: seq<Dir>)
    requires Inv(s)
    ensures Inv(Do(s, Rescan(dirs)))
  {
    hide EntryOk, PidsOk, ScanInv, Unseen, ListedAll, Compacted;
    UnseenKeeps(s);
    ListedAllKeeps(Unseen(s.exts), dirs, s.clock, s.alive, s.used);
    CompactedKeeps(ListedAll(Unseen(s.exts), dirs), s.clock, s.alive, s.used);
  }

  lemma DoKeeps(s: State, a: Action)
    requires Inv(s)
    ensures Inv(Do(s, a))
  {
    hide Inv, Reconciled, Launches, Scanned, Switched;
    if Possible(s, a) {
      match a
      case Tick(n, now, child, answers) => TickKeeps(s, n, now, child, answers);
      case Exit(p) => ExitKeeps(s, p);
      case Rescan(dirs) => RescanKeeps(s, dirs);
      case Switch(n, on) => SwitchKeeps(s, n, on);
    }
  }

  lemma {:induction false} RunKeeps(s: State, actions: seq<Action>)
    requires Inv(s)
    ensures Inv(Run(s, actions))
    decreases |actions|
  {
    hide Inv, Do;
    if actions != [] {
      DoKeeps(s, actions[0]);
      RunKeeps(Do(s, actions[0]), actions[1..]);
    }
  }

  // ---- Safety over every run -----------------------------------------------------------------------------

  /** n, and no other entry, records the process p. */
  ghost predicate OnlyRecord(exts: map<Name, Extension>, n: Name, p: int) {
    n in exts && exts[n].pid == p && forall k | k in exts && exts[k].pid == p :: k == n
  }

  lemma StartOk()
    ensures Inv(START)
  {}

  /** In every reachable state each live child is the process of exactly one entry,
      a failed extension has none, a running one has one, and no more are listed
      than the registry can hold. */
  lemma SupervisorSafety(actions: seq<Action>)
    ensures var s := Run(START, actions);
            && (forall p | p in s.alive :: exists n :: OnlyRecord(s.exts, n, p))
            && (forall n | n in s.exts && s.exts[n].phase == Failed :: s.exts[n].pid == 0)
            && (forall n | n in s.exts && s.exts[n].phase == Running :: s.exts[n].pid > 0)
            && |s.exts| <= MAX_EXTENSIONS
  {
    hide Run;
    RunKeeps(START, actions);
    var s := Run(START, actions);
    forall p | p in s.alive
      ensures exists n :: OnlyRecord(s.exts, n, p)
    {
      assert Recorded(s.exts, p);
      var n :| n in s.exts && s.exts[n].pid == p;
      assert OnlyRecord(s.exts, n, p);
    }
  }

  /** An extension fails only in a tick that could not launch it, or that has
      noticed five exits of it within 60 seconds. */
  lemma FailsOnlyFor(s: State, n: Name, now: int, child: Option<int>, answers: bool)
    requires Inv(s) && Possible(s, Tick(n, now, child, answers)) && s.exts[n].phase != Failed
    ensures var e := Do(s, Tick(n, now, child, answers)).exts[n];
            e.phase == Failed ==>
              || (Launches(s.exts[n], now, s.alive) && child.None?)
              || (|e.exits| >= CRASH_LIMIT && e.exits[|e.exits| - 1] == now
                  && forall t, u | t in e.exits && u in e.exits :: t - u <= CRASH_WINDOW)
  {
    hide PidsOk;
    var e := s.exts[n];
    EntryOf(s, n);
    if Wanted(e) && IsExited(e, s.alive) { ExitedOk(e, now, s.clock); }
  }

  /** Nothing else makes an extension fail. */
  lemma OnlyTicksFail(s: State, a: Action, n: Name)
    requires !a.Tick? && n in Do(s, a).exts && Do(s, a).exts[n].phase == Failed
    ensures n in s.exts && s.exts[n].phase == Failed
  {
    hide Switched, Scanned;
    match a
    case Tick(_, _, _, _) =>
    case Exit(p) =>
    case Rescan(dirs) =>
      RescanFailed(s.exts, dirs, n);
    case Switch(k, on) =>
      if k == n && k in s.exts { SwitchFailed(s.exts[n], on); }
  }

  lemma SwitchFailed(e: Extension, on: bool)
    ensures Switched(e, on).phase == Failed ==> e.phase == Failed
  {}

  lemma RescanFailed(exts: map<Name, Extension>, dirs: seq<Dir>, n: Name)
    requires n in Scanned(exts, dirs) && Scanned(exts, dirs)[n].phase == Failed
    ensures n in exts && exts[n].phase == Failed
  {
    hide Listed;
    ListedFailed(Unseen(exts), dirs, n);
  }

  lemma {:induction false} ListedFailed(exts: map<Name, Extension>, dirs: seq<Dir>, n: Name)
    requires n in ListedAll(exts, dirs) && ListedAll(exts, dirs)[n].phase == Failed
    ensures n in exts && exts[n].phase == Failed
    decreases |dirs|
  {
    if dirs != [] { ListedFailed(exts, dirs[..|dirs| - 1], n); }
  }

  // ---- Failed until enabled ------------------------------------------------------------------------------------

  /** The extension has no process and nothing will launch it. */
  ghost predicate Quiet(exts: map<Name, Extension>, n: Name) {
    n in exts ==> exts[n].pid == 0 && (!exts[n].enabled || (exts[n].phase == Failed && exts[n].present))
  }

  /** Neither switched on nor found with an unusable manifest. */
  predicate LetsBe(a: Action, n: Name) {
    match a
    case Switch(k, on) => k == n ==> !on
    case Rescan(dirs) => Dir(n, false) !in dirs
    case _ => true
  }

  lemma QuietTick(s: State, k: Name, now: int, child: Option<int>, answers: bool, n: Name)
    requires Quiet(s.exts, n) && Possible(s, Tick(k, now, child, answers))
    ensures var s' := Do(s, Tick(k, now, child, answers));
            Quiet(s'.exts, n) && Get(s'.launches, n) == Get(s.launches, n)
  {
    hide Exited;
  }

  ghost predicate QuietScan(exts: map<Name, Extension>, n: Name) {
    n in exts ==> exts[n].pid == 0 && (!exts[n].enabled || exts[n].phase == Failed)
  }

  lemma {:induction false} QuietListed(exts: map<Name, Extension>, dirs: seq<Dir>, n: Name)
    requires QuietScan(exts, n) && Dir(n, false) !in dirs
    ensures QuietScan(ListedAll(exts, dirs), n)
    decreases |dirs|
  {
    if dirs != [] {
      var before, d := dirs[..|dirs| - 1], dirs[|dirs| - 1];
      QuietListed(exts, before, n);
      assert d in dirs;
      if d.name == n { assert d == Dir(n, d.valid); }
    }
  }

  lemma QuietStep(s: State, a: Action, n: Name)
    requires Quiet(s.exts, n) && LetsBe(a, n)
    ensures Quiet(Do(s, a).exts, n) && Get(Do(s, a).launches, n) == Get(s.launches, n)
  {
    hide Reconciled, Launches, ListedAll;
    if Possible(s, a) {
      match a
      case Tick(k, now, child, answers) => QuietTick(s, k, now, child, answers, n);
      case Exit(p) =>
      case Rescan(dirs) => QuietListed(Unseen(s.exts), dirs, n);
      case Switch(k, on) =>
    }
  }

  lemma {:induction false} QuietRun(s: State, actions: seq<Action>, n: Name)
    requires Quiet(s.exts, n) && forall a | a in actions :: LetsBe(a, n)
    ensures Get(Run(s, actions).launches, n) == Get(s.launches, n)
    decreases |actions|
  {
    hide Quiet, Do, LetsBe;
    if actions != [] {
      assert actions[0] in actions;
      QuietStep(s, actions[0], n);
      QuietRun(Do(s, actions[0]), actions[1..], n);
    }
  }

  /** A failed extension is not launched again by any ticks, exits, rescans and
      switches, as long as it is not enabled and its manifest is not found unusable. */
  lemma FailedUntilEnabled(before: seq<Action>, after: seq<Action>, n: Name)
    requires var s := Run(START, before); n in s.exts && s.exts[n].phase == Failed
    requires forall a | a in after :: LetsBe(a, n)
    ensures var s := Run(START, before); Get(Run(s, after).launches, n) == Get(s.launches, n)
  {
    hide Run, PidsOk, ExitsOk;
    var s := Run(START, before);
    StartOk();
    RunKeeps(START, before);
    EntryOf(s, n);
    QuietRun(s, after, n);
  }

  /** A scan that finds n, and never with an unusable manifest. */
  predicate FindsUsable(a: Action, n: Name)
    requires a.Rescan?
  {
    Dir(n, true) in a.dirs && Dir(n, false) !in a.dirs
  }

  predicate IsFailed(s: State, n: Name) { n in s.exts && s.exts[n].phase == Failed }

  lemma {:induction false} ListedStaysFailed(exts: map<Name, Extension>, dirs: seq<Dir>, n: Name)
    requires n in exts && exts[n].phase == Failed && !exts[n].present
    ensures var r := ListedAll(exts, dirs);
            && n in r && r[n].enabled == exts[n].enabled && r[n].pid == exts[n].pid
            && (r[n].phase == Failed <==> Dir(n, false) !in dirs)
            && (r[n].present <==> Dir(n, true) in dirs || Dir(n, false) in dirs)
    decreases |dirs|
  {
    if dirs != [] {
      var before, d := dirs[..|dirs| - 1], dirs[|dirs| - 1];
      ListedStaysFailed(exts, before, n);
      assert dirs == before + [d];
      if d.name == n { assert d == Dir(n, d.valid); }
    }
  }

  /** While it is not switched, a failed enabled extension stays listed as failed
      except after a scan that does not find it or finds its manifest unusable. */
  lemma LeavesFailedExactly(s: State, a: Action, n: Name)
    requires Inv(s) && IsFailed(s, n) && s.exts[n].enabled && !(a.Switch? && a.name == n)
    ensures IsFailed(Do(s, a), n) <==> (a.Rescan? ==> FindsUsable(a, n))
    ensures IsFailed(Do(s, a), n) ==> Do(s, a).exts[n].enabled
  {
    hide PidsOk, ExitsOk, ListedAll, Exited;
    EntryOf(s, n);
    match a
    case Tick(k, now, child, answers) =>
    case Exit(p) =>
    case Rescan(dirs) => ListedStaysFailed(Unseen(s.exts), dirs, n);
    case Switch(k, on) =>
  }

  /** The extension is listed as failed after every step of the run. */
  ghost predicate FailedThroughout(s: State, actions: seq<Action>, n: Name)
    decreases |actions|
  {
    IsFailed(s, n) && (actions == [] || FailedThroughout(Do(s, actions[0]), actions[1..], n))
  }

  /** Over every run in which nobody switches it: failed throughout exactly when
      every scan finds it and none finds its manifest unusable. */
  lemma {:induction false} FailedThroughoutExactly(s: State, actions: seq<Action>, n: Name)
    requires Inv(s) && IsFailed(s, n) && s.exts[n].enabled && forall a | a in actions :: !(a.Switch? && a.name == n)
    ensures FailedThroughout(s, actions, n) <==> forall a | a in actions && a.Rescan? :: FindsUsable(a, n)
    decreases |actions|
  {
    hide Inv, Do, FindsUsable;
    if actions != [] {
      var a, rest := actions[0], actions[1..];
      assert a in actions && actions == [a] + rest;
      DoKeeps(s, a);
      LeavesFailedExactly(s, a, n);
      if IsFailed(Do(s, a), n) { FailedThroughoutExactly(Do(s, a), rest, n); }
    }
  }

  /** A scan that misses the directory drops a failed extension, and the next one
      that finds it lists it as new: not failed, and switched off. */
  lemma MissedOnceForgets(s: State, n: Name)
    requires Inv(s) && IsFailed(s, n)
    ensures var next := Do(Do(s, Rescan([])), Rescan([Dir(n, true)]));
            n in next.exts && next.exts[n].phase == Disabled && !next.exts[n].enabled
  {
    EntryOf(s, n);
    var dirs := [Dir(n, true)];
    assert dirs[..|dirs| - 1] == [];
    var dropped := Scanned(s.exts, []);
    assert n !in dropped;
    assert ListedAll(Unseen(dropped), []) == Unseen(dropped);
    RescanIs(s, []);
    RescanIs(s.(exts := dropped), dirs);
    hide Inv, Do;
    assert |Unseen(dropped)| < MAX_EXTENSIONS by { DroppedRoom(s.exts, dropped, n); SizeOfUnseen(dropped); RoomOf(s); }
  }

  lemma RoomOf(s: State)
    requires Inv(s)
    ensures |s.exts| <= MAX_EXTENSIONS
  {}

  lemma DroppedRoom(exts: map<Name, Extension>, kept: map<Name, Extension>, n: Name)
    requires kept.Keys <= exts.Keys && n in exts && n !in kept
    ensures |kept| < |exts|
  {
    assert |kept| == |kept.Keys| && |exts| == |exts.Keys|;
    FewerOf(kept.Keys, exts.Keys - {n});
  }

  lemma SizeOfUnseen(exts: map<Name, Extension>)
    ensures |Unseen(exts)| == |exts|
  {
    assert Unseen(exts).Keys == exts.Keys;
    assert |Unseen(exts)| == |Unseen(exts).Keys| && |exts| == |exts.Keys|;
  }

  /** The manifest condition is needed: found unusable once and usable the next time,
      a failed extension is launched again with nobody enabling it. */
  lemma UnusableOnceForgets(s: State, n: Name, now: int, p: int)
    requires Inv(s) && n in s.exts && s.exts[n].phase == Failed && s.exts[n].enabled
    requires now >= s.clock && now >= s.exts[n].nextStart && p > 0 && p !in s.used
    ensures var s' := Run(s, [Rescan([Dir(n, false)]), Rescan([Dir(n, true)]), Tick(n, now, Some(p), false)]);
            Get(s'.launches, n) == Get(s.launches, n) + 1 && p in s'.alive
  {
    hide Run, Inv, Do, Scanned;
    var e := s.exts[n];
    assert e.pid == 0 by { EntryOf(s, n); FailedIdle(s, n); }
    ScanOne(s.exts, n, false);
    var exts1 := Scanned(s.exts, [Dir(n, false)]);
    ScanOne(exts1, n, true);
    var exts2 := Scanned(exts1, [Dir(n, true)]);
    RunThree(s, Rescan([Dir(n, false)]), Rescan([Dir(n, true)]), Tick(n, now, Some(p), false));
    RescanIs(s, [Dir(n, false)]);
    RescanIs(s.(exts := exts1), [Dir(n, true)]);
    LaunchIs(s.(exts := exts2), n, now, p);
  }

  lemma FailedIdle(s: State, n: Name)
    requires Inv(s) && n in s.exts && s.exts[n].phase == Failed
    ensures s.exts[n].pid == 0
  {
    EntryOf(s, n);
  }

  lemma ScanOne(exts: map<Name, Extension>, n: Name, valid: bool)
    requires n in exts
    ensures var r := Scanned(exts, [Dir(n, valid)]);
            n in r && r[n] == Reread(exts[n].(present := false), valid)
  {
    var dirs := [Dir(n, valid)];
    assert dirs[..|dirs| - 1] == [];
    assert ListedAll(Unseen(exts), []) == Unseen(exts);
  }

  lemma RescanIs(s: State, dirs: seq<Dir>)
    ensures Do(s, Rescan(dirs)) == s.(exts := Scanned(s.exts, dirs))
  {
    hide Scanned;
  }

  lemma LaunchIs(s: State, n: Name, now: int, p: int)
    requires n in s.exts && s.exts[n].pid == 0 && s.exts[n].phase == Disabled && s.exts[n].enabled && s.exts[n].present
    requires now >= s.clock && now >= s.exts[n].nextStart && p > 0 && p !in s.used
    ensures var s' := Do(s, Tick(n, now, Some(p), false));
            Get(s'.launches, n) == Get(s.launches, n) + 1 && p in s'.alive
  {}

  lemma RunThree(s: State, a: Action, b: Action, c: Action)
    ensures Run(s, [a, b, c]) == Do(Do(Do(s, a), b), c)
  {
    hide Do;
    assert [a, b, c][1..] == [b, c] && [b, c][1..] == [c] && [c][1..] == [];
    assert Run(Do(Do(s, a), b), [c]) == Do(Do(Do(s, a), b), c);
  }

  // ---- The registry's array -------------------------------------------------------------------------------------

  ghost predicate Distinct(s: seq<Extension>) {
    forall i, j :: 0 <= i < j < |s| ==> s[i].name != s[j].name
  }

  /** The registry by name. */
  function ByName(s: seq<Extension>): map<Name, Extension> {
    if s == [] then map[] else ByName(s[..|s| - 1])[s[|s| - 1].name := s[|s| - 1]]
  }

  lemma {:induction false} ByNameAt(s: seq<Extension>, i: nat)
    requires Distinct(s) && i < |s|
    ensures s[i].name in ByName(s) && ByName(s)[s[i].name] == s[i]
  {
    if i < |s| - 1 {
      ByNameAt(s[..|s| - 1], i);
      assert s[i].name != s[|s| - 1].name;
    }
  }

  lemma {:induction false} ByNameSize(s: seq<Extension>)
    requires Distinct(s)
    ensures |ByName(s)| == |s|
  {
    if s != [] {
      var t, e := s[..|s| - 1], s[|s| - 1];
      ByNameSize(t);
      NotAmong(t, e.name);
      OneMore(ByName(t), e.name, e);
    }
  }

  lemma OneMore(m: map<Name, Extension>, n: Name, e: Extension)
    requires n !in m
    ensures |m[n := e]| == |m| + 1
  {
    assert m[n := e].Keys == m.Keys + {n};
    assert |m[n := e]| == |m[n := e].Keys| && |m| == |m.Keys|;
  }

  lemma {:induction false} NotAmong(s: seq<Extension>, n: Name)
    requires forall i :: 0 <= i < |s| ==> s[i].name != n
    ensures n !in ByName(s)
  {
    if s != [] { NotAmong(s[..|s| - 1], n); }
  }

  lemma {:induction false} ByNameUpdate(s: seq<Extension>, i: nat, e: Extension)
    requires Distinct(s) && i < |s| && e.name == s[i].name
    ensures Distinct(s[i := e]) && ByName(s[i := e]) == ByName(s)[e.name := e]
  {
    var t := s[i := e];
    var last := |s| - 1;
    if i == last {
      assert t[..last] == s[..last];
    } else {
      assert t[..last] == s[..last][i := e];
      ByNameUpdate(s[..last], i, e);
      assert s[i].name != s[last].name;
    }
  }

  function UnseenSeq(s: seq<Extension>): (r: seq<Extension>)
    ensures |r| == |s|
  {
    seq(|s|, i requires 0 <= i < |s| => s[i].(present := false))
  }

  lemma {:induction false} UnseenByName(s: seq<Extension>)
    requires Distinct(s)
    ensures Distinct(UnseenSeq(s)) && ByName(UnseenSeq(s)) == Unseen(ByName(s))
  {
    if s != [] {
      var t := s[..|s| - 1];
      UnseenByName(t);
      assert UnseenSeq(s)[..|s| - 1] == UnseenSeq(t);
    }
  }

  function KeptSeq(s: seq<Extension>): seq<Extension> {
    if s == [] then []
    else KeptSeq(s[..|s| - 1]) + if Kept(s[|s| - 1]) then [s[|s| - 1]] else []
  }

  lemma {:induction false} KeptAmong(s: seq<Extension>)
    ensures |KeptSeq(s)| <= |s| && forall e | e in KeptSeq(s) :: e in s && Kept(e)
  {
    if s != [] { KeptAmong(s[..|s| - 1]); }
  }

  lemma ByNameAdd(s: seq<Extension>, e: Extension)
    requires Distinct(s) && forall i :: 0 <= i < |s| ==> s[i].name != e.name
    ensures Distinct(s + [e]) && ByName(s + [e]) == ByName(s)[e.name := e]
  {
    assert (s + [e])[..|s|] == s;
  }

  lemma CompactedAdd(m: map<Name, Extension>, e: Extension)
    requires e.name !in m
    ensures Compacted(m[e.name := e]) == if Kept(e) then Compacted(m)[e.name := e] else Compacted(m)
  {}

  lemma {:induction false} KeptByName(s: seq<Extension>)
    requires Distinct(s)
    ensures Distinct(KeptSeq(s)) && ByName(KeptSeq(s)) == Compacted(ByName(s))
  {
    hide Compacted;
    if s == [] {
      NothingKept();
    } else {
      var t, e := s[..|s| - 1], s[|s| - 1];
      var k := KeptSeq(t);
      KeptByName(t);
      KeptAmong(t);
      NotAmong(t, e.name);
      CompactedAdd(ByName(t), e);
      if Kept(e) {
        forall i | 0 <= i < |k|
          ensures k[i].name != e.name
        {
          assert k[i] in t;
        }
        ByNameAdd(k, e);
      } else {
        assert k + [] == k;
      }
    }
  }

  lemma KeptNext(s: seq<Extension>, i: nat)
    requires i < |s|
    ensures KeptSeq(s[..i + 1]) == if Kept(s[i]) then KeptSeq(s[..i]) + [s[i]] else KeptSeq(s[..i])
  {
    assert s[..i + 1][..i] == s[..i];
  }

  lemma NoneKept(s: seq<Extension>)
    ensures KeptSeq(s[..0]) == []
  {}

  lemma NothingKept()
    ensures Compacted(map[]) == map[]
  {}

  // ---- The code ---------------------------------------------------------------------------------------------------

  /** request_stop, but for the signals. */
  method RequestStop(ext: Extension, now: int, alive: set<int>) returns (e: Extension)
    ensures e == Stopping(ext, now, alive)
  {
    e := ext;
    if e.pid > 0 {
      if !Alive(e.pid, alive) { e := e.(pid := 0, termSent := 0); }
      else if e.termSent == 0 { e := e.(termSent := now); }
    }
  }

  /** The part of reconcile for a process that is gone. */
  method NoticeExit(ext: Extension, now: int) returns (e: Extension)
    ensures e == Exited(ext, now)
  {
    e := ext.(pid := 0);
    if now - e.crashWindow > CRASH_WINDOW { e := e.(crashWindow := now, crashes := 0, exits := []); }
    e := e.(crashes := e.crashes + 1, exits := e.exits + [now]);
    if e.crashes >= CRASH_LIMIT {
      e := e.(phase := Failed);
    } else {
      e := e.(nextStart := now + e.crashes, phase := Starting);
    }
  }

  /** The branches of reconcile. */
  method Decide(ext: Extension, now: int, alive: set<int>, child: Option<int>, answers: bool)
    returns (e: Extension, launched: bool)
    ensures e == Reconciled(ext, now, alive, child, answers)
    ensures e.name == ext.name
    ensures launched == (Launches(ext, now, alive) && child.Some?)
  {
    e, launched := ext, false;
    if !(e.enabled && e.phase != Invalid && e.present) {
      e := RequestStop(e, now, alive);
      if e.phase != Invalid { e := e.(phase := Disabled); }
      return;
    }
    if e.phase == Failed && e.pid == 0 { return; }
    if e.pid != 0 && !Alive(e.pid, alive) {
      e := NoticeExit(e, now);
      if e.phase == Failed { return; }
    }
    if e.pid == 0 {
      if now < e.nextStart { return; }
      launched := child.Some?;
      e := if launched then e.(pid := child.value, phase := Starting) else e.(phase := Failed);
      return;
    }
    e := e.(phase := if answers then Running else Starting);
  }

  class Registry {
    const ext: array<Extension>
    var count: nat

    ghost predicate Valid()
      reads this, ext
    {
      ext.Length == MAX_EXTENSIONS && count <= ext.Length && Distinct(ext[..count])
    }

    ghost function Entries(): map<Name, Extension>
      requires Valid()
      reads this, ext
    {
      ByName(ext[..count])
    }

    constructor ()
      ensures Valid() && fresh(ext) && Entries() == map[]
    {
      ext := new Extension[MAX_EXTENSIONS](_ => Fresh(""));
      count := 0;
    }

    /** find */
    method Find(n: Name) returns (i: nat)
      requires Valid()
      ensures i < count ==> ext[i].name == n && n in Entries() && Entries()[n] == ext[i]
      ensures i >= count ==> i == count && n !in Entries() && forall k :: 0 <= k < count ==> ext[k].name != n
    {
      i := 0;
      while i < count && ext[i].name != n
        invariant i <= count && forall k :: 0 <= k < i ==> ext[k].name != n
      {
        i := i + 1;
      }
      if i < count { ByNameAt(ext[..count], i); } else { NotAmong(ext[..count], n); }
    }

    /** Writes one entry back under its name. */
    method Put(i: nat, e: Extension)
      requires Valid() && i < count && e.name == ext[i].name
      modifies ext
      ensures Valid() && Entries() == old(Entries())[e.name := e] && ext[i] == e
    {
      ByNameUpdate(ext[..count], i, e);
      ext[i] := e;
      assert ext[..count] == old(ext[..count])[i := e];
    }

    /** reconcile, one supervisor tick for the entry at i. */
    method Reconcile(i: nat, now: int, alive: set<int>, child: Option<int>, answers: bool) returns (launched: bool)
      requires Valid() && i < count
      modifies ext
      ensures Valid()
      ensures Entries() == old(Entries())[old(ext[i]).name := Reconciled(old(ext[i]), now, alive, child, answers)]
      ensures launched == (Launches(old(ext[i]), now, alive) && child.Some?)
    {
      hide Reconciled, Launches, Distinct;
      var e;
      e, launched := Decide(ext[i], now, alive, child, answers);
      Put(i, e);
    }

    /** The first loop of scan_locked. */
    method Forget()
      requires Valid()
      modifies ext
      ensures Valid() && Entries() == Unseen(old(Entries()))
    {
      for i := 0 to count
        invariant forall k :: 0 <= k < i ==> ext[k] == old(ext[k]).(present := false)
        invariant forall k :: i <= k < count ==> ext[k] == old(ext[k])
      {
        ext[i] := ext[i].(present := false);
      }
      UnseenByName(old(ext[..count]));
      assert ext[..count] == UnseenSeq(old(ext[..count]));
    }

    /** One directory of the second loop. */
    method List(d: Dir)
      requires Valid()
      modifies this, ext
      ensures Valid() && Entries() == Listed(old(Entries()), d)
    {
      hide Distinct;
      var i := Find(d.name);
      ByNameSize(ext[..count]);
      if i == count {
        if count >= MAX_EXTENSIONS { return; }
        Append(Fresh(d.name));
      }
      Put(i, Reread(ext[i], d.valid));
    }

    /** The next free element of the array. */
    method Append(e: Extension)
      requires Valid() && count < MAX_EXTENSIONS && forall k :: 0 <= k < count ==> ext[k].name != e.name
      modifies this, ext
      ensures Valid() && count == old(count) + 1 && ext[count - 1] == e
      ensures Entries() == old(Entries())[e.name := e]
    {
      ByNameAdd(ext[..count], e);
      ext[count] := e;
      count := count + 1;
      assert ext[..count] == old(ext[..count]) + [e];
    }

    /** The compaction in place. */
    method Compact()
      requires Valid()
      modifies this, ext
      ensures Valid() && Entries() == Compacted(old(Entries()))
    {
      hide Distinct, Kept, KeptSeq, ByName;
      ghost var s := ext[..count];
      var kept := 0;
      NoneKept(s);
      for i := 0 to count
        invariant count == |s| && kept <= i && ext[..kept] == KeptSeq(s[..i])
        invariant forall k :: i <= k < |s| ==> ext[k] == s[k]
      {
        ghost var done := ext[..kept];
        KeptNext(s, i);
        if Kept(ext[i]) {
          ext[kept] := ext[i];
          kept := kept + 1;
          assert ext[..kept] == done + [s[i]];
        }
      }
      assert s[..count] == s;
      KeptByName(s);
      count := kept;
    }

    /** scan_locked: what stands in the directories, and with which manifests, is given. */
    method Scan(dirs: seq<Dir>)
      requires Valid()
      modifies this, ext
      ensures Valid() && Entries() == Scanned(old(Entries()), dirs)
    {
      hide Listed, Compacted, Unseen;
      Forget();
      ghost var start := Entries();
      for i := 0 to |dirs|
        invariant Valid() && Entries() == ListedAll(start, dirs[..i])
      {
        assert dirs[..i + 1][..i] == dirs[..i];
        List(dirs[i]);
      }
      assert dirs[..|dirs|] == dirs;
      Compact();
    }

    /** The first look of extensions_set_enabled, under its own lock. */
    method CanSwitch(n: Name) returns (ok: bool)
      requires Valid()
      ensures ok == (n in Entries() && Entries()[n].present && Entries()[n].phase != Invalid)
    {
      var i := Find(n);
      ok := i < count && ext[i].present && ext[i].phase != Invalid;
    }

    /** The switch itself, under the lock again: by then the entry may be gone. */
    method SwitchNow(n: Name, on: bool)
      requires Valid()
      modifies ext
      ensures Valid()
      ensures Entries() == if n in old(Entries()) then old(Entries())[n := Switched(old(Entries())[n], on)] else old(Entries())
    {
      var i := Find(n);
      if i < count {
        var e := ext[i].(enabled := on);
        if on {
          e := e.(crashes := 0, exits := [], nextStart := 0);
          if e.phase == Failed { e := e.(phase := Disabled); }
        }
        Put(i, e);
      }
    }

    /** extensions_set_enabled, with the rescan that may come between its two locks:
        -1 when it cannot be switched, -2 when the choice could not be stored, and 0
        even when the entry is gone by then. */
    method SetEnabled(n: Name, on: bool, stored: bool, between: Option<seq<Dir>>) returns (rc: int)
      requires Valid()
      modifies this, ext
      ensures Valid()
      ensures rc == -1 <==> !(n in old(Entries()) && old(Entries())[n].present && old(Entries())[n].phase != Invalid)
      ensures rc != -1 ==> (rc == if stored then 0 else -2)
      ensures var seen := if rc == 0 && between.Some? then Scanned(old(Entries()), between.value) else old(Entries());
              Entries() == if rc == 0 && n in seen then seen[n := Switched(seen[n], on)] else seen
    {
      hide Scanned, Switched;
      var ok := CanSwitch(n);
      if !ok { return -1; }
      if !stored { return -2; }
      if between.Some? { Scan(between.value); }
      SwitchNow(n, on);
      return 0;
    }
  }
}
