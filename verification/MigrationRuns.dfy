/**
  Several runners at once, each with a checkout of its own, that may crash at any point: the
  advisory lock admits one at a time, a wrapped file commits together with its record, and a
  self-transactional one is recorded only afterwards.
 */
module MigrationRuns {
  import opened Wrappers
  import opened Migrations

  datatype Phase =
    | Waiting
    | Running(seen: map<string, string>, i: nat)
    | InTransaction(seen: map<string, string>, i: nat)  // effect and record written, not committed
    | Window(seen: map<string, string>, i: nat)         // effect committed, record still to write
    | Finished
    | Refused(file: string)
    | Broken

  datatype Runner = Runner(files: seq<File>, phase: Phase)

  /** `abandoned` are the files whose runner vanished between their effect and their record. */
  datatype State = State(db: Db, lock: Option<nat>, runners: map<nat, Runner>, abandoned: seq<string>)

  datatype Act =
    | Start(r: nat, files: seq<File>)
    | Acquire(r: nat)      // takes the lock and reads what was applied
    | Advance(r: nat)      // looks at the next file
    | Fail(r: nat)         // its content is refused by the database
    | Commit(r: nat)
    | RecordAfter(r: nat)  // the record of a self-transactional file
    | Crash(r: nat)

  function SetPhase(s: State, r: nat, p: Phase): State
    requires r in s.runners
  {
    s.(runners := s.runners[r := s.runners[r].(phase := p)])
  }

  /** The connection ends: the lock goes with it. */
  function Leave(s: State, r: nat, p: Phase): State
    requires r in s.runners
  {
    SetPhase(s, r, p).(lock := if s.lock == Some(r) then None else s.lock)
  }

  predicate Busy(p: Phase) { p.Running? || p.InTransaction? || p.Window? }

  predicate AtFile(x: Runner) { Busy(x.phase) && x.phase.i < |x.files| }

  /** One step, or None when it cannot happen. */
  function Step(s: State, a: Act): Option<State> {
    match a
    case Start(r, files) =>
      if r in s.runners || !DistinctNames(files) then None
      else Some(s.(runners := s.runners[r := Runner(files, Waiting)]))
    case Acquire(r) =>
      if r !in s.runners || !s.runners[r].phase.Waiting? || s.lock.Some? then None
      else Some(SetPhase(s, r, Running(s.db.applied, 0)).(lock := Some(r)))
    case Advance(r) =>
      if r !in s.runners || !s.runners[r].phase.Running? then None else Some(AdvanceStep(s, r))
    case Fail(r) =>
      if r !in s.runners || !AtFile(s.runners[r]) || s.runners[r].phase.Window? then None else Some(Leave(s, r, Broken))
    case Commit(r) =>
      if r !in s.runners || !s.runners[r].phase.InTransaction? || !AtFile(s.runners[r]) then None
      else
        var x := s.runners[r];
        var f := x.files[x.phase.i];
        if f.name in s.db.applied then Some(Leave(s, r, Broken))
        else Some(SetPhase(s, r, Running(x.phase.seen, x.phase.i + 1)).(db := Record(Effect(s.db, f), f)))
    case RecordAfter(r) =>
      if r !in s.runners || !s.runners[r].phase.Window? || !AtFile(s.runners[r]) then None
      else
        var x := s.runners[r];
        var f := x.files[x.phase.i];
        if f.name in s.db.applied then Some(Abandon(Leave(s, r, Broken), f.name))
        else Some(SetPhase(s, r, Running(x.phase.seen, x.phase.i + 1)).(db := Record(s.db, f)))
    case Crash(r) =>
      if r !in s.runners then None
      else
        var x := s.runners[r];
        var gone := Leave(s, r, Broken);
        Some(if x.phase.Window? && AtFile(x) then Abandon(gone, x.files[x.phase.i].name) else gone)
  }

  function Abandon(s: State, file: string): State { s.(abandoned := s.abandoned + [file]) }

  function AdvanceStep(s: State, r: nat): State
    requires r in s.runners && s.runners[r].phase.Running?
  {
    var x := s.runners[r];
    var seen, i := x.phase.seen, x.phase.i;
    if i >= |x.files| then Leave(s, r, Finished)
    else
      var f := x.files[i];
      if f.name in seen then
        if seen[f.name] != f.checksum then Leave(s, r, Refused(f.name)) else SetPhase(s, r, Running(seen, i + 1))
      else if f.selfTransactional then SetPhase(s, r, Window(seen, i)).(db := Effect(s.db, f))
      else SetPhase(s, r, InTransaction(seen, i))
  }

  ghost predicate Reaches(s: State, acts: seq<Act>, e: State)
    decreases |acts|
  {
    if acts == [] then s == e else Step(s, acts[0]).Some? && Reaches(Step(s, acts[0]).value, acts[1..], e)
  }

  const BOOT := State(Db(map[], []), None, map[], [])

  // ---------------------------------------------------------------------------
  // Accounting
  // ---------------------------------------------------------------------------

  function Times(names: seq<string>, name: string): nat {
    if names == [] then 0 else Times(names[..|names| - 1], name) + if names[|names| - 1] == name then 1 else 0
  }

  lemma TimesSnoc(names: seq<string>, n: string, name: string)
    ensures Times(names + [n], name) == Times(names, name) + if n == name then 1 else 0
  {
    assert (names + [n])[..|names|] == names;
  }

  /** The file whose record is being awaited by the lock's holder. */
  function Pending(s: State): Option<string> {
    if s.lock.Some? && s.lock.value in s.runners && s.runners[s.lock.value].phase.Window? && AtFile(s.runners[s.lock.value])
    then Some(s.runners[s.lock.value].files[s.runners[s.lock.value].phase.i].name) else None
  }

  /** Only the lock's holder is at work, and the names of a directory are distinct. */
  ghost predicate Exclusive(s: State) {
    && (forall r <- s.runners :: DistinctNames(s.runners[r].files))
    && forall r <- s.runners :: Busy(s.runners[r].phase) ==> s.lock == Some(r) && WellPlaced(s.runners[r])
  }

  /** The file at hand is in the list and, when it is being applied, was not seen as applied. */
  predicate WellPlaced(x: Runner)
    requires Busy(x.phase)
  {
    && x.phase.i <= |x.files|
    && (!x.phase.Running? ==> x.phase.i < |x.files| && x.files[x.phase.i].name !in x.phase.seen)
  }

  /** What took effect is what was recorded, what was abandoned, and what is about to be recorded. */
  ghost predicate Accounted(s: State, name: string) {
    Times(s.db.effects, name) ==
    (if name in s.db.applied then 1 else 0) + Times(s.abandoned, name) + (if Pending(s) == Some(name) then 1 else 0)
  }

  /** The holder's picture of the table is the table, but for what it has just added itself. */
  ghost predicate Current(s: State) {
    && (s.lock.Some? ==> s.lock.value in s.runners && Busy(s.runners[s.lock.value].phase))
    && forall r <- s.runners :: Busy(s.runners[r].phase) ==>
         Picture(s.db.applied, s.runners[r].files, s.runners[r].phase.seen, s.runners[r].phase.i)
  }

  ghost predicate Picture(applied: map<string, string>, files: seq<File>, seen: map<string, string>, i: nat) {
    && i <= |files|
    && (forall n <- seen :: n in applied && applied[n] == seen[n])
    && (forall n <- applied :: n in seen || exists k :: 0 <= k < i && files[k].name == n)
    && (forall k :: 0 <= k < i ==> files[k].name in applied && applied[files[k].name] == files[k].checksum)
  }

  ghost predicate Inv(s: State, name: string) { Exclusive(s) && Current(s) && Accounted(s, name) }

  lemma {:induction false} PictureGrows(applied: map<string, string>, files: seq<File>, seen: map<string, string>, i: nat)
    requires Picture(applied, files, seen, i) && i < |files| && DistinctNames(files) && files[i].name !in seen
    ensures files[i].name !in applied
    ensures Picture(applied[files[i].name := files[i].checksum], files, seen, i + 1)
  {
    forall n <- applied[files[i].name := files[i].checksum]
      ensures n in seen || exists k :: 0 <= k < i + 1 && files[k].name == n
    {
      if n !in applied { assert files[i].name == n; }
    }
  }

  lemma AdvanceKeepsExclusive(s: State, a: Act)
    requires Exclusive(s) && a.Advance? && Step(s, a).Some?
    ensures Exclusive(Step(s, a).value)
  {
  }

  lemma StepKeepsExclusive(s: State, a: Act)
    requires Exclusive(s) && Step(s, a).Some?
    ensures Exclusive(Step(s, a).value)
  {
    if a.Advance? { AdvanceKeepsExclusive(s, a); }
  }

  function Sign(b: bool): nat { if b then 1 else 0 }

  lemma TimesAdd(names: seq<string>, extra: seq<string>, name: string)
    requires |extra| <= 1
    ensures Times(names + extra, name) == Times(names, name) + Sign(extra == [name])
  {
    if extra == [] {
      assert names + extra == names;
    } else {
      assert extra == [extra[0]];
      TimesSnoc(names, extra[0], name);
    }
  }

  /** The counters after a step, from what it added to the two lists. */
  lemma Recount(s: State, e: State, name: string, effect: seq<string>, lost: seq<string>)
    requires Accounted(s, name) && |effect| <= 1 && |lost| <= 1
    requires e.db.effects == s.db.effects + effect && e.abandoned == s.abandoned + lost
    requires
      Sign(effect == [name]) + Sign(name in s.db.applied) + Sign(Pending(s) == Some(name))
      == Sign(name in e.db.applied) + Sign(lost == [name]) + Sign(Pending(e) == Some(name))
    ensures Accounted(e, name)
  {
    TimesAdd(s.db.effects, effect, name);
    TimesAdd(s.abandoned, lost, name);
  }

  lemma AdvanceKeepsAccounted(s: State, r: nat, name: string)
    requires Exclusive(s) && Accounted(s, name) && Step(s, Advance(r)).Some?
    ensures Accounted(Step(s, Advance(r)).value, name)
  {
    var e, x := Step(s, Advance(r)).value, s.runners[r];
    var enters := e.runners[r].phase.Window?;
    Recount(s, e, name, if enters then [x.files[x.phase.i].name] else [], []);
  }

  lemma CommitKeepsAccounted(s: State, r: nat, name: string)
    requires Exclusive(s) && Accounted(s, name) && Step(s, Commit(r)).Some?
    ensures Accounted(Step(s, Commit(r)).value, name)
  {
    var e, f := Step(s, Commit(r)).value, s.runners[r].files[s.runners[r].phase.i];
    Recount(s, e, name, if f.name in s.db.applied then [] else [f.name], []);
  }

  lemma RecordKeepsAccounted(s: State, r: nat, name: string)
    requires Exclusive(s) && Accounted(s, name) && Step(s, RecordAfter(r)).Some?
    ensures Accounted(Step(s, RecordAfter(r)).value, name)
  {
    var e, f := Step(s, RecordAfter(r)).value, s.runners[r].files[s.runners[r].phase.i];
    Recount(s, e, name, [], if f.name in s.db.applied then [f.name] else []);
  }

  lemma CrashKeepsAccounted(s: State, r: nat, name: string)
    requires Exclusive(s) && Accounted(s, name) && Step(s, Crash(r)).Some?
    ensures Accounted(Step(s, Crash(r)).value, name)
  {
    var e, x := Step(s, Crash(r)).value, s.runners[r];
    Recount(s, e, name, [], if x.phase.Window? && AtFile(x) then [x.files[x.phase.i].name] else []);
  }

  lemma StepKeepsAccounted(s: State, a: Act, name: string)
    requires Exclusive(s) && Accounted(s, name) && Step(s, a).Some?
    ensures Accounted(Step(s, a).value, name)
  {
    match a
    case Advance(r) => AdvanceKeepsAccounted(s, r, name);
    case Commit(r) => CommitKeepsAccounted(s, r, name);
    case RecordAfter(r) => RecordKeepsAccounted(s, r, name);
    case Crash(r) => CrashKeepsAccounted(s, r, name);
    case _ => Recount(s, Step(s, a).value, name, [], []);
  }

  lemma RecordingKeepsCurrent(s: State, a: Act)
    requires Exclusive(s) && Current(s) && (a.Commit? || a.RecordAfter?) && Step(s, a).Some?
    ensures Current(Step(s, a).value)
  {
    var x := s.runners[a.r];
    PictureGrows(s.db.applied, x.files, x.phase.seen, x.phase.i);
  }

  lemma StepKeepsCurrent(s: State, a: Act)
    requires Exclusive(s) && Current(s) && Step(s, a).Some?
    ensures Current(Step(s, a).value)
  {
    if a.Commit? || a.RecordAfter? { RecordingKeepsCurrent(s, a); }
  }

  /** How runners that are through left things. */
  ghost predicate Concluded(s: State) {
    forall r <- s.runners :: ConcludedFor(s.db, s.runners[r])
  }

  predicate Applied(db: Db, f: File) { f.name in db.applied && db.applied[f.name] == f.checksum }

  ghost predicate Changed(db: Db, files: seq<File>, name: string) {
    exists k :: 0 <= k < |files| && files[k].name == name && name in db.applied && db.applied[name] != files[k].checksum
  }

  /** Records are only ever added. */
  ghost predicate OnlyAdds(db: Db, after: Db) {
    && (forall n <- db.applied :: n in after.applied && after.applied[n] == db.applied[n])
    && db.effects <= after.effects
  }

  lemma StepOnlyAdds(s: State, a: Act)
    requires Step(s, a).Some?
    ensures OnlyAdds(s.db, Step(s, a).value.db)
  {
  }

  /** How one runner that is through left things. */
  ghost predicate ConcludedFor(db: Db, x: Runner) {
    && (x.phase.Finished? ==> forall k :: 0 <= k < |x.files| ==> Applied(db, x.files[k]))
    && (x.phase.Refused? ==> Changed(db, x.files, x.phase.file))
  }

  lemma StaysConcluded(db: Db, after: Db, x: Runner)
    requires ConcludedFor(db, x) && OnlyAdds(db, after)
    ensures ConcludedFor(after, x)
  {
    if x.phase.Finished? {
      forall k | 0 <= k < |x.files| ensures Applied(after, x.files[k]) { assert Applied(db, x.files[k]); }
    }
    if x.phase.Refused? {
      var k :| 0 <= k < |x.files| && x.files[k].name == x.phase.file && x.phase.file in db.applied
               && db.applied[x.phase.file] != x.files[k].checksum;
      assert after.applied[x.phase.file] != x.files[k].checksum;
    }
  }

  /** A step moves one runner; the others stay as they were, and so does what they left. */
  lemma OthersStayConcluded(s: State, e: State, moved: nat)
    requires Concluded(s) && OnlyAdds(s.db, e.db) && moved in e.runners && ConcludedFor(e.db, e.runners[moved])
    requires e.runners == s.runners[moved := e.runners[moved]]
    ensures Concluded(e)
  {
    forall r <- e.runners ensures ConcludedFor(e.db, e.runners[r]) {
      if r != moved { StaysConcluded(s.db, e.db, s.runners[r]); }
    }
  }

  /** A runner that runs out of files has found or made each of them recorded. */
  lemma FinishConcludes(s: State, r: nat)
    requires Current(s) && r in s.runners && s.runners[r].phase.Running? && s.runners[r].phase.i >= |s.runners[r].files|
    ensures ConcludedFor(s.db, s.runners[r].(phase := Finished))
  {
    var x := s.runners[r];
    assert Picture(s.db.applied, x.files, x.phase.seen, x.phase.i);
  }

  /** A runner that refuses has met a file recorded otherwise. */
  lemma RefuseConcludes(s: State, r: nat)
    requires Current(s) && r in s.runners && s.runners[r].phase.Running? && s.runners[r].phase.i < |s.runners[r].files|
    requires
      var f := s.runners[r].files[s.runners[r].phase.i];
      f.name in s.runners[r].phase.seen && s.runners[r].phase.seen[f.name] != f.checksum
    ensures ConcludedFor(s.db, s.runners[r].(phase := Refused(s.runners[r].files[s.runners[r].phase.i].name)))
  {
    var x := s.runners[r];
    assert Picture(s.db.applied, x.files, x.phase.seen, x.phase.i);
    assert x.files[x.phase.i].name in s.db.applied;
  }

  lemma AdvanceKeepsConcluded(s: State, r: nat)
    requires Current(s) && Concluded(s) && Step(s, Advance(r)).Some?
    ensures Concluded(Step(s, Advance(r)).value)
  {
    var x, e := s.runners[r], Step(s, Advance(r)).value;
    if x.phase.i >= |x.files| {
      FinishConcludes(s, r);
    } else if x.files[x.phase.i].name in x.phase.seen && x.phase.seen[x.files[x.phase.i].name] != x.files[x.phase.i].checksum {
      RefuseConcludes(s, r);
    }
    StepOnlyAdds(s, Advance(r));
    OthersStayConcluded(s, e, r);
  }

  /** No other step brings a runner to its end. */
  lemma OtherStepsConcludeNothing(s: State, a: Act)
    requires Step(s, a).Some? && !a.Advance?
    ensures
      var e := Step(s, a).value;
      a.r in e.runners && e.runners == s.runners[a.r := e.runners[a.r]] && ConcludedFor(e.db, e.runners[a.r])
  {
  }

  lemma StepKeepsConcluded(s: State, a: Act)
    requires Current(s) && Concluded(s) && Step(s, a).Some?
    ensures Concluded(Step(s, a).value)
  {
    if a.Advance? {
      AdvanceKeepsConcluded(s, a.r);
    } else {
      StepOnlyAdds(s, a);
      OtherStepsConcludeNothing(s, a);
      OthersStayConcluded(s, Step(s, a).value, a.r);
    }
  }

  ghost predicate RunInv(s: State, name: string) { Inv(s, name) && Concluded(s) }

  lemma {:induction false} RunKeepsInv(s: State, acts: seq<Act>, e: State, name: string)
    requires RunInv(s, name) && Reaches(s, acts, e)
    ensures RunInv(e, name)
    decreases |acts|
  {
    if acts != [] {
      var next := Step(s, acts[0]).value;
      StepKeepsExclusive(s, acts[0]);
      StepKeepsCurrent(s, acts[0]);
      StepKeepsAccounted(s, acts[0], name);
      StepKeepsConcluded(s, acts[0]);
      RunKeepsInv(next, acts[1..], e, name);
    }
  }

  /**
    With any number of runners and a crash anywhere: what took effect is accounted for, a runner
    that finished found or made every one of its files recorded as it has it, and one that
    refused did so because a recorded file has changed since.
   */
  lemma EveryRunIsAccounted(acts: seq<Act>, e: State, name: string)
    requires Reaches(BOOT, acts, e)
    ensures Accounted(e, name) && Concluded(e)
  {
    RunKeepsInv(BOOT, acts, e, name);
  }

  // ---------------------------------------------------------------------------
  // Wrapped files
  // ---------------------------------------------------------------------------

  ghost predicate Wrapped(files: seq<File>, name: string) {
    forall k :: 0 <= k < |files| && files[k].name == name ==> !files[k].selfTransactional
  }

  ghost predicate WrappedEverywhere(s: State, name: string) {
    (forall r <- s.runners :: WrappedFor(s.runners[r], name)) && Times(s.abandoned, name) == 0
  }

  ghost predicate WrappedFor(x: Runner, name: string) {
    && Wrapped(x.files, name)
    && (x.phase.Window? && AtFile(x) ==> x.files[x.phase.i].name != name)
  }

  lemma RunnerStaysWrapped(s: State, a: Act, r: nat, name: string)
    requires WrappedEverywhere(s, name) && Step(s, a).Some? && (a.Start? ==> Wrapped(a.files, name))
    requires r in Step(s, a).value.runners
    ensures WrappedFor(Step(s, a).value.runners[r], name)
  {
    if r in s.runners { assert WrappedFor(s.runners[r], name); }
  }

  /** What a step abandons is the file at hand of a runner in its window. */
  lemma AbandonedIsPending(s: State, a: Act)
    requires Step(s, a).Some? && Step(s, a).value.abandoned != s.abandoned
    ensures a.RecordAfter? || a.Crash?
    ensures a.r in s.runners && s.runners[a.r].phase.Window? && AtFile(s.runners[a.r])
    ensures Step(s, a).value.abandoned == s.abandoned + [s.runners[a.r].files[s.runners[a.r].phase.i].name]
  {
  }

  lemma StepKeepsWrapped(s: State, a: Act, name: string)
    requires WrappedEverywhere(s, name) && Step(s, a).Some? && (a.Start? ==> Wrapped(a.files, name))
    ensures WrappedEverywhere(Step(s, a).value, name)
  {
    var e := Step(s, a).value;
    forall r <- e.runners ensures WrappedFor(e.runners[r], name) { RunnerStaysWrapped(s, a, r, name); }
    if e.abandoned != s.abandoned {
      AbandonedIsPending(s, a);
      assert WrappedFor(s.runners[a.r], name);
      TimesSnoc(s.abandoned, s.runners[a.r].files[s.runners[a.r].phase.i].name, name);
    }
  }

  lemma {:induction false} RunKeepsWrapped(s: State, acts: seq<Act>, e: State, name: string)
    requires WrappedEverywhere(s, name) && Reaches(s, acts, e)
    requires forall i :: 0 <= i < |acts| && acts[i].Start? ==> Wrapped(acts[i].files, name)
    ensures WrappedEverywhere(e, name)
    decreases |acts|
  {
    if acts != [] {
      StepKeepsWrapped(s, acts[0], name);
      RunKeepsWrapped(Step(s, acts[0]).value, acts[1..], e, name);
    }
  }

  /** A file that is wrapped in every checkout takes effect exactly once, and exactly when it is recorded. */
  lemma WrappedExactlyOnce(acts: seq<Act>, e: State, name: string)
    requires Reaches(BOOT, acts, e)
    requires forall i :: 0 <= i < |acts| && acts[i].Start? ==> Wrapped(acts[i].files, name)
    ensures Times(e.db.effects, name) == if name in e.db.applied then 1 else 0
  {
    EveryRunIsAccounted(acts, e, name);
    RunKeepsWrapped(BOOT, acts, e, name);
  }

  /** Under the lock, no runner ever finds its file recorded by another meanwhile. */
  lemma LockPreventsCollisions(acts: seq<Act>, e: State, r: nat)
    requires Reaches(BOOT, acts, e) && r in e.runners
    requires e.runners[r].phase.InTransaction? || e.runners[r].phase.Window?
    ensures AtFile(e.runners[r]) && e.runners[r].files[e.runners[r].phase.i].name !in e.db.applied
  {
    RunKeepsInv(BOOT, acts, e, "");
    var x := e.runners[r];
    PictureGrows(e.db.applied, x.files, x.phase.seen, x.phase.i);
  }

  /** A record, once made, is never changed by any run. */
  lemma {:induction false} RecordsAreForEver(s: State, acts: seq<Act>, e: State)
    requires Reaches(s, acts, e)
    ensures OnlyAdds(s.db, e.db)
    decreases |acts|
  {
    if acts != [] {
      StepOnlyAdds(s, acts[0]);
      RecordsAreForEver(Step(s, acts[0]).value, acts[1..], e);
    }
  }

  /**
    The window the header of the runner admits: a file takes effect exactly once and exactly when
    recorded, unless a runner vanished, or stands, between its effect and its record.
   */
  lemma ExactlyOnceIff(acts: seq<Act>, e: State, name: string)
    requires Reaches(BOOT, acts, e)
    ensures Times(e.db.effects, name) == (if name in e.db.applied then 1 else 0) <==>
              Times(e.abandoned, name) == 0 && Pending(e) != Some(name)
  {
    EveryRunIsAccounted(acts, e, name);
  }

  /** A crash in that window abandons the file unrecorded, and the next runner will apply it again. */
  lemma CrashInWindow(s: State, r: nat)
    requires Exclusive(s) && Current(s) && r in s.runners && s.runners[r].phase.Window?
    ensures
      var name := s.runners[r].files[s.runners[r].phase.i].name;
      var e := Step(s, Crash(r)).value;
      && Times(e.abandoned, name) == Times(s.abandoned, name) + 1
      && name !in e.db.applied && e.lock == None
  {
    var x := s.runners[r];
    var name := x.files[x.phase.i].name;
    TimesSnoc(s.abandoned, name, name);
    PictureGrows(s.db.applied, x.files, x.phase.seen, x.phase.i);
  }

  // ---------------------------------------------------------------------------
  // A runner that nothing stops is the runner alone
  // ---------------------------------------------------------------------------

  /** The steps of runner `r` from its file `i` on, when the files `fails` names are refused. */
  function StepsOf(r: nat, files: seq<File>, seen: map<string, string>, i: nat, fails: string -> bool): seq<Act>
    requires i <= |files|
    decreases |files| - i
  {
    if i == |files| then [Advance(r)]
    else
      var f := files[i];
      if f.name in seen then
        if seen[f.name] != f.checksum then [Advance(r)] else [Advance(r)] + StepsOf(r, files, seen, i + 1, fails)
      else if fails(f.name) then [Act.Fail(r)]
      else if f.selfTransactional then [Advance(r), RecordAfter(r)] + StepsOf(r, files, seen, i + 1, fails)
      else [Advance(r), Commit(r)] + StepsOf(r, files, seen, i + 1, fails)
  }

  function PhaseOf(o: Outcome): Phase {
    match o
    case UpToDate => Finished
    case ChangedAfterwards(file) => Refused(file)
    case ContentFailed(_) => Broken
  }

  /** The runner at its file `i`, knowing what is recorded. */
  ghost predicate AtWork(s: State, r: nat, files: seq<File>, seen: map<string, string>, i: nat) {
    && r in s.runners && s.runners[r] == Runner(files, Running(seen, i))
    && DistinctNames(files) && Picture(s.db.applied, files, seen, i)
  }

  lemma OneStep(s: State, a: Act, mid: State, rest: seq<Act>, e: State)
    requires Step(s, a) == Some(mid) && Reaches(mid, rest, e)
    ensures Reaches(s, [a] + rest, e)
  {
    assert ([a] + rest)[1..] == rest;
  }

  lemma LastStep(s: State, a: Act, e: State)
    requires Step(s, a) == Some(e)
    ensures Reaches(s, [a], e)
  {
    assert [a][1..] == [];
  }

  lemma TwoSteps(s: State, a: Act, m1: State, b: Act, m2: State, rest: seq<Act>, e: State)
    requires Step(s, a) == Some(m1) && Step(m1, b) == Some(m2) && Reaches(m2, rest, e)
    ensures Reaches(s, [a, b] + rest, e)
  {
    OneStep(m1, b, m2, rest, e);
    OneStep(s, a, m1, [b] + rest, e);
    assert [a] + ([b] + rest) == [a, b] + rest;
  }

  /** The two steps that apply a file, wrapped or not, leave its effect and its record. */
  lemma AppliesOne(s: State, r: nat, files: seq<File>, seen: map<string, string>, i: nat) returns (mid: State, next: State)
    requires AtWork(s, r, files, seen, i) && i < |files| && files[i].name !in seen
    ensures Step(s, Advance(r)) == Some(mid)
    ensures Step(mid, if files[i].selfTransactional then RecordAfter(r) else Commit(r)) == Some(next)
    ensures next.db == Record(Effect(s.db, files[i]), files[i]) && AtWork(next, r, files, seen, i + 1)
  {
    PictureGrows(s.db.applied, files, seen, i);
    mid := Step(s, Advance(r)).value;
    next := Step(mid, if files[i].selfTransactional then RecordAfter(r) else Commit(r)).value;
  }

  /**
    Left to itself, a runner takes the steps of the loop: it ends up to date, refused at the same
    file or broken on the same content, with the same effects and records.
   */
  lemma {:induction false} RunnerIsTheLoop(s: State, r: nat, files: seq<File>, seen: map<string, string>, i: nat, fails: string -> bool)
    returns (e: State)
    requires AtWork(s, r, files, seen, i)
    ensures Reaches(s, StepsOf(r, files, seen, i, fails), e)
    ensures e.db == Migrated(s.db, seen, files, i, fails).0
    ensures r in e.runners && e.runners[r] == Runner(files, PhaseOf(Migrated(s.db, seen, files, i, fails).1))
    decreases |files| - i
  {
    if i == |files| || (files[i].name in seen && seen[files[i].name] != files[i].checksum) {
      e := Step(s, Advance(r)).value;
      LastStep(s, Advance(r), e);
    } else if files[i].name in seen {
      var next := Step(s, Advance(r)).value;
      e := RunnerIsTheLoop(next, r, files, seen, i + 1, fails);
      OneStep(s, Advance(r), next, StepsOf(r, files, seen, i + 1, fails), e);
    } else if fails(files[i].name) {
      e := Step(s, Act.Fail(r)).value;
      LastStep(s, Act.Fail(r), e);
    } else {
      var mid, next := AppliesOne(s, r, files, seen, i);
      e := RunnerIsTheLoop(next, r, files, seen, i + 1, fails);
      TwoSteps(s, Advance(r), mid, if files[i].selfTransactional then RecordAfter(r) else Commit(r), next,
               StepsOf(r, files, seen, i + 1, fails), e);
    }
  }
}
