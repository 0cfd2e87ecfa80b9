/** What holds of every value ever stored for an Explorer run, under any interleaving,
    lost updates included (internal/explorer/service.go). */
module ExplorerHistory {
  import opened Results
  import opened ExplorerState
  import opened ExplorerProtocol
  import M = RunManager

  ghost predicate Fresh(r: Record) { exists organization, query :: r == NewRecord(organization, query) }

  /** Stored value i comes from an earlier stored value by the change recorded with it. */
  ghost predicate Descends(h: seq<Stored>, i: nat)
    requires i < |h|
  {
    match h[i].change
    case None => Fresh(h[i].record)
    case Some(change) => h[i].base < i && h[i].record == Transform(h[h[i].base].record, change, RUN_ID)
  }

  ghost predicate Lineage(h: seq<Stored>) { forall i :: 0 <= i < |h| ==> Descends(h, i) }

  /** Every write is a transform of some earlier stored value. */
  lemma {:induction false} WritesDescend(steps: seq<Step>)
    requires Exec(steps).Some?
    ensures Lineage(Exec(steps).value.history)
  {
    if steps != [] {
      var s, step := Exec(steps[..|steps| - 1]).value, steps[|steps| - 1];
      WritesDescend(steps[..|steps| - 1]);
      var h, h' := s.history, Apply(s, step).history;
      hide Exec, Transform;
      assert h <= h';
      forall i | 0 <= i < |h'| ensures Descends(h', i) {
        if i < |h| { assert Descends(h, i); }
      }
    }
  }

  lemma {:induction false} DescendantsSound(h: seq<Stored>, i: nat)
    requires Lineage(h) && i < |h|
    ensures Sound(h[i].record)
  {
    hide Sound, Transform;
    assert Descends(h, i);
    if h[i].change.None? {
      var organization, query :| h[i].record == NewRecord(organization, query);
      NewRecordIsGood(organization, query);
    } else {
      DescendantsSound(h, h[i].base);
      TransformSound(h[h[i].base].record, h[i].change.value, RUN_ID);
    }
  }

  /** Every value ever stored: a processing run ends in a loading block, a failed run has
      none, only a failed run has a reason, a loading block is an empty assistant block, and
      the status column repeats the blob's status. */
  lemma EveryValueSound(steps: seq<Step>, i: nat)
    requires Exec(steps).Some? && i < |Exec(steps).value.history|
    ensures Sound(Exec(steps).value.history[i].record)
  {
    hide Exec, Sound;
    WritesDescend(steps);
    DescendantsSound(Exec(steps).value.history, i);
  }

  /** Conversation conservation over whole runs: every value written keeps the conversation
      of the value its writer had read. */
  lemma EveryWriteConserves(steps: seq<Step>, i: nat)
    requires Exec(steps).Some? && i < |Exec(steps).value.history| && Exec(steps).value.history[i].change.Some?
    ensures var h := Exec(steps).value.history;
      h[i].base < i && Conserves(h[h[i].base].record.state.blocks, h[i].change.value, h[i].record.state.blocks)
  {
    hide Exec, Sound, Transform, Conserves;
    WritesDescend(steps);
    var h := Exec(steps).value.history;
    assert Descends(h, i);
    DescendantsSound(h, h[i].base);
    Conservation(h[h[i].base].record, h[i].change.value, RUN_ID);
  }

  // ---- pull requests and pending questions ----

  /** Value i was made from value j, by one write after another, or is value j. */
  predicate From(h: seq<Stored>, i: nat, j: nat)
    requires i < |h|
  {
    i == j || (h[i].change.Some? && h[i].base < i && From(h, h[i].base, j))
  }

  lemma {:induction false} FromEarlier(h: seq<Stored>, i: nat, j: nat)
    requires i < |h| && From(h, i, j)
    ensures j <= i
  {
    if i != j { FromEarlier(h, h[i].base, j); }
  }

  /** Write j recorded the pull request of the repository. */
  predicate RecordsPR(h: seq<Stored>, j: nat, repo: string) {
    j < |h| && repo != "" && h[j].change == Some(Update(CreatePR(repo)))
  }

  /** A stored value holds the pull request of a repository, completed, exactly when a
      create_pr update of that repository is among the writes it was made by: once recorded
      it is never dropped by a later write that has read it. */
  lemma {:induction false} PullRequestsKept(h: seq<Stored>, i: nat, repo: string)
    requires Lineage(h) && i < |h|
    ensures repo in h[i].record.state.prStates <==> exists j: nat :: RecordsPR(h, j, repo) && From(h, i, j)
    ensures repo in h[i].record.state.prStates ==> h[i].record.state.prStates[repo] == "completed"
  {
    hide Transform, NewRecord;
    assert Descends(h, i);
    if h[i].change.None? {
      var organization, query :| h[i].record == NewRecord(organization, query);
      NewRecordIsGood(organization, query);
    } else {
      var base := h[i].base;
      PullRequestsKept(h, base, repo);
      PullRequestsAfter(h[base].record, h[i].change.value, RUN_ID);
      if j: nat :| RecordsPR(h, j, repo) && From(h, base, j) { assert From(h, i, j); }
      if RecordsPR(h, i, repo) { assert From(h, i, i); }
      if j: nat :| RecordsPR(h, j, repo) && From(h, i, j) { assert i == j || From(h, base, j); }
    }
  }

  predicate WrotePending(h: seq<Stored>, j: nat) { j < |h| && h[j].change.Some? && SetsPending(h[j].change.value) }

  /** The update that asked q is the last of the writes value i was made by that set or
      cleared a pending question. */
  ghost predicate LastAsked(h: seq<Stored>, i: nat, q: PendingInput, j: nat)
    requires i < |h|
  {
    && j < |h| && From(h, i, j) && h[j].change == Some(Update(AwaitingUserInput(q)))
    && forall k: nat :: j < k && WrotePending(h, k) ==> !From(h, i, k)
  }

  /** A question is pending in a stored value exactly when the latest of the writes it was
      made by that asked, answered or interrupted is the update that asked it. */
  lemma {:induction false} PendingIsLastAsked(h: seq<Stored>, i: nat, q: PendingInput)
    requires Lineage(h) && i < |h|
    ensures h[i].record.state.pendingInput == Some(q) <==> exists j: nat :: LastAsked(h, i, q, j)
  {
    hide Transform, NewRecord, LastAsked;
    assert Descends(h, i);
    if h[i].change.None? {
      var organization, query :| h[i].record == NewRecord(organization, query);
      NewRecordIsGood(organization, query);
      NobodyAsked(h, i, q);
    } else {
      var base, change := h[i].base, h[i].change.value;
      PendingIsLastAsked(h, base, q);
      PendingAfter(h[base].record, change, RUN_ID);
      LastAskedStep(h, i, q);
    }
  }

  lemma NobodyAsked(h: seq<Stored>, i: nat, q: PendingInput)
    requires i < |h| && h[i].change.None?
    ensures !exists j: nat :: LastAsked(h, i, q, j)
  {
  }

  lemma LastAskedStep(h: seq<Stored>, i: nat, q: PendingInput)
    requires i < |h| && h[i].change.Some? && h[i].base < i
    ensures WrotePending(h, i) ==>
      ((exists j: nat :: LastAsked(h, i, q, j)) <==> h[i].change == Some(Update(AwaitingUserInput(q))))
    ensures !WrotePending(h, i) ==>
      ((exists j: nat :: LastAsked(h, i, q, j)) <==> exists j: nat :: LastAsked(h, h[i].base, q, j))
  {
    var base := h[i].base;
    forall j: nat ensures From(h, i, j) <==> i == j || From(h, base, j) {}
    forall k: nat | From(h, i, k) ensures k <= i { FromEarlier(h, i, k); }
    if WrotePending(h, i) {
      if j: nat :| LastAsked(h, i, q, j) { assert j == i; }
      if h[i].change == Some(Update(AwaitingUserInput(q))) { assert LastAsked(h, i, q, i); }
    } else {
      if j: nat :| LastAsked(h, i, q, j) { assert LastAsked(h, base, q, j); }
      if j: nat :| LastAsked(h, base, q, j) { assert LastAsked(h, i, q, j); }
    }
  }

  /** Pull requests and pending questions over whole runs, lost updates included. */
  lemma UpdatesRemembered(steps: seq<Step>, i: nat, repo: string, q: PendingInput)
    requires Exec(steps).Some? && i < |Exec(steps).value.history|
    ensures var h := Exec(steps).value.history; var s := h[i].record.state;
      && (repo in s.prStates <==> exists j: nat :: RecordsPR(h, j, repo) && From(h, i, j))
      && (repo in s.prStates ==> s.prStates[repo] == "completed")
      && (s.pendingInput == Some(q) <==> exists j: nat :: LastAsked(h, i, q, j))
  {
    hide Exec, From, LastAsked, RecordsPR;
    WritesDescend(steps);
    PullRequestsKept(Exec(steps).value.history, i, repo);
    PendingIsLastAsked(Exec(steps).value.history, i, q);
  }

  // ---- exact conditions over whole runs ----

  ghost predicate EveryValue(h: seq<Stored>, p: Record -> bool) { forall i :: 0 <= i < |h| ==> p(h[i].record) }

  /** Every write made the change it made to a value that allowed it. */
  ghost predicate EveryWrite(h: seq<Stored>, allowed: (Record, Change) -> bool) {
    forall i :: 0 <= i < |h| ==> WroteAllowed(h, i, allowed)
  }

  ghost predicate WroteAllowed(h: seq<Stored>, i: nat, allowed: (Record, Change) -> bool)
    requires i < |h|
  {
    h[i].change.Some? && h[i].base < |h| ==> allowed(h[h[i].base].record, h[i].change.value)
  }

  /** A fresh run has p, and a change keeps p exactly when it is allowed. */
  ghost predicate KeptExactly(p: Record -> bool, allowed: (Record, Change) -> bool) {
    && (forall organization, query :: p(NewRecord(organization, query)))
    && (forall r, change :: p(r) ==> (p(Transform(r, change, RUN_ID)) <==> allowed(r, change)))
  }

  lemma {:induction false} AllowedMeansKept(
      h: seq<Stored>, i: nat, p: Record -> bool, allowed: (Record, Change) -> bool)
    requires Lineage(h) && i < |h| && KeptExactly(p, allowed) && EveryWrite(h, allowed)
    ensures p(h[i].record)
  {
    hide Transform, NewRecord;
    assert Descends(h, i) && WroteAllowed(h, i, allowed);
    if h[i].change.Some? { AllowedMeansKept(h, h[i].base, p, allowed); }
  }

  /** What is exact for one change is exact for whole runs. */
  lemma KeptOverRuns(h: seq<Stored>, p: Record -> bool, allowed: (Record, Change) -> bool)
    requires Lineage(h) && KeptExactly(p, allowed)
    ensures EveryValue(h, p) <==> EveryWrite(h, allowed)
  {
    hide Transform, NewRecord, Fresh;
    if EveryWrite(h, allowed) {
      forall i | 0 <= i < |h| ensures p(h[i].record) { AllowedMeansKept(h, i, p, allowed); }
    }
    if EveryValue(h, p) {
      forall i | 0 <= i < |h| ensures WroteAllowed(h, i, allowed) {
        assert Descends(h, i) && p(h[i].record);
        if h[i].change.Some? { assert p(h[h[i].base].record); }
      }
    }
  }

  /** Turn discipline over whole runs: every stored value has at most one loading block, the
      last one, none when finished, one when processing, and ids in order, exactly when every
      continueRun and every answer read a run in which nothing that stays was loading. */
  lemma TurnDiscipline(steps: seq<Step>)
    requires Exec(steps).Some?
    ensures var h := Exec(steps).value.history; EveryValue(h, Disciplined) <==> EveryWrite(h, ReadsClean)
  {
    hide Exec, Disciplined, Transform, ReadsClean, NewRecord;
    WritesDescend(steps);
    forall organization, query ensures Disciplined(NewRecord(organization, query)) {
      NewRecordIsGood(organization, query);
    }
    forall r, change | Disciplined(r) ensures Disciplined(Transform(r, change, RUN_ID)) <==> ReadsClean(r, change) {
      DisciplineExact(r, change, RUN_ID);
    }
    KeptOverRuns(Exec(steps).value.history, Disciplined, ReadsClean);
  }

  /** "Completed implies nothing loading" holds of every stored value exactly when every
      reply was filled into a run with at most one block loading, and every empty answer
      given to a run with none. */
  lemma CompletedLoadsNothing(steps: seq<Step>)
    requires Exec(steps).Some?
    ensures var h := Exec(steps).value.history; EveryValue(h, Settled) <==> EveryWrite(h, LeavesNothingLoading)
  {
    hide Exec, Settled, Transform, LeavesNothingLoading, NewRecord;
    WritesDescend(steps);
    forall organization, query ensures Settled(NewRecord(organization, query)) {
      NewRecordIsGood(organization, query);
    }
    forall r, change | Settled(r) ensures Settled(Transform(r, change, RUN_ID)) <==> LeavesNothingLoading(r, change) {
      SettledExact(r, change, RUN_ID);
    }
    KeptOverRuns(Exec(steps).value.history, Settled, LeavesNothingLoading);
  }

  /** "Error implies a reason" holds of every stored value exactly when no pull request
      update and no unrecognised one had read a failed run. */
  lemma FailureSaysWhy(steps: seq<Step>)
    requires Exec(steps).Some?
    ensures var h := Exec(steps).value.history; EveryValue(h, Explained) <==> EveryWrite(h, LeavesReason)
  {
    hide Exec, Explained, Transform, LeavesReason, NewRecord;
    WritesDescend(steps);
    forall organization, query ensures Explained(NewRecord(organization, query)) {
      NewRecordIsGood(organization, query);
    }
    forall r, change | Explained(r) ensures Explained(Transform(r, change, RUN_ID)) <==> LeavesReason(r, change) {
      ReasonExact(r, change, RUN_ID);
    }
    KeptOverRuns(Exec(steps).value.history, Explained, LeavesReason);
  }

  /** The two-block consequence a client relies on. */
  lemma DisciplinedMeans(r: Record, i: nat, j: nat)
    requires Disciplined(r) && i < |r.state.blocks| && j < |r.state.blocks|
    ensures r.state.blocks[i].loading && r.state.blocks[j].loading ==> i == j == |r.state.blocks| - 1
    ensures r.state.blocks[i].id == r.state.blocks[j].id ==> i == j
    ensures r.state.blocks[i].loading ==> r.state.status == Processing || r.state.status == Awaiting
  {
  }

  // ---- what the mutex gives ----

  predicate HoldsLock(p: Proc) {
    p.change.Some? && TakesLock(p.change.value) && (p.pc == Locked || p.pc.HasRead? || p.pc == Wrote || p.pc == Closing)
  }

  /** The programs the processes run: requests carry their change from the start, tasks get
      theirs from the model; only lock takers wait to unlock; only dispatchers wait to dispatch. */
  predicate Program(a: Actor, p: Proc) {
    && (p.change.None? ==> a.Task? && (p.pc == Begun || p.pc == Ended))
    && (p.change.Some? ==> (a.Task? <==> p.change.value.Reply? || p.change.value.Failure?))
    && (p.pc == Locked || p.pc == Closing ==> TakesLock(p.change.value))
    && (p.pc == Wrote ==> Dispatches(p.change.value))
  }

  ghost predicate Programs(s: Sys) {
    forall a :: a in s.procs ==> Program(a, s.procs[a]) && (a.Task? ==> a.n < |s.mgr.tasks|)
  }

  /** Exactly the owner of the mutex is between its Lock and its Unlock. */
  ghost predicate Exclusive(s: Sys) {
    && (forall a :: a in s.procs && HoldsLock(s.procs[a]) ==> s.lock == HeldBy(a))
    && (s.lock.HeldBy? ==> s.lock.owner in s.procs && HoldsLock(s.procs[s.lock.owner]))
  }

  lemma StepPrograms(s: Sys, step: Step)
    requires Programs(s) && Enabled(s, step)
    ensures Programs(Apply(s, step))
  {
    hide Program;
    StepTasks(s, step);
    var s' := Apply(s, step);
    forall a | a in s'.procs ensures Program(a, s'.procs[a]) { StepProgram(s, step, a); }
  }

  lemma StepTasks(s: Sys, step: Step)
    requires Programs(s) && Enabled(s, step)
    ensures var s' := Apply(s, step); forall a :: a in s'.procs && a.Task? ==> a.n < |s'.mgr.tasks|
  {
    hide Transform, M.Apply, M.Enabled, M.Newest, Program, Blocked;
    if step.Manage? { M.TasksStay(s.mgr, step.step); }
    if step.Dispatch? { M.TasksStay(s.mgr, M.Register(KEY)); }
  }

  lemma StepProgram(s: Sys, step: Step, a: Actor)
    requires Programs(s) && Enabled(s, step) && a in Apply(s, step).procs
    ensures Program(a, Apply(s, step).procs[a])
  {
    hide Transform, M.Apply, M.Enabled, Blocked;
    if a in s.procs { assert Program(a, s.procs[a]); }
    hide Programs;
  }

  lemma StepExclusive(s: Sys, step: Step)
    requires Programs(s) && Exclusive(s) && Enabled(s, step)
    ensures Exclusive(Apply(s, step))
  {
    hide HoldsLock;
    StepOwner(s, step);
    var s' := Apply(s, step);
    forall a | a in s'.procs && HoldsLock(s'.procs[a]) ensures s'.lock == HeldBy(a) { StepHolder(s, step, a); }
  }

  lemma StepOwner(s: Sys, step: Step)
    requires Programs(s) && Exclusive(s) && Enabled(s, step)
    ensures var s' := Apply(s, step);
      s'.lock.HeldBy? ==> s'.lock.owner in s'.procs && HoldsLock(s'.procs[s'.lock.owner])
  {
    hide Transform, M.Apply, M.Enabled, Blocked;
    if s.lock.HeldBy? { assert Program(s.lock.owner, s.procs[s.lock.owner]); }
    hide Programs;
  }

  lemma StepHolder(s: Sys, step: Step, a: Actor)
    requires Programs(s) && Exclusive(s) && Enabled(s, step)
    requires a in Apply(s, step).procs && HoldsLock(Apply(s, step).procs[a])
    ensures Apply(s, step).lock == HeldBy(a)
  {
    hide Transform, M.Apply, M.Enabled, Blocked;
    if a in s.procs { assert Program(a, s.procs[a]); }
    if step.Dispatch? { assert Program(Handler(step.h), s.procs[Handler(step.h)]); }
    hide Programs;
  }

  /** No value between base and end was written under the mutex. */
  ghost predicate UnlockedBetween(h: seq<Stored>, base: nat, end: nat)
    requires end <= |h|
  {
    forall j :: base < j < end && h[j].change.Some? ==> !TakesLock(h[j].change.value)
  }

  ghost predicate ReadersUndisturbed(s: Sys) {
    forall a :: a in s.procs && HoldsLock(s.procs[a]) && s.procs[a].pc.HasRead? ==>
      UnlockedBetween(s.history, s.procs[a].pc.base, |s.history|)
  }

  ghost predicate LockedWritesAtomic(h: seq<Stored>) {
    forall i :: 0 <= i < |h| && h[i].change.Some? && TakesLock(h[i].change.value) ==> UnlockedBetween(h, h[i].base, i)
  }

  ghost predicate Serialized(s: Sys) {
    Programs(s) && Exclusive(s) && ReadersUndisturbed(s) && LockedWritesAtomic(s.history)
  }

  /** Only writes make the history longer. */
  lemma HistoryGrows(s: Sys, step: Step)
    requires Enabled(s, step)
    ensures s.history <= Apply(s, step).history
    ensures !step.Write? && !step.Create? ==> Apply(s, step).history == s.history
  {
    hide Transform, M.Apply, M.Enabled, Blocked;
  }

  lemma StepReaders(s: Sys, step: Step)
    requires Serialized(s) && Enabled(s, step) && !step.Write?
    ensures ReadersUndisturbed(Apply(s, step))
  {
    hide Transform, M.Apply, M.Enabled, Blocked, Exclusive, LockedWritesAtomic, Program;
    HistoryGrows(s, step);
    if step.Dispatch? { assert Task(|s.mgr.tasks|) !in s.procs; }
  }

  lemma WriteReaders(s: Sys, a: Actor)
    requires Serialized(s) && Enabled(s, Write(a))
    ensures ReadersUndisturbed(Apply(s, Write(a))) && LockedWritesAtomic(Apply(s, Write(a)).history)
  {
    hide Transform, M.Apply, Blocked, Program;
    var s', n := Apply(s, Write(a)), |s.history|;
    assert s'.history[..n] == s.history;
    forall b | b in s'.procs && HoldsLock(s'.procs[b]) && s'.procs[b].pc.HasRead?
      ensures UnlockedBetween(s'.history, s'.procs[b].pc.base, n + 1)
    {
      assert b != a && s'.procs[b] == s.procs[b];
      assert UnlockedBetween(s.history, s.procs[b].pc.base, n);
    }
    forall i | 0 <= i < n && s'.history[i].change.Some? && TakesLock(s'.history[i].change.value)
      ensures UnlockedBetween(s'.history, s'.history[i].base, i)
    {
      assert s'.history[i] == s.history[i] && UnlockedBetween(s.history, s.history[i].base, i);
    }
  }

  lemma {:induction false} RunsSerialize(steps: seq<Step>)
    requires Exec(steps).Some?
    ensures Serialized(Exec(steps).value)
  {
    if steps != [] {
      var s, step := Exec(steps[..|steps| - 1]).value, steps[|steps| - 1];
      RunsSerialize(steps[..|steps| - 1]);
      hide Exec, Programs, Exclusive, ReadersUndisturbed, LockedWritesAtomic;
      StepPrograms(s, step);
      StepExclusive(s, step);
      if step.Write? {
        WriteReaders(s, step.a);
      } else {
        StepReaders(s, step);
        StepHistoryAtomic(s, step);
      }
    }
  }

  lemma StepHistoryAtomic(s: Sys, step: Step)
    requires LockedWritesAtomic(s.history) && Enabled(s, step) && !step.Write?
    ensures LockedWritesAtomic(Apply(s, step).history)
  {
    HistoryGrows(s, step);
  }

  /** What the mutex serializes, and what it does not: between the read and the write of an
      update, a completion or a failure, the only values stored are those of startRun and
      continueRun, which do not take it. */
  lemma MutexSerializes(steps: seq<Step>, i: nat, j: nat)
    requires Exec(steps).Some? && i < |Exec(steps).value.history|
    requires var h := Exec(steps).value.history;
      h[i].change.Some? && TakesLock(h[i].change.value) && h[i].base < j < i
    ensures var change := Exec(steps).value.history[j].change;
      change.Some? && (change.value.AssignId? || change.value.Continue?)
  {
    hide Exec, Transform;
    RunsSerialize(steps);
    WritesDescend(steps);
    FirstIsFresh(steps, j);
  }

  /** Value j was stored between the read and the write of value i, which ignores it. */
  predicate Overwrites(h: seq<Stored>, i: nat, j: nat) { j < i < |h| && h[i].change.Some? && h[i].base < j }

  /** A write of startRun or continueRun. */
  predicate WroteUnlocked(h: seq<Stored>, i: nat)
    requires i < |h|
  {
    h[i].change.Some? && !TakesLock(h[i].change.value)
  }

  /** The value that was changed into value i was still the stored one. */
  predicate ReadLatest(h: seq<Stored>, i: nat)
    requires i < |h|
  {
    h[i].change.Some? ==> h[i].base == i - 1
  }

  /** No update is lost, that is, every write had read the value it replaced, exactly when
      no write of startRun or continueRun overwrites a value or is overwritten. */
  lemma LostUpdateExact(steps: seq<Step>)
    requires Exec(steps).Some?
    ensures var h := Exec(steps).value.history;
      (forall i :: 0 <= i < |h| ==> ReadLatest(h, i)) <==>
      (forall i, j :: 0 <= j < i < |h| && Overwrites(h, i, j) ==> !WroteUnlocked(h, i) && !WroteUnlocked(h, j))
  {
    hide Exec, Transform, TakesLock;
    WritesDescend(steps);
    var h := Exec(steps).value.history;
    if forall i, j :: 0 <= j < i < |h| && Overwrites(h, i, j) ==> !WroteUnlocked(h, i) && !WroteUnlocked(h, j) {
      forall i | 0 <= i < |h| ensures ReadLatest(h, i) {
        assert Descends(h, i);
        if !ReadLatest(h, i) {
          assert Overwrites(h, i, i - 1);
          OverwriterUnlocked(steps, i, i - 1);
        }
      }
    }
    if forall i :: 0 <= i < |h| ==> ReadLatest(h, i) {
      forall i, j | 0 <= j < i < |h| ensures !Overwrites(h, i, j) { assert ReadLatest(h, i); }
    }
  }

  lemma OverwriterUnlocked(steps: seq<Step>, i: nat, j: nat)
    requires Exec(steps).Some? && Overwrites(Exec(steps).value.history, i, j)
    ensures WroteUnlocked(Exec(steps).value.history, i) || WroteUnlocked(Exec(steps).value.history, j)
  {
    hide Exec;
    if !WroteUnlocked(Exec(steps).value.history, i) { MutexSerializes(steps, i, j); }
  }

  /** Write i cut no block off. */
  predicate CutsNothing(h: seq<Stored>, i: nat)
    requires i < |h|
  {
    h[i].change.Some? && h[i].change.value.Continue? && h[i].base < |h| ==>
      var blocks := h[h[i].base].record.state.blocks; Truncate(blocks, h[i].change.value.insertIndex) == blocks
  }

  /** A reply, a question or any other resolved block, once stored, is in every later value
      until one overwrites it or cuts blocks off. */
  lemma {:induction false} ResolvedBlockSurvives(steps: seq<Step>, j: nat, k: nat, b: Block)
    requires Exec(steps).Some? && j <= k < |Exec(steps).value.history|
    requires var h := Exec(steps).value.history;
      && b in h[j].record.state.blocks && !b.loading
      && forall i :: j < i <= k ==> !Overwrites(h, i, j) && CutsNothing(h, i)
    ensures b in Exec(steps).value.history[k].record.state.blocks
  {
    hide Exec, Transform, Truncate, Conserves;
    if j < k {
      var h := Exec(steps).value.history;
      FirstIsFresh(steps, k);
      EveryWriteConserves(steps, k);
      assert CutsNothing(h, k) && !Overwrites(h, k, j);
      ResolvedBlockSurvives(steps, j, h[k].base, b);
      ConservedBlock(h[h[k].base].record.state.blocks, h[k].change.value, h[k].record.state.blocks, b);
    }
  }

  lemma ConservedBlock(before: seq<Block>, change: Change, after: seq<Block>, b: Block)
    requires Conserves(before, change, after) && b in before && !b.loading
    requires change.Continue? ==> Truncate(before, change.insertIndex) == before
    ensures b in after
  {
    hide Truncate, Resolved, Messages;
    ResolvedMembers(before, b);
    ResolvedMembers(after, b);
    assert b in Resolved(after) by {
      if change.Reply? {
        var x, y, answer :| Resolved(before) == x + y && Resolved(after) == x + [answer] + y;
      }
    }
  }

  lemma {:induction false} FirstIsFresh(steps: seq<Step>, j: nat)
    requires Exec(steps).Some? && 0 < j < |Exec(steps).value.history|
    ensures Exec(steps).value.history[j].change.Some?
  {
    var s, step := Exec(steps[..|steps| - 1]).value, steps[|steps| - 1];
    hide Transform, M.Apply, M.Enabled, Blocked;
    HistoryGrows(s, step);
    if j < |s.history| { FirstIsFresh(steps[..|steps| - 1], j); }
  }
}
