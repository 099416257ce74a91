/** That edits of `config.toml` get done: one that does not fail completes, and one that waits or
    runs can always go on. */
module EditCompletion {
  import opened Wrappers
  import opened TomlValue
  import opened PatConfig
  import opened ConfigLock

  /** A run together with the steps taken. */
  ghost predicate IsLabelled(run: seq<State>, steps: seq<Step>) {
    && |run| == |steps| + 1 && Init(run[0])
    && forall i | 0 <= i < |steps| :: NextStep(run[i], run[i + 1], steps[i])
  }

  lemma LabelledIsRun(run: seq<State>, steps: seq<Step>)
    requires IsLabelled(run, steps)
    ensures IsRun(run)
  {
    hide NextStep, Init;
    forall i | 0 <= i < |run| - 1 ensures Next(run[i], run[i + 1]) {
      assert NextStep(run[i], run[i + 1], steps[i]);
    }
  }

  // ---------------------------------------------------------------- grants

  ghost predicate DoneAt(s: State, g: nat) {
    g < |s.grants| && s.grants[g].done
  }

  /** The holder of the latest grant is still at work on it. */
  ghost predicate UnderWay(s: State, p: Pid, g: nat) {
    s.lock == Some(p) && InEdit(PcOf(s, p)) && |s.grants| == g + 1
  }

  lemma GrantsStay(s: State, t: State, step: Step, g: nat)
    requires NextStep(s, t, step) && g < |s.grants|
    ensures g < |t.grants| && t.grants[g].pid == s.grants[g].pid && t.grants[g].edit == s.grants[g].edit
    ensures DoneAt(s, g) ==> DoneAt(t, g)
  {
    hide PcOf, View, Edited, DocOf, WriteMode, ModeAfterWrite, HoldsLock, Committed;
    forall edit: Edit
      ensures
      var after := Committed(s, edit).grants;
      |after| == |s.grants| && after[g].pid == s.grants[g].pid && after[g].edit == s.grants[g].edit
      && (s.grants[g].done ==> after[g].done)
    {
      CommittedKeeps(s, edit, g);
    }
  }

  lemma CommittedKeeps(s: State, edit: Edit, g: nat)
    requires g < |s.grants|
    ensures
      var after := Committed(s, edit).grants;
      |after| == |s.grants| && after[g].pid == s.grants[g].pid && after[g].edit == s.grants[g].edit
      && (s.grants[g].done ==> after[g].done)
  {
  }

  predicate IsStepOf(step: Step, p: Pid) {
    !step.OpenFile? && !step.CloseFile? && step.p == p
  }

  lemma OthersLeaveAlone(s: State, t: State, step: Step, p: Pid)
    requires LockOk(s) && s.lock == Some(p) && NextStep(s, t, step) && !IsStepOf(step, p)
    ensures PcOf(t, p) == PcOf(s, p) && t.lock == s.lock && t.grants == s.grants
  {
    assert forall q: Pid | q != p :: !HoldsLock(PcOf(s, q));
    hide View, Edited, DocOf, WriteMode, ModeAfterWrite, LockOk;
  }

  lemma OwnStepCompletes(s: State, t: State, step: Step, p: Pid, g: nat)
    requires NextStep(s, t, step) && UnderWay(s, p, g) && IsStepOf(step, p)
    requires step != Fail(p) && step != Crash(p)
    ensures UnderWay(t, p, g) || DoneAt(t, g)
  {
    hide View, Edited, DocOf, WriteMode, ModeAfterWrite, NextStep;
    if step.Load? { LoadCompletes(s, t, p, g); }
    else if step.Rename? { RenameCompletes(s, t, p, g); }
    else { OtherStepGoesOn(s, t, step, p, g); }
  }

  lemma LoadCompletes(s: State, t: State, p: Pid, g: nat)
    requires NextStep(s, t, Load(p)) && UnderWay(s, p, g)
    ensures UnderWay(t, p, g) || DoneAt(t, g)
  {
    hide View, Edited, DocOf, WriteMode, ModeAfterWrite;
  }

  lemma RenameCompletes(s: State, t: State, p: Pid, g: nat)
    requires NextStep(s, t, Rename(p)) && UnderWay(s, p, g)
    ensures DoneAt(t, g)
  {
    hide View, Edited, DocOf, WriteMode, ModeAfterWrite;
  }

  lemma OtherStepGoesOn(s: State, t: State, step: Step, p: Pid, g: nat)
    requires NextStep(s, t, step) && UnderWay(s, p, g) && IsStepOf(step, p)
    requires !step.Load? && !step.Rename? && step != Fail(p) && step != Crash(p)
    ensures UnderWay(t, p, g)
  {
    hide View, Edited, DocOf, WriteMode, ModeAfterWrite, Committed;
  }

  /** A step other than a failure or death of its process either leaves an edit under way or
      completes it. */
  lemma StepCompletes(s: State, t: State, step: Step, p: Pid, g: nat)
    requires Inv(s) && NextStep(s, t, step) && UnderWay(s, p, g)
    requires step != Fail(p) && step != Crash(p)
    ensures UnderWay(t, p, g) || DoneAt(t, g)
  {
    if IsStepOf(step, p) { OwnStepCompletes(s, t, step, p, g); } else { OthersLeaveAlone(s, t, step, p); }
    hide Inv, NextStep;
  }

  lemma {:induction false} StaysUnderWay(run: seq<State>, steps: seq<Step>, m: nat, k: nat, p: Pid, g: nat)
    requires IsLabelled(run, steps) && m <= k < |run| && UnderWay(run[m], p, g)
    requires forall i | m <= i < k :: steps[i] != Fail(p) && steps[i] != Crash(p)
    ensures UnderWay(run[k], p, g) || DoneAt(run[k], g)
    decreases k - m
  {
    hide NextStep, Init, Inv, UnderWay, DoneAt, IsRun;
    if m < k {
      StaysUnderWay(run, steps, m, k - 1, p, g);
      LabelledIsRun(run, steps);
      RunInv(run, k - 1);
      assert NextStep(run[k - 1], run[k], steps[k - 1]);
      if UnderWay(run[k - 1], p, g) {
        StepCompletes(run[k - 1], run[k], steps[k - 1], p, g);
      } else {
        assert g < |run[k - 1].grants| by { DoneIsGranted(run[k - 1], g); }
        GrantsStay(run[k - 1], run[k], steps[k - 1], g);
      }
    }
  }

  lemma DoneIsGranted(s: State, g: nat)
    requires DoneAt(s, g)
    ensures g < |s.grants|
  {
  }

  /** An edit that was granted the lock is done once its process is idle again, unless one of its
      calls failed or the process died. */
  lemma GrantedEditCompletes(run: seq<State>, steps: seq<Step>, m: nat, k: nat, p: Pid)
    requires IsLabelled(run, steps) && m < k < |run| && steps[m] == Acquire(p) && PcOf(run[k], p).Idle?
    requires forall i | m < i < k :: steps[i] != Fail(p) && steps[i] != Crash(p)
    ensures
      var g := |run[m].grants|;
      && g < |run[k].grants| && run[k].grants[g].done
      && run[k].grants[g].pid == p && PcOf(run[m], p).Waiting? && run[k].grants[g].edit == PcOf(run[m], p).edit
  {
    var g := |run[m].grants|;
    assert NextStep(run[m], run[m + 1], steps[m]);
    assert UnderWay(run[m + 1], p, g);
    StaysUnderWay(run, steps, m + 1, k, p, g);
    GrantKept(run, steps, m + 1, k, g);
  }

  lemma {:induction false} GrantKept(run: seq<State>, steps: seq<Step>, m: nat, k: nat, g: nat)
    requires IsLabelled(run, steps) && m <= k < |run| && g < |run[m].grants|
    ensures g < |run[k].grants| && run[k].grants[g].pid == run[m].grants[g].pid
    ensures run[k].grants[g].edit == run[m].grants[g].edit
    decreases k - m
  {
    hide NextStep, Init;
    if m < k {
      GrantKept(run, steps, m, k - 1, g);
      assert NextStep(run[k - 1], run[k], steps[k - 1]);
      GrantsStay(run[k - 1], run[k], steps[k - 1], g);
    }
  }

  // ---------------------------------------------------------------- whole runs

  function Granted(grants: seq<Grant>): seq<Edit> {
    if grants == [] then [] else Granted(grants[..|grants| - 1]) + [grants[|grants| - 1].edit]
  }

  ghost predicate NothingFails(steps: seq<Step>) {
    forall i | 0 <= i < |steps| :: !steps[i].Fail? && !steps[i].Crash?
  }

  lemma {:induction false} AllCompleted(grants: seq<Grant>)
    requires forall g | 0 <= g < |grants| :: grants[g].done
    ensures CompletedEdits(grants) == Granted(grants)
  {
    if grants != [] { AllCompleted(grants[..|grants| - 1]); }
  }

  /** Every grant goes back to a step that takes the lock. */
  lemma {:induction false} GrantHasStep(run: seq<State>, steps: seq<Step>, k: nat, g: nat) returns (m: nat)
    requires IsLabelled(run, steps) && k < |run| && g < |run[k].grants|
    ensures m < k && steps[m].Acquire? && |run[m].grants| == g && steps[m].p == run[k].grants[g].pid
  {
    assert run[0].grants == [];
    assert NextStep(run[k - 1], run[k], steps[k - 1]);
    if g < |run[k - 1].grants| {
      m := GrantHasStep(run, steps, k - 1, g);
      GrantsStay(run[k - 1], run[k], steps[k - 1], g);
    } else {
      NewGrant(run[k - 1], run[k], steps[k - 1], g);
      m := k - 1;
    }
  }

  lemma NewGrant(s: State, t: State, step: Step, g: nat)
    requires NextStep(s, t, step) && |s.grants| <= g < |t.grants|
    ensures step.Acquire? && g == |s.grants| && t.grants[g].pid == step.p
  {
    hide PcOf, View, Edited, DocOf, WriteMode, ModeAfterWrite, HoldsLock;
  }

  /** When nothing fails and all processes are idle again, the file is all edits that were granted
      the lock, applied in that order. */
  lemma AllEditsApplied(run: seq<State>, steps: seq<Step>)
    requires IsLabelled(run, steps) && NothingFails(steps)
    requires forall p: Pid :: PcOf(run[|steps|], p).Idle?
    ensures View(run[|steps|]) == AppliedAll(View(run[0]), Granted(run[|steps|].grants))
  {
    hide NextStep, Init, View, AppliedAll;
    var k := |steps|;
    forall g | 0 <= g < |run[k].grants| ensures run[k].grants[g].done {
      var m := GrantHasStep(run, steps, k, g);
      GrantedEditCompletes(run, steps, m, k, steps[m].p);
    }
    AllCompleted(run[k].grants);
    LabelledIsRun(run, steps);
    EditsAreSequential(run, k);
  }

  /** A process that is the only one to get the lock, and does not fail, leaves the file with its
      edit applied: an upsert, a removal or a skip marker. */
  lemma OneEditApplied(run: seq<State>, steps: seq<Step>, p: Pid, edit: Edit)
    requires IsLabelled(run, steps) && NothingFails(steps)
    requires forall q: Pid :: PcOf(run[|steps|], q).Idle?
    requires |run[|steps|].grants| == 1 && run[|steps|].grants[0].edit == edit
    ensures View(run[|steps|]) == Applied(View(run[0]), edit)
  {
    hide NextStep, Init, View, Applied;
    AllEditsApplied(run, steps);
    var grants := run[|steps|].grants;
    assert grants[..0] == [] && Granted(grants) == [] + [edit] == [edit];
    AppliedAllStep(View(run[0]), [], edit);
    assert [] + [edit] == [edit];
  }

  // ---------------------------------------------------------------- progress

  lemma {:induction false} FreshInode(nodes: map<Inode, Node>) returns (i: Inode)
    ensures i !in nodes
  {
    i := FreshNumber(nodes.Keys);
  }

  lemma {:induction false} FreshNumber(used: set<nat>) returns (n: nat)
    ensures forall m | m in used :: m < n
    decreases |used|
  {
    if used == {} {
      n := 0;
    } else {
      var m :| m in used;
      var k := FreshNumber(used - {m});
      n := if k <= m then m + 1 else k;
      forall x | x in used ensures x < n {
        if x != m { assert x in used - {m}; }
      }
    }
  }

  lemma LoadCanHappen(s: State, p: Pid) returns (t: State)
    requires PcOf(s, p).Holding? && DocOf(View(s)).Some?
    ensures NextStep(s, t, Load(p))
  {
    hide Edited, View, DocOf;
    var edit, original := PcOf(s, p).edit, DocOf(View(s)).value;
    var doc := Edited(original, edit);
    t := if edit.Upsert? && doc == original then At(Committed(s, edit), p, Releasing) else At(s, p, Computed(edit, doc));
  }

  lemma StatCanHappen(s: State, p: Pid) returns (t: State)
    requires PcOf(s, p).Computed?
    ensures NextStep(s, t, Stat(p))
  {
    hide View, WriteMode, ModeAfterWrite;
    var Computed(edit, doc) := PcOf(s, p);
    t := At(s, p, Sized(edit, doc, ModeAfterWrite(View(s), WriteMode(doc))));
  }

  lemma FillCanHappen(s: State, p: Pid) returns (t: State)
    requires PcOf(s, p).Writing? && PcOf(s, p).tmp in s.names && s.names[PcOf(s, p).tmp] in s.nodes
    ensures NextStep(s, t, Fill(p))
  {
    var Writing(edit, doc, perms, tmp) := PcOf(s, p);
    t := At(s, p, Saved(edit, doc, perms, tmp)).(
      nodes := s.nodes[s.names[tmp] := Node(Stored(Whole(doc)), s.nodes[s.names[tmp]].mode)]);
  }

  lemma ChmodCanHappen(s: State, p: Pid) returns (t: State)
    requires PcOf(s, p).Saved? && PcOf(s, p).tmp in s.names && s.names[PcOf(s, p).tmp] in s.nodes
    ensures NextStep(s, t, Chmod(p))
  {
    var Saved(edit, doc, perms, tmp) := PcOf(s, p);
    t := At(s, p, Restricted(edit, doc, perms, tmp)).(
      nodes := s.nodes[s.names[tmp] := Node(s.nodes[s.names[tmp]].data, perms)]);
  }

  lemma RenameCanHappen(s: State, p: Pid) returns (t: State)
    requires PcOf(s, p).Restricted? && PcOf(s, p).tmp in s.names
    ensures NextStep(s, t, Rename(p))
  {
    var Restricted(edit, doc, perms, tmp) := PcOf(s, p);
    t := At(Committed(s, edit), p, Releasing).(
      names := (s.names - {tmp})[CONFIG := s.names[tmp]],
      stamps := s.stamps[s.names[tmp] := |s.log| + 1]);
  }

  lemma ReleaseCanHappen(s: State, p: Pid) returns (t: State)
    requires PcOf(s, p).Releasing?
    ensures NextStep(s, t, Release(p))
  {
    t := At(s, p, Idle).(lock := None);
  }

  /** A process that holds the lock can take a step of its own that is neither a failure nor its
      death, as long as the document parses while it still has to be read. */
  lemma HolderCanGoOn(s: State, p: Pid) returns (t: State, step: Step)
    requires Inv(s) && HoldsLock(PcOf(s, p))
    requires PcOf(s, p).Holding? ==> DocOf(View(s)).Some?
    ensures NextStep(s, t, step) && IsStepOf(step, p) && !step.Fail? && !step.Crash?
  {
    WriterNamesOk(s, p);
    hide Inv, NextStep, View, DocOf, PcOf;
    var pc := PcOf(s, p);
    if pc.Holding? {
      step := Load(p);
      t := LoadCanHappen(s, p);
    } else if pc.Computed? {
      step := Stat(p);
      t := StatCanHappen(s, p);
    } else if pc.Sized? {
      t, step := CreateCanHappen(s, p);
    } else if pc.Releasing? {
      step := Release(p);
      t := ReleaseCanHappen(s, p);
    } else {
      t, step := WriterCanGoOn(s, p);
    }
  }

  lemma WriterCanGoOn(s: State, p: Pid) returns (t: State, step: Step)
    requires PcOf(s, p).Writing? || PcOf(s, p).Saved? || PcOf(s, p).Restricted?
    requires PcOf(s, p).tmp in s.names && s.names[PcOf(s, p).tmp] in s.nodes
    ensures NextStep(s, t, step) && IsStepOf(step, p) && !step.Fail? && !step.Crash?
  {
    hide NextStep, PcOf;
    var pc := PcOf(s, p);
    if pc.Writing? {
      step := Fill(p);
      t := FillCanHappen(s, p);
    } else if pc.Saved? {
      step := Chmod(p);
      t := ChmodCanHappen(s, p);
    } else {
      step := Rename(p);
      t := RenameCanHappen(s, p);
    }
  }

  lemma WriterNamesOk(s: State, p: Pid)
    requires Inv(s) && HoldsLock(PcOf(s, p))
    ensures
      var pc := PcOf(s, p);
      pc.Writing? || pc.Saved? || pc.Restricted? ==> pc.tmp in s.names && s.names[pc.tmp] in s.nodes
    ensures forall n | n in s.names :: s.names[n] in s.nodes
  {
    assert s.lock == Some(p);
    hide StampsOk, ReadersOk, RemovalsFoundTheFile;
  }

  lemma CreateCanHappen(s: State, p: Pid) returns (t: State, step: Step)
    requires PcOf(s, p).Sized? && forall n | n in s.names :: s.names[n] in s.nodes
    ensures NextStep(s, t, step) && step.Create? && step.p == p
  {
    var Sized(edit, doc, perms) := PcOf(s, p);
    var next := At(s, p, Writing(edit, doc, perms, ".tmp"));
    var inode := FreshInode(s.nodes);
    step := Create(p, ".tmp", inode, 0x1A4);
    assert ".tmp" != CONFIG;
    t := if ".tmp" in s.names
         then next.(nodes := s.nodes[s.names[".tmp"] := Node(Torn, s.nodes[s.names[".tmp"]].mode)])
         else next.(nodes := s.nodes[inode := Node(Torn, 0x1A4)], names := s.names[".tmp" := inode]);
  }

  /** An idle process can begin any edit (a removal only of a file that is there), and one that
      waits gets the lock when nobody holds it. */
  lemma EditsCanBegin(s: State, p: Pid, edit: Edit)
    ensures PcOf(s, p).Idle? && (edit.Remove? ==> CONFIG in s.names) ==>
      exists t :: NextStep(s, t, Start(p, edit)) && PcOf(t, p) == Waiting(edit)
    ensures PcOf(s, p) == Waiting(edit) && s.lock == None ==>
      exists t :: NextStep(s, t, Acquire(p)) && PcOf(t, p) == Holding(edit) && t.lock == Some(p)
  {
    if PcOf(s, p).Idle? && (edit.Remove? ==> CONFIG in s.names) {
      var t := At(s, p, Waiting(edit));
      assert NextStep(s, t, Start(p, edit)) && PcOf(t, p) == Waiting(edit);
    }
    if PcOf(s, p) == Waiting(edit) && s.lock == None {
      var t := At(s, p, Holding(edit)).(lock := Some(p), grants := s.grants + [Grant(p, edit, false)]);
      assert NextStep(s, t, Acquire(p)) && PcOf(t, p) == Holding(edit);
    }
  }
}
