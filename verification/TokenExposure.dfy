/** Literal tokens in files that others may read, while any number of processes edit
    `config.toml`: which files they are, when one becomes open and when it stops being so. */
module TokenExposure {
  import opened Wrappers
  import opened TomlValue
  import opened PatConfig
  import opened ConfigLock
  import PatReload

  /** Group or others have rights on a document with a literal token. */
  predicate Exposed(s: State, i: Inode) {
    && i in s.nodes && s.nodes[i].data.Stored? && s.nodes[i].data.content.Whole?
    && ContainsLiteralToken(s.nodes[i].data.content.doc)
    && s.nodes[i].mode & GROUP_AND_OTHERS != 0
  }

  /** Process `p` has written its temporary file, and not restricted it yet. */
  predicate Unrestricted(s: State, p: Pid, i: Inode) {
    var pc := PcOf(s, p);
    pc.Saved? && pc.tmp in s.names && s.names[pc.tmp] == i
  }

  /** The write of a token completes in a temporary file that `umask`, or an older file of that
      name, left open to others. */
  ghost predicate FillsOpenFile(s: State, step: Step, i: Inode) {
    && step.Fill? && PcOf(s, step.p).Writing?
    && var pc := PcOf(s, step.p);
       && pc.tmp in s.names && s.names[pc.tmp] == i && i in s.nodes
       && ContainsLiteralToken(pc.doc) && s.nodes[i].mode & GROUP_AND_OTHERS != 0
  }

  predicate Truncates(s: State, step: Step, i: Inode) {
    step.Create? && step.tmp in s.names && s.names[step.tmp] == i
  }

  lemma OtherStepsKeepNodes(s: State, t: State, step: Step)
    requires NextStep(s, t, step) && !step.Create? && !step.Fill? && !step.Chmod?
    ensures t.nodes == s.nodes
  {
    hide PcOf, View, Edited, DocOf, WriteMode, ModeAfterWrite, HoldsLock;
  }

  lemma FillExposes(s: State, t: State, step: Step, i: Inode)
    requires Inv(s) && NextStep(s, t, step) && step.Fill?
    ensures Exposed(t, i) <==> Exposed(s, i) || FillsOpenFile(s, step, i)
    ensures !(Exposed(s, i) && FillsOpenFile(s, step, i))
  {
    WriterHolds(s, step.p);
    hide Inv, View, ContainsLiteralToken;
  }

  lemma ChmodCovers(s: State, t: State, step: Step, i: Inode)
    requires Inv(s) && NextStep(s, t, step) && step.Chmod?
    ensures Exposed(t, i) <==> Exposed(s, i) && !Unrestricted(s, step.p, i)
  {
    RestrictedIsPrivate(s, step.p);
    WriterHolds(s, step.p);
    hide Inv, View, ContainsLiteralToken, NamesOk, StampsOk, ReadersOk, Rewrites, Applied;
  }

  lemma CreateTruncates(s: State, t: State, step: Step, i: Inode)
    requires Inv(s) && NextStep(s, t, step) && step.Create?
    ensures Exposed(t, i) <==> Exposed(s, i) && !Truncates(s, step, i)
  {
    hide Inv, View, ContainsLiteralToken;
  }

  lemma WriterHolds(s: State, p: Pid)
    requires Inv(s)
    ensures HoldsLock(PcOf(s, p)) ==> s.lock == Some(p) && PcOk(s, PcOf(s, p))
  {
    hide NamesOk, StampsOk, ReadersOk, RemovalsFoundTheFile, PcOk;
  }

  /** Only this exposes a token. */
  lemma ExposureStarts(s: State, t: State, step: Step, i: Inode)
    requires Inv(s) && NextStep(s, t, step)
    ensures !Exposed(s, i) && Exposed(t, i) <==> FillsOpenFile(s, step, i)
  {
    if step.Fill? { FillExposes(s, t, step, i); }
    else if step.Chmod? { ChmodCovers(s, t, step, i); }
    else if step.Create? { CreateTruncates(s, t, step, i); }
    else { OtherStepsKeepNodes(s, t, step); }
    hide Inv, NextStep, ContainsLiteralToken;
  }

  /** And only the change of mode, or a later write under the same name, ends it. */
  lemma ExposureEnds(s: State, t: State, step: Step, i: Inode)
    requires Inv(s) && NextStep(s, t, step) && Exposed(s, i)
    ensures !Exposed(t, i) <==> (step.Chmod? && Unrestricted(s, step.p, i)) || Truncates(s, step, i)
  {
    if step.Fill? { FillExposes(s, t, step, i); }
    else if step.Chmod? { ChmodCovers(s, t, step, i); }
    else if step.Create? { CreateTruncates(s, t, step, i); }
    else { OtherStepsKeepNodes(s, t, step); }
    hide Inv, NextStep, ContainsLiteralToken;
  }

  lemma RestrictedIsPrivate(s: State, p: Pid)
    requires Inv(s) && PcOf(s, p).Saved?
    ensures s.lock == Some(p)
    ensures ContainsLiteralToken(PcOf(s, p).doc) ==> PcOf(s, p).perms & GROUP_AND_OTHERS == 0
  {
    WriterHolds(s, p);
    hide Inv, View, ContainsLiteralToken, Rewrites, Applied;
    PatReload.LiteralTokensStayPrivate(View(s), PcOf(s, p).edit);
  }

  ghost predicate BeingRestricted(s: State, i: Inode) {
    exists p: Pid :: Unrestricted(s, p, i)
  }

  /** The process fails or dies before it has restricted its temporary file. */
  ghost predicate LeftBehind(s: State, t: State, i: Inode) {
    exists p: Pid :: Unrestricted(s, p, i) && (NextStep(s, t, Fail(p)) || NextStep(s, t, Crash(p)))
  }

  lemma HolderWaits(s: State, t: State, step: Step, p: Pid)
    requires LockOk(s) && NextStep(s, t, step) && PcOf(s, p).Saved?
    requires step != Chmod(p) && step != Fail(p) && step != Crash(p)
    ensures t.names == s.names && PcOf(t, p) == PcOf(s, p)
  {
    hide View, Edited, DocOf, WriteMode, ModeAfterWrite;
    assert s.lock == Some(p);
    assert forall q: Pid | q != p :: !HoldsLock(PcOf(s, q));
  }

  lemma StillBeingRestricted(s: State, t: State, step: Step, i: Inode)
    requires Inv(s) && NextStep(s, t, step) && BeingRestricted(s, i) && Exposed(s, i) && Exposed(t, i)
    ensures BeingRestricted(t, i) || LeftBehind(s, t, i)
  {
    var p: Pid :| Unrestricted(s, p, i);
    ExposureEnds(s, t, step, i);
    assert LockOk(s);
    if step != Fail(p) && step != Crash(p) { HolderWaits(s, t, step, p); }
    hide Inv, NextStep, Exposed;
    if step == Fail(p) || step == Crash(p) {
      assert LeftBehind(s, t, i);
    } else {
      assert Unrestricted(t, p, i);
    }
  }

  /** The published file can be open to others with a token in it only as long as it still is the
      file that was there before the first edit. */
  lemma PublishedTokensPrivate(run: seq<State>, k: nat, i: Inode)
    requires IsRun(run) && k < |run| && i in run[k].stamps && Exposed(run[k], i)
    ensures View(run[0]) == Present(run[k].nodes[i].data.content, run[k].nodes[i].mode)
  {
    hide View, AppliedAll, ContainsLiteralToken;
    RunInv(run, k);
    PatReload.UntouchedOrPrivate(run[k].start, run[k].log[..run[k].stamps[i]]);
  }

  /** Any other file with a token that is open to others lay there before, or is a temporary file
      that its process is about to restrict, or one that a process left behind when it failed or
      died at just that point. */
  lemma {:induction false} ExposureSources(run: seq<State>, k: nat, i: Inode)
    requires IsRun(run) && k < |run| && Exposed(run[k], i)
    ensures
      || Exposed(run[0], i)
      || BeingRestricted(run[k], i)
      || exists m | 0 <= m < k :: LeftBehind(run[m], run[m + 1], i)
  {
    hide Inv, NextStep, Exposed, Unrestricted, BeingRestricted, LeftBehind;
    if k > 0 {
      var s, t := run[k - 1], run[k];
      RunInv(run, k - 1);
      assert Next(s, t);
      var step :| NextStep(s, t, step);
      if Exposed(s, i) {
        ExposureSources(run, k - 1, i);
        if BeingRestricted(s, i) { StillBeingRestricted(s, t, step, i); }
      } else {
        ExposureStarts(s, t, step, i);
        FilledIsUnrestricted(s, t, step, i);
      }
    }
  }

  lemma FilledIsUnrestricted(s: State, t: State, step: Step, i: Inode)
    requires NextStep(s, t, step) && FillsOpenFile(s, step, i)
    ensures BeingRestricted(t, i)
  {
    assert Unrestricted(t, step.p, i);
  }

  ghost predicate Opens(s: State, t: State, i: Inode) {
    exists step :: NextStep(s, t, step) && FillsOpenFile(s, step, i)
  }

  ghost predicate Covers(s: State, t: State, i: Inode) {
    exists step :: NextStep(s, t, step) && ((step.Chmod? && Unrestricted(s, step.p, i)) || Truncates(s, step, i))
  }

  /** Open from state `j` to state `k`: there from the start, or by a write that completes then, and
      neither restricted nor written over since. */
  ghost predicate OpenSince(run: seq<State>, j: nat, k: nat, i: Inode)
    requires j <= k < |run|
  {
    && (if j == 0 then Exposed(run[0], i) else Opens(run[j - 1], run[j], i))
    && forall m | j <= m < k :: !Covers(run[m], run[m + 1], i)
  }

  lemma StaysExposed(s: State, t: State, i: Inode)
    requires Inv(s) && Next(s, t) && Exposed(s, i)
    ensures Exposed(t, i) <==> !Covers(s, t, i)
  {
    var step :| NextStep(s, t, step);
    ExposureEnds(s, t, step, i);
    hide Inv, NextStep, Exposed, Unrestricted;
    if Covers(s, t, i) {
      var other :| NextStep(s, t, other) && ((other.Chmod? && Unrestricted(s, other.p, i)) || Truncates(s, other, i));
      ExposureEnds(s, t, other, i);
    }
  }

  lemma BecomesExposed(s: State, t: State, i: Inode)
    requires Inv(s) && Next(s, t)
    ensures Opens(s, t, i) ==> Exposed(t, i)
    ensures Exposed(t, i) && !Exposed(s, i) ==> Opens(s, t, i)
  {
    var step :| NextStep(s, t, step);
    ExposureStarts(s, t, step, i);
    hide Inv, NextStep, Exposed, FillsOpenFile;
    if Opens(s, t, i) {
      var other :| NextStep(s, t, other) && FillsOpenFile(s, other, i);
      ExposureStarts(s, t, other, i);
    }
  }

  /** In every run a token is open to others exactly when some earlier write of it completed in an
      open temporary file, or it was open from the start, and that file has neither been restricted
      nor written over since. */
  lemma {:induction false} ExposedExactly(run: seq<State>, k: nat, i: Inode)
    requires IsRun(run) && k < |run|
    ensures Exposed(run[k], i) <==> exists j | 0 <= j <= k :: OpenSince(run, j, k, i)
  {
    hide Inv, Next, Exposed, Opens, Covers;
    if k == 0 {
      assert Exposed(run[0], i) <==> OpenSince(run, 0, 0, i);
    } else {
      var s, t := run[k - 1], run[k];
      RunInv(run, k - 1);
      ExposedExactly(run, k - 1, i);
      BecomesExposed(s, t, i);
      assert Opens(s, t, i) <==> OpenSince(run, k, k, i);
      forall j: nat | j < k
        ensures OpenSince(run, j, k, i) <==> OpenSince(run, j, k - 1, i) && !Covers(s, t, i)
      {
      }
      if Exposed(s, i) {
        StaysExposed(s, t, i);
        var j :| 0 <= j <= k - 1 && OpenSince(run, j, k - 1, i);
        if Exposed(t, i) { assert OpenSince(run, j, k, i); }
      }
      if exists j | 0 <= j <= k :: OpenSince(run, j, k, i) {
        var j :| 0 <= j <= k && OpenSince(run, j, k, i);
        if j < k { assert OpenSince(run, j, k - 1, i); }
      }
    }
  }

  // ---------------------------------------------------------------- a run that leaves a token open

  // Process 1 upserts into a configuration that does not exist yet, and dies at the worst moment.

  const EMPTY := State(map[], map[], None, map[], map[], Absent, [], [], map[])

  function Locked(edit: Edit, pc: Pc): State {
    EMPTY.(lock := Some(1), pcs := map[1 := pc], grants := [Grant(1, edit, false)])
  }

  function WithTemporary(s: State, node: Node): State {
    s.(nodes := map[0 := node], names := map[".tmp" := 0])
  }

  function NewDoc(edit: Edit): Doc {
    Edited(map[], edit)
  }

  function Created(edit: Edit, umaskMode: bv16): State {
    WithTemporary(Locked(edit, Writing(edit, NewDoc(edit), WriteMode(NewDoc(edit)), ".tmp")), Node(Torn, umaskMode))
  }

  function Filled(edit: Edit, umaskMode: bv16): State {
    WithTemporary(
      Locked(edit, Saved(edit, NewDoc(edit), WriteMode(NewDoc(edit)), ".tmp")),
      Node(Stored(Whole(NewDoc(edit))), umaskMode))
  }

  function Dead(edit: Edit, umaskMode: bv16): State {
    Filled(edit, umaskMode).(lock := None, pcs := map[1 := Idle])
  }

  lemma FirstSteps(edit: Edit)
    requires edit.Upsert?
    ensures Init(EMPTY)
    ensures NextStep(EMPTY, EMPTY.(pcs := map[1 := Waiting(edit)]), Start(1, edit))
    ensures NextStep(EMPTY.(pcs := map[1 := Waiting(edit)]), Locked(edit, Holding(edit)), Acquire(1))
  {
    assert [] + [Grant(1, edit, false)] == [Grant(1, edit, false)];
  }

  lemma LoadStep(edit: Edit)
    requires edit.Upsert?
    ensures NextStep(Locked(edit, Holding(edit)), Locked(edit, Computed(edit, NewDoc(edit))), Load(1))
  {
    assert "github" in NewDoc(edit);
  }

  lemma StatStep(edit: Edit)
    ensures NextStep(
      Locked(edit, Computed(edit, NewDoc(edit))),
      Locked(edit, Sized(edit, NewDoc(edit), WriteMode(NewDoc(edit)))), Stat(1))
  {
    hide WriteMode, NewDoc;
  }

  lemma CreateStep(edit: Edit, umaskMode: bv16)
    ensures NextStep(
      Locked(edit, Sized(edit, NewDoc(edit), WriteMode(NewDoc(edit)))), Created(edit, umaskMode),
      Create(1, ".tmp", 0, umaskMode))
  {
    hide WriteMode, NewDoc;
  }

  lemma FillStep(edit: Edit, umaskMode: bv16)
    ensures NextStep(Created(edit, umaskMode), Filled(edit, umaskMode), Fill(1))
  {
    hide WriteMode, NewDoc;
  }

  lemma CrashStep(edit: Edit, umaskMode: bv16)
    ensures NextStep(Filled(edit, umaskMode), Dead(edit, umaskMode), Crash(1))
  {
    hide WriteMode, NewDoc;
  }

  function CrashRun(edit: Edit, umaskMode: bv16): seq<State> {
    [EMPTY,
     EMPTY.(pcs := map[1 := Waiting(edit)]),
     Locked(edit, Holding(edit)),
     Locked(edit, Computed(edit, NewDoc(edit))),
     Locked(edit, Sized(edit, NewDoc(edit), WriteMode(NewDoc(edit)))),
     Created(edit, umaskMode),
     Filled(edit, umaskMode),
     Dead(edit, umaskMode)]
  }

  lemma RunOfEight(s0: State, s1: State, s2: State, s3: State, s4: State, s5: State, s6: State, s7: State)
    requires Init(s0) && Next(s0, s1) && Next(s1, s2) && Next(s2, s3)
    requires Next(s3, s4) && Next(s4, s5) && Next(s5, s6) && Next(s6, s7)
    ensures IsRun([s0, s1, s2, s3, s4, s5, s6, s7])
  {
    hide Init, Next;
  }

  lemma Steps(s: State, t: State, step: Step)
    requires NextStep(s, t, step)
    ensures Next(s, t)
  {
    hide NextStep;
  }

  lemma CrashIsRun(edit: Edit, umaskMode: bv16)
    requires edit.Upsert?
    ensures IsRun(CrashRun(edit, umaskMode))
  {
    FirstSteps(edit);
    LoadStep(edit);
    StatStep(edit);
    CreateStep(edit, umaskMode);
    FillStep(edit, umaskMode);
    CrashStep(edit, umaskMode);
    hide NextStep, Init, Next, NewDoc, WriteMode, Locked, Created, Filled, Dead, EMPTY;
    var doc := NewDoc(edit);
    var waiting, holding, computed := EMPTY.(pcs := map[1 := Waiting(edit)]), Locked(edit, Holding(edit)), Locked(edit, Computed(edit, doc));
    var sized := Locked(edit, Sized(edit, doc, WriteMode(doc)));
    var created, filled, dead := Created(edit, umaskMode), Filled(edit, umaskMode), Dead(edit, umaskMode);
    Steps(EMPTY, waiting, Start(1, edit));
    Steps(waiting, holding, Acquire(1));
    Steps(holding, computed, Load(1));
    Steps(computed, sized, Stat(1));
    Steps(sized, created, Create(1, ".tmp", 0, umaskMode));
    Steps(created, filled, Fill(1));
    Steps(filled, dead, Crash(1));
    RunOfEight(EMPTY, waiting, holding, computed, sized, created, filled, dead);
  }

  /** A process that dies between the write and the change of mode leaves its temporary file open,
      with the token in it, to whom `umask` gave rights on new files. */
  lemma CrashLeavesToken(repo: string, token: string, umaskMode: bv16)
    requires !("cmd:" <= token) && umaskMode & GROUP_AND_OTHERS != 0
    ensures
      var run := CrashRun(Upsert(repo, token), umaskMode);
      IsRun(run) && run[7].lock == None && PcOf(run[7], 1).Idle? && Exposed(run[7], 0)
  {
    CrashIsRun(Upsert(repo, token), umaskMode);
    TokenIsLiteral(repo, token);
    hide IsRun, ContainsLiteralToken, NewDoc, WriteMode;
  }

  lemma TokenIsLiteral(repo: string, token: string)
    requires !("cmd:" <= token)
    ensures ContainsLiteralToken(NewDoc(Upsert(repo, token)))
  {
    var doc := NewDoc(Upsert(repo, token));
    var entries := TableOf(TableOf(doc, "github"), "pat");
    assert repo in entries && entries[repo] == Entry(token) && IsLiteralTokenEntry(entries[repo]);
  }
}
