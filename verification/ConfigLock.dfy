/** Concurrent edits of `config.toml`: the read-modify-write of `src/github_pat.rs` under the lock
    and the atomic write of `src/fs_util.rs`, one file-system call at a time.

    Any number of processes take steps in any order, can fail at every call and can die at every
    point. Files are inodes behind names, so that a reader that opened the file keeps reading what
    it opened, and a write in progress is visible as torn content. */
module ConfigLock {
  import opened Wrappers
  import opened TomlValue
  import opened PatConfig
  import PatReload

  type Pid = nat
  type Inode = nat

  const CONFIG := "config.toml"

  datatype Data = Stored(content: Content) | Torn

  datatype Node = Node(data: Data, mode: bv16)

  /** Where a process is in its edit. All but the first two hold the lock. */
  datatype Pc =
    | Idle
    | Waiting(edit: Edit)
    | Holding(edit: Edit)
    | Computed(edit: Edit, doc: Doc)
    | Sized(edit: Edit, doc: Doc, perms: bv16)
    | Writing(edit: Edit, doc: Doc, perms: bv16, tmp: string)
    | Saved(edit: Edit, doc: Doc, perms: bv16, tmp: string)
    | Restricted(edit: Edit, doc: Doc, perms: bv16, tmp: string)
    | Releasing

  /** An open file description, and how many edits were complete when it was opened. */
  datatype Reader = Reader(inode: Inode, seen: nat)

  /** A lock grant for an edit, and whether the edit completed. */
  datatype Grant = Grant(pid: Pid, edit: Edit, done: bool)

  datatype State = State(
    nodes: map<Inode, Node>,
    names: map<string, Inode>,
    lock: Option<Pid>,
    pcs: map<Pid, Pc>,
    readers: map<nat, Reader>,
    // history, for stating properties only
    start: File,
    grants: seq<Grant>,
    log: seq<Edit>,
    stamps: map<Inode, nat>)

  function PcOf(s: State, p: Pid): Pc {
    if p in s.pcs then s.pcs[p] else Idle
  }

  predicate HoldsLock(pc: Pc) {
    !pc.Idle? && !pc.Waiting?
  }

  /** The file behind the name, as `fs::read_to_string` and `fs::metadata` see it. */
  function View(s: State): File {
    if CONFIG in s.names && s.names[CONFIG] in s.nodes && s.nodes[s.names[CONFIG]].data.Stored?
    then Present(s.nodes[s.names[CONFIG]].data.content, s.nodes[s.names[CONFIG]].mode)
    else Absent
  }

  // ---------------------------------------------------------------- steps

  datatype Step =
    | Start(p: Pid, edit: Edit)        // a command begins; a removal first looks for the file
    | Acquire(p: Pid)                  // flock
    | Load(p: Pid)                     // read, parse, edit the tree
    | Stat(p: Pid)                     // exists, metadata
    | Create(p: Pid, tmp: string, inode: Inode, umaskMode: bv16)  // fs::write opens and truncates
    | Fill(p: Pid)                     // fs::write has written everything
    | Chmod(p: Pid)                    // set_permissions
    | Rename(p: Pid)
    | Release(p: Pid)                  // the lock guard is dropped
    | Fail(p: Pid)                     // any call returns an error
    | Crash(p: Pid)                    // the process dies; the kernel drops its lock
    | OpenFile(r: nat)
    | CloseFile(r: nat)

  function At(s: State, p: Pid, pc: Pc): State {
    s.(pcs := s.pcs[p := pc])
  }

  function Committed(s: State, edit: Edit): State {
    s.(log := s.log + [edit],
       grants := if s.grants == [] then [] else s.grants[|s.grants| - 1 := s.grants[|s.grants| - 1].(done := true)])
  }

  ghost predicate NextStep(s: State, t: State, step: Step) {
    match step
    case Start(p, edit) =>
      && PcOf(s, p).Idle?
      && t == if edit.Remove? && CONFIG !in s.names then s else At(s, p, Waiting(edit))
    case Acquire(p) =>
      && PcOf(s, p).Waiting? && s.lock == None
      && var edit := PcOf(s, p).edit;
         t == At(s, p, Holding(edit)).(lock := Some(p), grants := s.grants + [Grant(p, edit, false)])
    case Load(p) =>
      && PcOf(s, p).Holding? && DocOf(View(s)).Some?
      && var edit, original := PcOf(s, p).edit, DocOf(View(s)).value;
         var doc := Edited(original, edit);
         t == if edit.Upsert? && doc == original
              then At(Committed(s, edit), p, Releasing)
              else At(s, p, Computed(edit, doc))
    case Stat(p) =>
      && PcOf(s, p).Computed?
      && var Computed(edit, doc) := PcOf(s, p);
         t == At(s, p, Sized(edit, doc, ModeAfterWrite(View(s), WriteMode(doc))))
    case Create(p, tmp, inode, umaskMode) =>
      && PcOf(s, p).Sized? && tmp != CONFIG
      && var Sized(edit, doc, perms) := PcOf(s, p);
         var next := At(s, p, Writing(edit, doc, perms, tmp));
         if tmp in s.names
         then s.names[tmp] in s.nodes && t == next.(nodes := s.nodes[s.names[tmp] := Node(Torn, s.nodes[s.names[tmp]].mode)])
         else inode !in s.nodes && t == next.(nodes := s.nodes[inode := Node(Torn, umaskMode)], names := s.names[tmp := inode])
    case Fill(p) =>
      && PcOf(s, p).Writing?
      && var Writing(edit, doc, perms, tmp) := PcOf(s, p);
         tmp in s.names && s.names[tmp] in s.nodes &&
         t == At(s, p, Saved(edit, doc, perms, tmp)).(
           nodes := s.nodes[s.names[tmp] := Node(Stored(Whole(doc)), s.nodes[s.names[tmp]].mode)])
    case Chmod(p) =>
      && PcOf(s, p).Saved?
      && var Saved(edit, doc, perms, tmp) := PcOf(s, p);
         tmp in s.names && s.names[tmp] in s.nodes &&
         t == At(s, p, Restricted(edit, doc, perms, tmp)).(
           nodes := s.nodes[s.names[tmp] := Node(s.nodes[s.names[tmp]].data, perms)])
    case Rename(p) =>
      && PcOf(s, p).Restricted?
      && var Restricted(edit, doc, perms, tmp) := PcOf(s, p);
         tmp in s.names &&
         t == At(Committed(s, edit), p, Releasing).(
           names := (s.names - {tmp})[CONFIG := s.names[tmp]],
           stamps := s.stamps[s.names[tmp] := |s.log| + 1])
    case Release(p) =>
      && PcOf(s, p).Releasing?
      && t == At(s, p, Idle).(lock := None)
    case Fail(p) =>
      t == if HoldsLock(PcOf(s, p)) then At(s, p, Releasing) else At(s, p, Idle)
    case Crash(p) =>
      t == At(s, p, Idle).(lock := if s.lock == Some(p) then None else s.lock)
    case OpenFile(r) =>
      CONFIG in s.names && t == s.(readers := s.readers[r := Reader(s.names[CONFIG], |s.log|)])
    case CloseFile(r) =>
      t == s.(readers := s.readers - {r})
  }

  ghost predicate Next(s: State, t: State) {
    exists step :: NextStep(s, t, step)
  }

  /** Nobody runs yet; temp files of processes that died earlier may lie around. */
  ghost predicate Init(s: State) {
    && s.lock == None && s.pcs == map[] && s.readers == map[] && s.grants == [] && s.log == []
    && NamesOk(s)
    && s.start == View(s)
    && s.stamps == (if CONFIG in s.names then map[s.names[CONFIG] := 0] else map[])
    && (CONFIG in s.names ==> s.nodes[s.names[CONFIG]].data.Stored?)
  }

  // ---------------------------------------------------------------- the invariant

  function CompletedEdits(grants: seq<Grant>): seq<Edit> {
    if grants == [] then []
    else CompletedEdits(grants[..|grants| - 1]) +
         if grants[|grants| - 1].done then [grants[|grants| - 1].edit] else []
  }

  /** Names lead to inodes, no inode has two names, and published ones have no other name. */
  ghost predicate NamesOk(s: State) {
    && (forall m, n | m in s.names && n in s.names && m != n :: s.names[m] != s.names[n])
    && (forall n | n in s.names :: s.names[n] in s.nodes)
    && (forall i | i in s.stamps :: i in s.nodes)
    && (forall n | n in s.names && n != CONFIG :: s.names[n] !in s.stamps)
  }

  ghost predicate IsVersion(s: State, inode: Inode, version: nat) {
    && inode in s.nodes && s.nodes[inode].data.Stored? && version <= |s.log|
    && AppliedAll(s.start, s.log[..version]) == Present(s.nodes[inode].data.content, s.nodes[inode].mode)
  }

  /** Every inode that was ever published still holds the version it was published as. */
  ghost predicate StampsOk(s: State) {
    && (forall i | i in s.stamps :: IsVersion(s, i, s.stamps[i]))
    && (CONFIG in s.names ==> s.names[CONFIG] in s.stamps)
    && View(s) == AppliedAll(s.start, s.log)
  }

  ghost predicate LockOk(s: State) {
    forall p: Pid :: HoldsLock(PcOf(s, p)) <==> s.lock == Some(p)
  }

  ghost predicate RemovalsFoundTheFile(s: State) {
    forall p: Pid ::
      PcOf(s, p).Waiting? || PcOf(s, p).Holding? ==> PcOf(s, p).edit.Remove? ==> CONFIG in s.names
  }

  predicate InEdit(pc: Pc) {
    HoldsLock(pc) && !pc.Releasing?
  }

  ghost predicate PcOk(s: State, pc: Pc) {
    && (pc.Computed? ==> Rewrites(View(s), pc.edit) && Applied(View(s), pc.edit) == Written(View(s), pc.doc))
    && (pc.Sized? || pc.Writing? || pc.Saved? || pc.Restricted? ==>
          Rewrites(View(s), pc.edit) && Applied(View(s), pc.edit) == Present(Whole(pc.doc), pc.perms))
    && (pc.Writing? || pc.Saved? || pc.Restricted? ==> pc.tmp != CONFIG && pc.tmp in s.names)
    && (pc.Writing? ==> s.names[pc.tmp] in s.nodes && s.nodes[s.names[pc.tmp]].data == Torn)
    && (pc.Saved? || pc.Restricted? ==> s.names[pc.tmp] in s.nodes && s.nodes[s.names[pc.tmp]].data == Stored(Whole(pc.doc)))
    && (pc.Restricted? ==> s.nodes[s.names[pc.tmp]].mode == pc.perms)
  }

  ghost predicate HolderOk(s: State) {
    s.lock.Some? ==>
      var pc := PcOf(s, s.lock.value);
      && PcOk(s, pc)
      && (InEdit(pc) ==> s.grants != [] && s.grants[|s.grants| - 1] == Grant(s.lock.value, pc.edit, false))
  }

  ghost predicate ReadersOk(s: State) {
    forall r | r in s.readers :: s.readers[r].inode in s.stamps && IsVersion(s, s.readers[r].inode, s.readers[r].seen)
  }

  ghost predicate Inv(s: State) {
    && NamesOk(s)
    && StampsOk(s)
    && LockOk(s)
    && RemovalsFoundTheFile(s)
    && HolderOk(s)
    && ReadersOk(s)
    && s.log == CompletedEdits(s.grants)
  }

  // ---------------------------------------------------------------- every step keeps it

  lemma InitInv(s: State)
    requires Init(s)
    ensures Inv(s)
  {
  }

  lemma AppliedAllStep(file: File, edits: seq<Edit>, edit: Edit)
    ensures AppliedAll(file, edits + [edit]) == Applied(AppliedAll(file, edits), edit)
  {
    assert (edits + [edit])[..|edits|] == edits;
  }

  lemma VersionKept(s: State, t: State, inode: Inode, version: nat)
    requires IsVersion(s, inode, version) && t.start == s.start && s.log <= t.log
    requires inode in t.nodes && t.nodes[inode] == s.nodes[inode]
    ensures IsVersion(t, inode, version)
  {
    assert t.log[..version] == s.log[..version];
  }

  lemma CommittedGrant(s: State, edit: Edit)
    requires s.log == CompletedEdits(s.grants)
    requires s.grants != [] && s.grants[|s.grants| - 1].edit == edit && !s.grants[|s.grants| - 1].done
    ensures Committed(s, edit).log == CompletedEdits(Committed(s, edit).grants)
  {
    var n := |s.grants| - 1;
    var grants := Committed(s, edit).grants;
    assert grants[..n] == s.grants[..n] && grants[n].done;
    assert CompletedEdits(s.grants) == CompletedEdits(s.grants[..n]) + [];
    assert CompletedEdits(grants) == CompletedEdits(grants[..n]) + [edit];
  }

  /** Versions survive a step that keeps the published inodes and only extends the log. */
  lemma VersionsKept(s: State, t: State)
    requires StampsOk(s) && ReadersOk(s)
    requires t.start == s.start && s.log <= t.log
    requires forall i | i in s.stamps :: i in t.nodes && t.nodes[i] == s.nodes[i]
    ensures forall i | i in s.stamps :: IsVersion(t, i, s.stamps[i])
    ensures forall r | r in s.readers :: IsVersion(t, s.readers[r].inode, s.readers[r].seen)
  {
    hide AppliedAll;
    forall i | i in s.stamps ensures IsVersion(t, i, s.stamps[i]) { VersionKept(s, t, i, s.stamps[i]); }
    forall r | r in s.readers ensures IsVersion(t, s.readers[r].inode, s.readers[r].seen) {
      VersionKept(s, t, s.readers[r].inode, s.readers[r].seen);
    }
  }

  /** A step that keeps the published inodes, the published name and the history. */
  lemma UnpublishedStep(s: State, t: State)
    requires Inv(s)
    requires t.start == s.start && t.log == s.log && t.stamps == s.stamps && t.readers == s.readers
    requires forall i | i in s.stamps :: i in t.nodes && t.nodes[i] == s.nodes[i]
    requires CONFIG in t.names <==> CONFIG in s.names
    requires CONFIG in s.names ==> t.names[CONFIG] == s.names[CONFIG]
    ensures StampsOk(t) && ReadersOk(t) && View(t) == View(s)
  {
    hide AppliedAll;
    VersionsKept(s, t);
  }

  /** Process `p` moves to `pc`, and takes or drops the lock accordingly. */
  lemma PcMoves(s: State, t: State, p: Pid, pc: Pc)
    requires LockOk(s) && RemovalsFoundTheFile(s)
    requires t.pcs == s.pcs[p := pc]
    requires HoldsLock(pc) <==> t.lock == Some(p)
    requires t.lock == s.lock || (s.lock == None && t.lock == Some(p)) || (s.lock == Some(p) && t.lock == None)
    requires CONFIG in s.names ==> CONFIG in t.names
    requires (pc.Waiting? || pc.Holding?) && pc.edit.Remove? ==> CONFIG in t.names
    ensures LockOk(t) && RemovalsFoundTheFile(t)
  {
    forall q: Pid ensures HoldsLock(PcOf(t, q)) <==> t.lock == Some(q) {
      assert PcOf(t, q) == if q == p then pc else PcOf(s, q);
    }
    forall q: Pid | PcOf(t, q).Waiting? || PcOf(t, q).Holding?
      ensures PcOf(t, q).edit.Remove? ==> CONFIG in t.names
    {
      assert PcOf(t, q) == if q == p then pc else PcOf(s, q);
    }
  }

  lemma StartInv(s: State, t: State, p: Pid, edit: Edit)
    requires Inv(s) && NextStep(s, t, Start(p, edit))
    ensures Inv(t)
  {
    hide AppliedAll, IsVersion, PcOk, View;
    if t != s {
      UnpublishedStep(s, t);
      PcMoves(s, t, p, t.pcs[p]);
      PcOkKept(s, t);
    }
  }

  lemma AcquireInv(s: State, t: State, p: Pid)
    requires Inv(s) && NextStep(s, t, Acquire(p))
    ensures Inv(t)
  {
    hide AppliedAll, IsVersion, View;
    UnpublishedStep(s, t);
    PcMoves(s, t, p, t.pcs[p]);
    assert t.grants[..|s.grants|] == s.grants;
  }

  lemma StatInv(s: State, t: State, p: Pid)
    requires Inv(s) && NextStep(s, t, Stat(p))
    ensures Inv(t)
  {
    hide AppliedAll, IsVersion, View, Applied, WriteMode, ModeAfterWrite, Rewrites;
    assert s.lock == Some(p);
    UnpublishedStep(s, t);
    PcMoves(s, t, p, t.pcs[p]);
    SizedIsApplied(s, PcOf(s, p));
  }

  /** A step that moves one process, by way of the lock, and touches no file. */
  lemma FilesKept(s: State, t: State)
    requires Inv(s)
    requires t.nodes == s.nodes && t.names == s.names && t.start == s.start && t.log == s.log
    requires t.stamps == s.stamps && t.readers == s.readers
    ensures NamesOk(t) && StampsOk(t) && ReadersOk(t) && View(t) == View(s)
  {
    hide LockOk, HolderOk, RemovalsFoundTheFile, AppliedAll, IsVersion;
    UnpublishedStep(s, t);
  }

  lemma ReleaseInv(s: State, t: State, p: Pid)
    requires Inv(s) && NextStep(s, t, Release(p))
    ensures Inv(t)
  {
    FilesKept(s, t);
    hide AppliedAll, IsVersion, PcOk, View, NamesOk, StampsOk, ReadersOk;
    PcMoves(s, t, p, t.pcs[p]);
  }

  lemma FailInv(s: State, t: State, p: Pid)
    requires Inv(s) && NextStep(s, t, Fail(p))
    ensures Inv(t)
  {
    FilesKept(s, t);
    PcOkKept(s, t);
    hide AppliedAll, IsVersion, PcOk, View, NamesOk, StampsOk, ReadersOk;
    PcMoves(s, t, p, t.pcs[p]);
  }

  lemma CrashInv(s: State, t: State, p: Pid)
    requires Inv(s) && NextStep(s, t, Crash(p))
    ensures Inv(t)
  {
    FilesKept(s, t);
    PcOkKept(s, t);
    hide AppliedAll, IsVersion, PcOk, View, NamesOk, StampsOk, ReadersOk;
    PcMoves(s, t, p, t.pcs[p]);
  }

  lemma PcOkKept(s: State, t: State)
    requires t.nodes == s.nodes && t.names == s.names
    ensures forall pc :: PcOk(s, pc) <==> PcOk(t, pc)
    ensures PcOk(t, Releasing)
  {
    hide Applied, Rewrites, Written;
    assert View(s) == View(t);
  }

  lemma SizedIsApplied(s: State, pc: Pc)
    requires pc.Computed? && PcOk(s, pc)
    ensures Applied(View(s), pc.edit) == Present(Whole(pc.doc), ModeAfterWrite(View(s), WriteMode(pc.doc)))
  {
    hide Applied, Rewrites, WriteMode, ModeAfterWrite;
  }

  predicate ChangesNothing(s: State, p: Pid)
    requires PcOf(s, p).Holding? && DocOf(View(s)).Some?
  {
    PcOf(s, p).edit.Upsert? && Edited(DocOf(View(s)).value, PcOf(s, p).edit) == DocOf(View(s)).value
  }

  lemma LoadInv(s: State, t: State, p: Pid)
    requires Inv(s) && NextStep(s, t, Load(p))
    ensures Inv(t)
  {
    if ChangesNothing(s, p) { LoadUnchanged(s, t, p); } else { LoadChanged(s, t, p); }
    hide Inv, NextStep;
  }

  lemma LoadChanged(s: State, t: State, p: Pid)
    requires Inv(s) && NextStep(s, t, Load(p)) && !ChangesNothing(s, p)
    ensures Inv(t)
  {
    LoadedIsApplied(s, p);
    FilesKept(s, t);
    hide AppliedAll, IsVersion, Edited, WriteMode, ModeAfterWrite, NamesOk, StampsOk, ReadersOk, View, Rewrites, Applied;
    assert s.lock == Some(p);
    PcMoves(s, t, p, t.pcs[p]);
  }

  lemma LoadUnchanged(s: State, t: State, p: Pid)
    requires Inv(s) && NextStep(s, t, Load(p)) && ChangesNothing(s, p)
    ensures Inv(t)
  {
    LoggedWithoutWrite(s, t, p);
    hide NextStep, AppliedAll, IsVersion, View, Edited, StampsOk, ReadersOk, CompletedEdits, PcOk;
    PcMoves(s, t, p, Releasing);
    assert PcOk(t, Releasing) by { ReleasingIsOk(t); }
    assert PcOf(t, p) == Releasing;
  }

  lemma ReleasingIsOk(s: State)
    ensures PcOk(s, Releasing)
  {
  }

  /** An upsert that finds its entry in place is complete without a write. */
  lemma LoggedWithoutWrite(s: State, t: State, p: Pid)
    requires Inv(s) && NextStep(s, t, Load(p)) && ChangesNothing(s, p)
    ensures t == At(Committed(s, PcOf(s, p).edit), p, Releasing) && s.lock == Some(p)
    ensures StampsOk(t) && ReadersOk(t) && t.log == CompletedEdits(t.grants)
  {
    var edit := PcOf(s, p).edit;
    LoadedIsApplied(s, p);
    assert s.lock == Some(p);
    AppliedAllStep(s.start, s.log, edit);
    CommittedGrant(s, edit);
    VersionsKept(s, t);
    hide Edited, Applied, NamesOk, LockOk, RemovalsFoundTheFile, PcOk, AppliedAll, IsVersion, CompletedEdits;
  }

  lemma LoadedIsApplied(s: State, p: Pid)
    requires Inv(s) && PcOf(s, p).Holding? && DocOf(View(s)).Some?
    ensures
      var edit, original := PcOf(s, p).edit, DocOf(View(s)).value;
      if edit.Upsert? && Edited(original, edit) == original then Applied(View(s), edit) == View(s)
      else Rewrites(View(s), edit) && Applied(View(s), edit) == Written(View(s), Edited(original, edit))
  {
    hide AppliedAll, Edited, Written;
  }

  lemma CreateInv(s: State, t: State, p: Pid, tmp: string, inode: Inode, umaskMode: bv16)
    requires Inv(s) && NextStep(s, t, Create(p, tmp, inode, umaskMode))
    ensures Inv(t)
  {
    hide AppliedAll, IsVersion, Applied, View, NamesOk, StampsOk, ReadersOk;
    assert s.lock == Some(p);
    CreateNames(s, t, p, tmp, inode, umaskMode);
    PcMoves(s, t, p, t.pcs[p]);
  }

  lemma CreateNames(s: State, t: State, p: Pid, tmp: string, inode: Inode, umaskMode: bv16)
    requires Inv(s) && NextStep(s, t, Create(p, tmp, inode, umaskMode))
    ensures NamesOk(t) && StampsOk(t) && ReadersOk(t) && View(t) == View(s)
  {
    hide AppliedAll, IsVersion, Applied, View, PcOk, LockOk, HolderOk, RemovalsFoundTheFile;
    UnpublishedStep(s, t);
  }

  lemma FillInv(s: State, t: State, step: Step)
    requires Inv(s) && NextStep(s, t, step)
    requires step.Fill? || step.Chmod?
    ensures Inv(t)
  {
    hide AppliedAll, IsVersion, Applied, View;
    assert s.lock == Some(step.p);
    UnpublishedStep(s, t);
    PcMoves(s, t, step.p, t.pcs[step.p]);
  }

  lemma RenameInv(s: State, t: State, p: Pid)
    requires Inv(s) && NextStep(s, t, Rename(p))
    ensures Inv(t)
  {
    hide AppliedAll, Applied, Written, Rewrites, CompletedEdits;
    var Restricted(edit, doc, perms, tmp) := PcOf(s, p);
    var inode := s.names[tmp];
    assert s.lock == Some(p);
    AppliedAllStep(s.start, s.log, edit);
    CommittedGrant(s, edit);
    assert t.log[..|s.log| + 1] == t.log;
    assert IsVersion(t, inode, |s.log| + 1);
    VersionsKept(s, t);
    PcMoves(s, t, p, Releasing);
    assert NamesOk(t);
    assert HolderOk(t);
  }

  lemma ReaderInv(s: State, t: State, step: Step)
    requires Inv(s) && NextStep(s, t, step)
    requires step.OpenFile? || step.CloseFile?
    ensures Inv(t)
  {
    hide AppliedAll, Applied, Written, Rewrites, CompletedEdits;
    VersionsKept(s, t);
    assert s.log[..|s.log|] == s.log;
    assert forall p: Pid :: PcOf(t, p) == PcOf(s, p);
  }

  lemma NextInv(s: State, t: State)
    requires Inv(s) && Next(s, t)
    ensures Inv(t)
  {
    var step :| NextStep(s, t, step);
    match step
    case Load(p) => LoadInv(s, t, p);
    case Rename(p) => RenameInv(s, t, p);
    case Create(p, tmp, inode, umaskMode) => CreateInv(s, t, p, tmp, inode, umaskMode);
    case Fill(_) => FillInv(s, t, step);
    case Chmod(_) => FillInv(s, t, step);
    case OpenFile(_) => ReaderInv(s, t, step);
    case CloseFile(_) => ReaderInv(s, t, step);
    case Start(p, edit) => StartInv(s, t, p, edit);
    case Acquire(p) => AcquireInv(s, t, p);
    case Stat(p) => StatInv(s, t, p);
    case Release(p) => ReleaseInv(s, t, p);
    case Fail(p) => FailInv(s, t, p);
    case Crash(p) => CrashInv(s, t, p);
  }

  // ---------------------------------------------------------------- whole runs

  ghost predicate IsRun(run: seq<State>) {
    && run != [] && Init(run[0])
    && forall i | 0 <= i < |run| - 1 :: Next(run[i], run[i + 1])
  }

  lemma HistoryGrows(s: State, t: State)
    requires Next(s, t)
    ensures t.start == s.start && s.log <= t.log
  {
    var step :| NextStep(s, t, step);
    StepHistory(s, t, step);
  }

  lemma StepHistory(s: State, t: State, step: Step)
    requires NextStep(s, t, step)
    ensures t.start == s.start && (t.log == s.log || (|t.log| == |s.log| + 1 && s.log <= t.log))
  {
    forall edit: Edit
      ensures Committed(s, edit).start == s.start && Committed(s, edit).log == s.log + [edit]
    {
    }
    hide PcOf, View, Edited, DocOf, WriteMode, ModeAfterWrite, Committed, HoldsLock;
  }

  lemma {:induction false} RunInv(run: seq<State>, i: nat)
    requires IsRun(run) && i < |run|
    ensures Inv(run[i]) && run[i].start == View(run[0])
  {
    hide Inv, Next;
    if i == 0 {
      InitInv(run[0]);
    } else {
      RunInv(run, i - 1);
      NextInv(run[i - 1], run[i]);
      HistoryGrows(run[i - 1], run[i]);
    }
  }

  lemma {:induction false} LogGrows(run: seq<State>, i: nat, j: nat)
    requires IsRun(run) && i <= j < |run|
    ensures run[i].log <= run[j].log
    decreases j - i
  {
    hide Next;
    if i < j {
      LogGrows(run, i, j - 1);
      HistoryGrows(run[j - 1], run[j]);
    }
  }

  /** Whatever the interleaving and wherever processes fail or die, the file is the result of
      applying the completed edits one after the other, in the order in which the lock was
      granted. */
  lemma EditsAreSequential(run: seq<State>, i: nat)
    requires IsRun(run) && i < |run|
    ensures View(run[i]) == AppliedAll(View(run[0]), CompletedEdits(run[i].grants))
  {
    RunInv(run, i);
  }

  /** A reader that takes no lock and opened the file in state `i` reads, as long as it keeps it
      open, the whole document of state `i`: never a torn one, however many edits go on. */
  lemma ReaderSeesWholeDocument(run: seq<State>, i: nat, j: nat, r: nat)
    requires IsRun(run) && i < j < |run| && NextStep(run[i], run[i + 1], OpenFile(r))
    requires r in run[j].readers && run[j].readers[r] == run[i + 1].readers[r]
    ensures
      var inode := run[j].readers[r].inode;
      && inode in run[j].nodes && run[j].nodes[inode].data.Stored?
      && View(run[i]) == Present(run[j].nodes[inode].data.content, run[j].nodes[inode].mode)
  {
    hide View, AppliedAll;
    RunInv(run, i);
    RunInv(run, j);
    LogGrows(run, i, j);
    assert run[j].log[..|run[i].log|] == run[i].log;
  }

  lemma {:induction false} AppliedAllConcat(file: File, a: seq<Edit>, b: seq<Edit>)
    ensures AppliedAll(file, a + b) == AppliedAll(AppliedAll(file, a), b)
  {
    if b == [] {
      assert a + b == a;
    } else {
      AppliedAllConcat(file, a, b[..|b| - 1]);
      assert (a + b)[..|a + b| - 1] == a + b[..|b| - 1];
    }
  }

  /** A removal that returns early, without the lock, because there is no file counts as an edit of
      its own at that moment: with it put there, every later state still is the sequential
      application of all edits. */
  lemma RemovalWithoutFile(run: seq<State>, i: nat, j: nat, p: Pid, repo: string)
    requires IsRun(run) && i < j < |run|
    requires NextStep(run[i], run[i + 1], Start(p, Remove(repo))) && CONFIG !in run[i].names
    ensures run[i].log <= run[j].log
    ensures View(run[j]) ==
      AppliedAll(View(run[0]), (run[i].log + [Remove(repo)]) + run[j].log[|run[i].log|..])
  {
    RunInv(run, i);
    RunInv(run, j);
    LogGrows(run, i, j);
    var earlier, later := run[i].log, run[j].log[|run[i].log|..];
    assert run[j].log == earlier + later;
    assert Applied(View(run[i]), Remove(repo)) == View(run[i]) == Absent;
    hide View, AppliedAll, Inv;
    AppliedAllConcat(View(run[0]), earlier, later);
    AppliedAllStep(View(run[0]), earlier, Remove(repo));
    AppliedAllConcat(View(run[0]), earlier + [Remove(repo)], later);
  }

  /** Once the file exists it stays, and its permission bits never grow. */
  lemma PermissionsNeverGrow(run: seq<State>, i: nat, j: nat)
    requires IsRun(run) && i <= j < |run| && View(run[i]).Present?
    ensures View(run[j]).Present? && GrantsNoMoreThan(View(run[j]).mode, View(run[i]).mode)
  {
    hide View, AppliedAll;
    RunInv(run, i);
    RunInv(run, j);
    LogGrows(run, i, j);
    var more := run[j].log[|run[i].log|..];
    assert run[j].log == run[i].log + more;
    AppliedAllConcat(View(run[0]), run[i].log, more);
    PatReload.ModeNeverGrows(View(run[i]), more);
  }
}
