/** The instance registry of `src/config.rs`: one directory per instance, an allocator of indices
    and names, and lookup by name.

    A directory may lack readable metadata, which a crash half-way through an allocation or a
    destruction leaves behind. Such directories are not instances, and are taken over silently. */
module Registry {
  import opened Wrappers
  import opened InstanceNames

  datatype Meta = Unreadable | Good(name: string, index: nat, image: string)

  datatype Instance = Instance(name: string, index: nat, image: string, dir: string)

  type Dirs = map<string, Meta>

  predicate IsGood(dirs: Dirs, d: string) {
    d in dirs && dirs[d].Good?
  }

  /** `Instance::load` */
  function Load(dirs: Dirs, d: string): Option<Instance> {
    if IsGood(dirs, d) then Some(Instance(dirs[d].name, dirs[d].index, dirs[d].image, d)) else None
  }

  function Names(dirs: Dirs): set<string> {
    set d | d in dirs && dirs[d].Good?
  }

  function UsedIndices(dirs: Dirs): set<nat> {
    set d | d in dirs && dirs[d].Good? :: dirs[d].index
  }

  /** What holds in every reachable state. */
  ghost predicate ValidDirs(dirs: Dirs) {
    && (forall d | IsGood(dirs, d) :: dirs[d].name == d && IsInstanceName(d) && dirs[d].index <= MAX_INDEX)
    && (forall d, e | IsGood(dirs, d) && IsGood(dirs, e) && d != e :: dirs[d].index != dirs[e].index)
  }

  // ---------------------------------------------------------------- listing

  function InsertByIndex(x: Instance, list: seq<Instance>): seq<Instance> {
    if list == [] || x.index <= list[0].index then [x] + list
    else [list[0]] + InsertByIndex(x, list[1..])
  }

  /** `sort_by_key(|i| i.index)`, which is stable. */
  function SortByIndex(list: seq<Instance>): seq<Instance> {
    if list == [] then [] else InsertByIndex(list[0], SortByIndex(list[1..]))
  }

  ghost predicate SortedByIndex(list: seq<Instance>) {
    forall i, j | 0 <= i < j < |list| :: list[i].index <= list[j].index
  }

  ghost predicate DistinctDirs(list: seq<Instance>) {
    forall i, j | 0 <= i < j < |list| :: list[i].dir != list[j].dir
  }

  lemma {:induction false} InsertMembers(x: Instance, list: seq<Instance>)
    ensures forall y :: y in InsertByIndex(x, list) <==> y == x || y in list
    ensures |InsertByIndex(x, list)| == |list| + 1
  {
    if list != [] && x.index > list[0].index {
      InsertMembers(x, list[1..]);
      assert list == [list[0]] + list[1..];
    }
  }

  lemma {:induction false} InsertSorts(x: Instance, list: seq<Instance>)
    requires SortedByIndex(list) && DistinctDirs(list) && forall y | y in list :: y.dir != x.dir
    ensures SortedByIndex(InsertByIndex(x, list)) && DistinctDirs(InsertByIndex(x, list))
  {
    if list != [] && x.index > list[0].index {
      InsertSorts(x, list[1..]);
      InsertMembers(x, list[1..]);
      var rest := InsertByIndex(x, list[1..]);
      forall i | 0 <= i < |rest| ensures list[0].index <= rest[i].index && list[0].dir != rest[i].dir {
        assert rest[i] == x || rest[i] in list[1..];
        if rest[i] == x { assert list[0] in list; }
      }
    }
  }

  lemma {:induction false} SortSorts(list: seq<Instance>)
    requires DistinctDirs(list)
    ensures SortedByIndex(SortByIndex(list)) && DistinctDirs(SortByIndex(list))
    ensures forall y :: y in SortByIndex(list) <==> y in list
  {
    if list != [] {
      SortSorts(list[1..]);
      InsertSorts(list[0], SortByIndex(list[1..]));
      InsertMembers(list[0], SortByIndex(list[1..]));
      assert list == [list[0]] + list[1..];
    }
  }

  /** A listing: every instance, once, by index. */
  ghost predicate IsListing(dirs: Dirs, list: seq<Instance>) {
    && SortedByIndex(list)
    && DistinctDirs(list)
    && (forall inst :: inst in list <==> Load(dirs, inst.dir) == Some(inst))
  }

  ghost predicate Increasing(list: seq<Instance>) {
    forall i, j | 0 <= i < j < |list| :: list[i].index < list[j].index
  }

  lemma ListingIncreasing(dirs: Dirs, list: seq<Instance>)
    requires ValidDirs(dirs) && IsListing(dirs, list)
    ensures Increasing(list)
  {
    forall i, j | 0 <= i < j < |list| ensures list[i].index < list[j].index {
      assert list[i] in list && list[j] in list;
      assert IsGood(dirs, list[i].dir) && IsGood(dirs, list[j].dir);
    }
  }

  lemma {:induction false} SameElements(a: seq<Instance>, b: seq<Instance>)
    requires Increasing(a) && Increasing(b)
    requires forall inst :: inst in a <==> inst in b
    ensures a == b
  {
    HeadsAgree(a, b);
    if a != [] {
      hide Increasing;
      TailMembers(a);
      TailMembers(b);
      SameElements(a[1..], b[1..]);
      assert a == [a[0]] + a[1..] && b == [b[0]] + b[1..];
    }
  }

  lemma HeadsAgree(a: seq<Instance>, b: seq<Instance>)
    requires Increasing(a) && Increasing(b)
    requires forall inst :: inst in a <==> inst in b
    ensures (a == [] <==> b == []) && (a != [] ==> a[0] == b[0])
  {
    assert forall i | 0 <= i < |a| :: a[i] in a;
    assert forall i | 0 <= i < |b| :: b[i] in b;
    if a != [] && b != [] {
      assert a[0] in b && b[0] in a;
      var i :| 0 <= i < |b| && b[i] == a[0];
      var j :| 0 <= j < |a| && a[j] == b[0];
    }
  }

  lemma TailMembers(a: seq<Instance>)
    requires Increasing(a) && a != []
    ensures Increasing(a[1..]) && forall inst :: inst in a[1..] <==> inst in a && inst != a[0]
  {
    assert a == [a[0]] + a[1..];
  }

  /** The order in which the file system lists directories does not matter. */
  lemma ListingIsUnique(dirs: Dirs, a: seq<Instance>, b: seq<Instance>)
    requires ValidDirs(dirs) && IsListing(dirs, a) && IsListing(dirs, b)
    ensures a == b
  {
    ListingIncreasing(dirs, a);
    ListingIncreasing(dirs, b);
    SameElements(a, b);
  }

  // ---------------------------------------------------------------- lookup

  function Find(list: seq<Instance>, name: string): Option<Instance> {
    if list == [] then None
    else if list[0].name == name then Some(list[0])
    else Find(list[1..], name)
  }

  lemma {:induction false} FindFinds(list: seq<Instance>, name: string)
    ensures Find(list, name).Some? ==> Find(list, name).value in list && Find(list, name).value.name == name
    ensures Find(list, name).None? ==> forall inst | inst in list :: inst.name != name
  {
    if list != [] {
      FindFinds(list[1..], name);
      assert list == [list[0]] + list[1..];
    }
  }

  /** The one directory read of the fast path. */
  function FastPath(dirs: Dirs, name: string): Option<Instance> {
    match Load(dirs, name)
    case None => None
    case Some(inst) => if inst.name == name then Some(inst) else None
  }

  /** In every reachable state the fast path finds what the full listing and search would find,
      for present and absent names alike. */
  lemma FastPathAgrees(dirs: Dirs, list: seq<Instance>, name: string)
    requires ValidDirs(dirs) && IsListing(dirs, list)
    ensures FastPath(dirs, name) == Find(list, name)
  {
    FindFinds(list, name);
    if Find(list, name).Some? {
      assert Load(dirs, Find(list, name).value.dir) == Some(Find(list, name).value);
    }
    if FastPath(dirs, name).Some? {
      assert FastPath(dirs, name).value in list;
    }
  }

  // ---------------------------------------------------------------- indices

  /** One above the highest index while there is room, else the lowest free one. */
  ghost predicate IsNextIndex(used: set<nat>, i: nat) {
    && i <= MAX_INDEX && i !in used
    && if used == {} || MAX_INDEX in used
       then forall j: nat | j < i :: j in used
       else i >= 1 && i - 1 in used && forall j | j in used :: j < i
  }

  lemma NextIndexIsUnique(used: set<nat>, i: nat, j: nat)
    requires IsNextIndex(used, i) && IsNextIndex(used, j)
    ensures i == j
  {
  }

  function IndicesUpTo(n: nat): (r: set<nat>)
    ensures forall i: nat :: i in r <==> i < n
    ensures |r| == n
  {
    if n == 0 then {} else IndicesUpTo(n - 1) + {n - 1}
  }

  /** Distinct indices: there are as many as there are instances. */
  lemma {:induction false} UsedCount(dirs: Dirs)
    requires ValidDirs(dirs)
    ensures |UsedIndices(dirs)| == |Names(dirs)|
    decreases |dirs|
  {
    if Names(dirs) == {} {
      assert UsedIndices(dirs) == {};
    } else {
      var d :| d in Names(dirs);
      var fewer := dirs - {d};
      RemoveOne(dirs, d);
      hide Names, UsedIndices, ValidDirs;
      UsedCount(fewer);
    }
  }

  lemma RemoveOne(dirs: Dirs, d: string)
    requires ValidDirs(dirs) && d in Names(dirs)
    ensures ValidDirs(dirs - {d}) && d !in Names(dirs - {d})
    ensures Names(dirs) == Names(dirs - {d}) + {d}
    ensures dirs[d].index !in UsedIndices(dirs - {d})
    ensures UsedIndices(dirs) == UsedIndices(dirs - {d}) + {dirs[d].index}
  {
    var fewer := dirs - {d};
    forall e | IsGood(fewer, e) ensures fewer[e].index != dirs[d].index {
      assert IsGood(dirs, d) && IsGood(dirs, e);
    }
    forall i | i in UsedIndices(dirs) ensures i in UsedIndices(fewer) + {dirs[d].index} {
      var e :| e in dirs && dirs[e].Good? && dirs[e].index == i;
      if e != d { assert e in fewer && fewer[e].Good?; }
    }
    forall i | i in UsedIndices(fewer) ensures i in UsedIndices(dirs) {
      var e :| e in fewer && fewer[e].Good? && fewer[e].index == i;
      assert e in dirs && dirs[e].Good?;
    }
  }

  /** All slots are in use exactly when there are 253 instances; there are never more. */
  lemma SlotsInUse(dirs: Dirs)
    requires ValidDirs(dirs)
    ensures |Names(dirs)| <= 253
    ensures |Names(dirs)| == 253 <==> forall i: nat | i <= MAX_INDEX :: i in UsedIndices(dirs)
  {
    SlotsUpTo(dirs, MAX_INDEX + 1);
  }

  lemma SlotsUpTo(dirs: Dirs, n: nat)
    requires ValidDirs(dirs) && n == MAX_INDEX + 1
    ensures |Names(dirs)| <= n
    ensures |Names(dirs)| == n <==> forall i: nat | i < n :: i in UsedIndices(dirs)
  {
    hide Names;
    UsedCount(dirs);
    var all, used := IndicesUpTo(n), UsedIndices(dirs);
    assert used <= all;
    SubsetSize(used, all);
    if forall i: nat | i < n :: i in used { assert used == all; }
  }

  // ---------------------------------------------------------------- allocation

  datatype AllocateError = NoFreeSlot | NoUniqueName | AlreadyExists | SaveFailed

  /** How far writing the metadata file gets. */
  datatype SaveOutcome = Saved | DirectoryOnly | NothingWritten

  /** Whether the name the command asks for, or derives, is free. */
  ghost predicate NameIsFree(dirs: Dirs, name: Option<string>, workspace: Option<string>) {
    match (name, workspace)
    case (Some(n), _) => n !in Names(dirs)
    case (None, Some(w)) => exists n | 1 <= n <= 99 :: Candidate(SanitizeBasename(w), n) !in Names(dirs)
    case (None, None) => forall i | IsNextIndex(UsedIndices(dirs), i) :: Decimal(i) !in Names(dirs)
  }

  /** The name of a new instance. */
  ghost predicate IsNewName(dirs: Dirs, name: Option<string>, workspace: Option<string>, index: nat, result: string) {
    match (name, workspace)
    case (Some(n), _) => result == n
    case (None, Some(w)) =>
      exists n :: IsFirstFree(SanitizeBasename(w), Names(dirs), n) && result == Candidate(SanitizeBasename(w), n)
    case (None, None) => result == Decimal(index)
  }

  /** With at most 98 instances, an allocation for a workspace never fails for want of a name. */
  lemma WorkspaceNameIsFree(dirs: Dirs, workspace: string)
    requires |Names(dirs)| <= 98
    ensures NameIsFree(dirs, None, Some(workspace))
  {
    CandidateIsFree(SanitizeBasename(workspace), Names(dirs));
  }

  lemma {:induction false} FirstFreeExists(base: string, taken: set<string>, n: nat) returns (k: nat)
    requires 1 <= n <= 99 && Candidate(base, n) !in taken
    ensures IsFirstFree(base, taken, k)
  {
    if m :| 1 <= m < n && Candidate(base, m) !in taken {
      k := FirstFreeExists(base, taken, m);
    } else {
      k := n;
    }
  }

  /** If any candidate is free then one is the first free one, and it is a name. */
  lemma FirstFreeIsName(dirs: Dirs, workspace: string)
    ensures NameIsFree(dirs, None, Some(workspace)) ==>
      exists k :: IsFirstFree(SanitizeBasename(workspace), Names(dirs), k)
    ensures forall k | IsFirstFree(SanitizeBasename(workspace), Names(dirs), k) ::
      IsInstanceName(Candidate(SanitizeBasename(workspace), k))
  {
    var base := SanitizeBasename(workspace);
    if n :| 1 <= n <= 99 && Candidate(base, n) !in Names(dirs) {
      var k := FirstFreeExists(base, Names(dirs), n);
    }
    forall k | IsFirstFree(base, Names(dirs), k) ensures IsInstanceName(Candidate(base, k)) {
      CandidateIsName(base, k);
    }
  }

  lemma DecimalIsName(index: nat)
    requires index <= MAX_INDEX
    ensures IsInstanceName(Decimal(index))
  {
    DecimalLength(index);
  }

  /** Whatever the operations do, a new good directory under a free name and a free index keeps
      the state valid. */
  lemma ValidAfterSave(dirs: Dirs, name: string, index: nat, image: string)
    requires ValidDirs(dirs) && name !in Names(dirs) && IsInstanceName(name)
    requires index <= MAX_INDEX && index !in UsedIndices(dirs)
    ensures ValidDirs(dirs[name := Good(name, index, image)])
  {
    forall d | IsGood(dirs, d) ensures dirs[d].index != index {
      assert dirs[d].index in UsedIndices(dirs);
    }
  }

  lemma NextIndexIsFree(used: set<nat>, i: nat)
    requires IsNextIndex(used, i)
    ensures i <= MAX_INDEX && i !in used
  {
  }

  lemma UnreadableChangesNothing(dirs: Dirs, d: string)
    requires ValidDirs(dirs) && d !in Names(dirs)
    ensures
      var after := dirs[d := Unreadable];
      ValidDirs(after) && Names(after) == Names(dirs) && UsedIndices(after) == UsedIndices(dirs)
  {
    var after := dirs[d := Unreadable];
    assert forall e :: IsGood(after, e) <==> IsGood(dirs, e);
    assert forall e | IsGood(dirs, e) :: after[e] == dirs[e];
  }

  lemma IndicesInRange(dirs: Dirs)
    requires ValidDirs(dirs)
    ensures forall i | i in UsedIndices(dirs) :: i <= MAX_INDEX
  {
    forall i | i in UsedIndices(dirs) ensures i <= MAX_INDEX {
      var d :| d in dirs && dirs[d].Good? && dirs[d].index == i;
      assert IsGood(dirs, d);
    }
  }

  /** The highest index in use, or -1. */
  method HighestIndex(instances: seq<Instance>, used: set<nat>) returns (highest: int)
    requires used == set inst | inst in instances :: inst.index
    ensures forall j | j in used :: j <= highest
    ensures if highest >= 0 then highest in used else highest == -1 && used == {}
  {
    highest := -1;
    for i := 0 to |instances|
      invariant -1 <= highest
      invariant forall k | 0 <= k < i :: instances[k].index <= highest
      invariant highest >= 0 ==> highest in used
      invariant highest == -1 ==> i == 0
    {
      assert instances[i] in instances && instances[i].index in used;
      if instances[i].index > highest {
        highest := instances[i].index;
      }
    }
  }

  /** The lowest index that is not in use. */
  method LowestFree(used: set<nat>) returns (r: Option<nat>)
    ensures r.None? <==> forall i: nat | i <= MAX_INDEX :: i in used
    ensures r.Some? ==> r.value <= MAX_INDEX && r.value !in used && forall i: nat | i < r.value :: i in used
  {
    var index := 0;
    while index <= MAX_INDEX && index in used
      invariant index <= MAX_INDEX + 1
      invariant forall j: nat | j < index :: j in used
    {
      index := index + 1;
    }
    return if index <= MAX_INDEX then Some(index) else None;
  }

  class InstancesDir {
    var dirs: Dirs

    ghost predicate Valid()
      reads this
    {
      ValidDirs(dirs)
    }

    constructor ()
      ensures Valid() && dirs == map[]
    {
      dirs := map[];
    }

    /** `list_instances`; `order` is what the directory read yields. */
    method ListInstances(order: seq<string>) returns (list: seq<Instance>)
      requires forall d :: d in order <==> d in dirs
      requires forall i, j | 0 <= i < j < |order| :: order[i] != order[j]
      ensures IsListing(dirs, list)
    {
      var instances: seq<Instance> := [];
      for i := 0 to |order|
        invariant forall k | 0 <= k < |instances| :: instances[k].dir in order[..i] && Load(dirs, instances[k].dir) == Some(instances[k])
        invariant forall j | 0 <= j < i && IsGood(dirs, order[j]) :: Load(dirs, order[j]).value in instances
        invariant forall k, l | 0 <= k < l < |instances| :: instances[k].dir != instances[l].dir
      {
        match Load(dirs, order[i]) {
          case Some(inst) =>
            instances := instances + [inst];
          case None =>
        }
      }
      list := SortByIndex(instances);
      SortSorts(instances);
      SortedIsListing(dirs, order, instances, list);
    }

    /** `resolve_instance` */
    method ResolveInstance(name: Option<string>, order: seq<string>) returns (r: Option<Instance>)
      requires Valid()
      requires forall d :: d in order <==> d in dirs
      requires forall i, j | 0 <= i < j < |order| :: order[i] != order[j]
      ensures name.Some? ==> r == (if name.value in Names(dirs) then Load(dirs, name.value) else None)
      ensures name.None? ==> (r.Some? <==> |Names(dirs)| == 1) && (r.Some? ==> r.value.dir in Names(dirs) && r == Load(dirs, r.value.dir))
    {
      if name.Some? {
        var loaded := Load(dirs, name.value);
        if loaded.Some? && loaded.value.name == name.value {
          return loaded;
        }
        var instances := ListInstances(order);
        r := Find(instances, name.value);
        FastPathAgrees(dirs, instances, name.value);
        return;
      }
      var instances := ListInstances(order);
      ListingSize(dirs, instances);
      if |instances| == 1 {
        assert instances[0] in instances;
        return Some(instances[0]);
      }
      return None;
    }

    /** The index part of an allocation. */
    method ChooseIndex(instances: seq<Instance>) returns (r: Option<nat>)
      requires Valid() && IsListing(dirs, instances)
      ensures r.None? <==> forall i: nat | i <= MAX_INDEX :: i in UsedIndices(dirs)
      ensures r.Some? ==> IsNextIndex(UsedIndices(dirs), r.value)
    {
      ListingContents(dirs, instances);
      var used := set inst | inst in instances :: inst.index;
      IndicesInRange(dirs);
      var highest := HighestIndex(instances, used);
      if highest >= 0 && highest + 1 <= MAX_INDEX && highest + 1 !in used {
        return Some(highest + 1);
      }
      r := LowestFree(used);
    }

    /** The name part of an allocation. */
    method ChooseName(name: Option<string>, workspace: Option<string>, index: nat, taken: set<string>)
      returns (r: Result<string, AllocateError>)
      requires Valid() && taken == Names(dirs) && IsNextIndex(UsedIndices(dirs), index)
      requires name.Some? ==> IsInstanceName(name.value)
      ensures r.Ok? <==> NameIsFree(dirs, name, workspace)
      ensures r.Ok? ==> r.value !in taken && IsInstanceName(r.value) && IsNewName(dirs, name, workspace, index, r.value)
      ensures r.Err? ==> r.error == NoUniqueName || r.error == AlreadyExists
    {
      var newName: string;
      if name.Some? {
        newName := name.value;
      } else if workspace.Some? {
        var base := SanitizeBasename(workspace.value);
        var unique := UniqueInstanceName(base, taken);
        FirstFreeIsName(dirs, workspace.value);
        if unique.Err? {
          assert unique.error.Exhausted? || !NameIsFree(dirs, name, workspace);
          return Err(NoUniqueName);
        }
        newName := unique.value;
      } else {
        newName := Decimal(index);
        DecimalIsName(index);
        forall i | IsNextIndex(UsedIndices(dirs), i) ensures i == index { NextIndexIsUnique(UsedIndices(dirs), i, index); }
      }
      if newName in taken {
        return Err(AlreadyExists);
      }
      return Ok(newName);
    }

    /** `allocate_instance`, under the directory lock. It fails for want of a slot exactly when
        there are 253 instances, and otherwise gets as far as saving exactly when the name is
        free. */
    method AllocateInstance(name: Option<string>, image: string, workspace: Option<string>, order: seq<string>, outcome: SaveOutcome)
      returns (r: Result<Instance, AllocateError>)
      requires Valid()
      requires name.Some? ==> IsInstanceName(name.value)
      requires forall d :: d in order <==> d in dirs
      requires forall i, j | 0 <= i < j < |order| :: order[i] != order[j]
      modifies this
      ensures Valid()
      ensures r == Err(NoFreeSlot) <==> |Names(old(dirs))| == 253
      ensures r.Ok? || r == Err(SaveFailed) <==> |Names(old(dirs))| < 253 && NameIsFree(old(dirs), name, workspace)
      ensures r.Ok? ==> outcome.Saved?
      ensures r == Err(SaveFailed) ==> !outcome.Saved?
      ensures r.Ok? ==>
        && IsNextIndex(UsedIndices(old(dirs)), r.value.index)
        && IsNewName(old(dirs), name, workspace, r.value.index, r.value.name)
        && r.value.name !in Names(old(dirs))
        && dirs == old(dirs)[r.value.name := Good(r.value.name, r.value.index, image)]
        && Load(dirs, r.value.name) == Some(r.value)
      ensures !r.Ok? ==> Names(dirs) == Names(old(dirs)) && UsedIndices(dirs) == UsedIndices(old(dirs))
    {
      hide NameIsFree, IsNewName, IsNextIndex;
      var instances := ListInstances(order);
      SlotsInUse(dirs);
      var index := ChooseIndex(instances);
      if index.None? {
        return Err(NoFreeSlot);
      }
      ListingContents(dirs, instances);
      var taken := set inst | inst in instances :: inst.name;
      var newName := ChooseName(name, workspace, index.value, taken);
      if newName.Err? {
        return Err(newName.error);
      }
      var n := newName.value;
      if outcome.Saved? {
        NextIndexIsFree(UsedIndices(dirs), index.value);
        ValidAfterSave(dirs, n, index.value, image);
        dirs := dirs[n := Good(n, index.value, image)];
        return Ok(Instance(n, index.value, image, n));
      }
      if outcome.DirectoryOnly? {
        UnreadableChangesNothing(dirs, n);
        dirs := dirs[n := Unreadable];
      }
      return Err(SaveFailed);
    }

    /** `destroy_instance`: removing the directory is best-effort, and may stop half-way. */
    method DestroyInstance(name: string, outcome: SaveOutcome)
      requires Valid() && name in Names(dirs)
      modifies this
      ensures Valid()
      ensures dirs ==
        match outcome
        case Saved => old(dirs) - {name}
        case DirectoryOnly => old(dirs)[name := Unreadable]
        case NothingWritten => old(dirs)
    {
      match outcome {
        case Saved => dirs := dirs - {name};
        case DirectoryOnly => dirs := dirs[name := Unreadable];
        case NothingWritten =>
      }
    }
  }

  lemma SortedIsListing(dirs: Dirs, order: seq<string>, instances: seq<Instance>, list: seq<Instance>)
    requires forall d :: d in order <==> d in dirs
    requires forall k | 0 <= k < |instances| :: Load(dirs, instances[k].dir) == Some(instances[k])
    requires forall j | 0 <= j < |order| && IsGood(dirs, order[j]) :: Load(dirs, order[j]).value in instances
    requires SortedByIndex(list) && DistinctDirs(list) && forall y :: y in list <==> y in instances
    ensures IsListing(dirs, list)
  {
    forall inst ensures inst in list <==> Load(dirs, inst.dir) == Some(inst) {
      if inst in instances {
        var k :| 0 <= k < |instances| && instances[k] == inst;
      }
      if Load(dirs, inst.dir) == Some(inst) {
        assert inst.dir in order;
        var j :| 0 <= j < |order| && order[j] == inst.dir;
      }
    }
  }

  lemma ListingContents(dirs: Dirs, list: seq<Instance>)
    requires ValidDirs(dirs) && IsListing(dirs, list)
    ensures (set inst | inst in list :: inst.index) == UsedIndices(dirs)
    ensures (set inst | inst in list :: inst.name) == Names(dirs)
  {
    forall d | IsGood(dirs, d) ensures Load(dirs, d).value in list { }
    forall inst | inst in list ensures IsGood(dirs, inst.dir) && inst.name == inst.dir && dirs[inst.dir].index == inst.index { }
    forall i | i in UsedIndices(dirs) ensures exists inst :: inst in list && inst.index == i {
      var d :| d in dirs && dirs[d].Good? && dirs[d].index == i;
      assert IsGood(dirs, d) && Load(dirs, d).value in list;
    }
    assert forall d | d in Names(dirs) :: IsGood(dirs, d) && Load(dirs, d).value.name == d;
  }

  lemma ListingSize(dirs: Dirs, list: seq<Instance>)
    requires ValidDirs(dirs) && IsListing(dirs, list)
    ensures |list| == |Names(dirs)|
  {
    ListingContents(dirs, list);
    forall inst | inst in list ensures inst.name == inst.dir { assert IsGood(dirs, inst.dir); }
    NamesOfDistinct(list);
  }

  lemma {:induction false} NamesOfDistinct(list: seq<Instance>)
    requires DistinctDirs(list) && forall inst | inst in list :: inst.name == inst.dir
    ensures |set inst | inst in list :: inst.name| == |list|
  {
    if list == [] {
      assert (set inst | inst in list :: inst.name) == {};
    } else {
      NamesOfDistinct(list[1..]);
      assert list == [list[0]] + list[1..];
      assert list[0] in list && forall inst | inst in list[1..] :: inst in list;
      assert (set inst | inst in list :: inst.name) == (set inst | inst in list[1..] :: inst.name) + {list[0].name};
    }
  }

  /** In every reachable state the instances differ in every derived address. */
  lemma AddressesAreDistinct(dirs: Dirs, d: string, e: string)
    requires ValidDirs(dirs) && d in Names(dirs) && e in Names(dirs) && d != e
    ensures
      var i, j := dirs[d].index, dirs[e].index;
      && i <= MAX_INDEX && j <= MAX_INDEX
      && GuestIp(i) != GuestIp(j) && GuestMac(i) != GuestMac(j)
      && TapDevice(i) != TapDevice(j) && VsockCid(i) != VsockCid(j)
      && 2 <= GuestIp(i).3 <= 254
  {
    assert IsGood(dirs, d) && IsGood(dirs, e);
    AddressesIdentify(dirs[d].index, dirs[e].index);
  }
}
