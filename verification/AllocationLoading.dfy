/**
  `AsyncController.load_allocation`: pre-register one stub per planned instance.
  The partition computed by the allocator is the partition used for routing.
 */
module AllocationLoading {
  import opened Collections
  import opened InstanceRegistry
  import opened InstanceManager
  import opened DeviceLauncher
  import opened InstanceOrchestrator
  import opened PartitionPlanner
  import opened WorkflowAllocator

  // ---------------------------------------------------------------- instance names

  function Digit(d: int): char
    requires 0 <= d < 10
  {
    "0123456789"[d]
  }

  /** Decimal notation of a natural number, as `str` gives it. */
  function Decimal(n: nat): (s: string)
    ensures s != [] && '-' !in s
  {
    if n < 10 then [Digit(n)] else Decimal(n / 10) + [Digit(n % 10)]
  }

  lemma DigitInjective(a: int, b: int)
    requires 0 <= a < 10 && 0 <= b < 10 && Digit(a) == Digit(b)
    ensures a == b
  {}

  lemma {:induction false} DecimalInjective(a: nat, b: nat)
    requires Decimal(a) == Decimal(b)
    ensures a == b
  {
    var s, t := Decimal(a), Decimal(b);
    assert s[|s| - 1] == Digit(a % 10) && t[|t| - 1] == Digit(b % 10);
    DigitInjective(a % 10, b % 10);
    if a >= 10 && b >= 10 {
      assert s[..|s| - 1] == Decimal(a / 10) && t[..|t| - 1] == Decimal(b / 10);
      DecimalInjective(a / 10, b / 10);
    }
  }

  /** `str` of an integer. */
  function Str(n: int): string {
    if n < 0 then "-" + Decimal(-n) else Decimal(n)
  }

  /** "{agent}-{lower}-{upper}-{index}". */
  function InstanceId(agent: string, lower: int, upper: int, index: int): string {
    agent + "-" + Str(lower) + "-" + Str(upper) + "-" + Str(index)
  }

  /** The text after the last dash is determined by the whole. */
  lemma SplitAtLastDash(x: string, a: string, y: string, b: string)
    requires '-' !in a && '-' !in b && x + "-" + a == y + "-" + b
    ensures x == y && a == b
  {
    var s := x + "-" + a;
    assert s[|x|] == '-' && s[|y|] == '-';
    assert s[..|x|] == x && s[|x| + 1..] == a;
    assert s[..|y|] == y && s[|y| + 1..] == b;
  }

  /** Distinct planned instances have distinct names, whatever dashes agent names contain. */
  lemma InstanceIdInjective(agent: string, lower: nat, upper: nat, index: nat,
                            agent': string, lower': nat, upper': nat, index': nat)
    requires InstanceId(agent, lower, upper, index) == InstanceId(agent', lower', upper', index')
    ensures agent == agent' && lower == lower' && upper == upper' && index == index'
  {
    SplitAtLastDash(agent + "-" + Decimal(lower) + "-" + Decimal(upper), Decimal(index),
                    agent' + "-" + Decimal(lower') + "-" + Decimal(upper'), Decimal(index'));
    SplitAtLastDash(agent + "-" + Decimal(lower), Decimal(upper), agent' + "-" + Decimal(lower'), Decimal(upper'));
    SplitAtLastDash(agent, Decimal(lower), agent', Decimal(lower'));
    DecimalInjective(index, index');
    DecimalInjective(upper, upper');
    DecimalInjective(lower, lower');
  }

  /** With a negative bound two names can coincide. */
  lemma NegativeBoundNamesCollide(agent: string, lower: int, upper: int, index: int)
    requires lower > 0
    ensures InstanceId(agent, -lower, upper, index) == InstanceId(agent + "-", lower, upper, index)
  {
    assert agent + "-" + Str(-lower) == agent + "-" + "-" + Str(lower);
  }

  // ---------------------------------------------------------------- loading, as a function

  /** One planned registration. */
  datatype Planned = Planned(id: string, agent: string, range: Range, gpus: int)

  function GroupStub(agent: string, group: FileGroup, index: int): Planned {
    Planned(InstanceId(agent, group.lower, group.upper, index), agent, (group.lower, group.upper),
            group.gpusPerInstance)
  }

  function GroupStubs(agent: string, group: FileGroup, count: nat): seq<Planned> {
    seq(count, i requires 0 <= i < count => GroupStub(agent, group, i))
  }

  function GroupsStubs(agent: string, groups: seq<FileGroup>): seq<Planned> {
    if groups == [] then []
    else
      var k := |groups| - 1;
      GroupsStubs(agent, groups[..k]) + GroupStubs(agent, groups[k], groups[k].numInstances)
  }

  /** Everything the file plans, in the order of registration. */
  function FileStubs(file: seq<AgentEntry>): seq<Planned> {
    if file == [] then []
    else
      var k := |file| - 1;
      FileStubs(file[..k]) + GroupsStubs(file[k].agent, file[k].groups)
  }

  ghost function LoadStub(g: Registry, s: Planned): Registry {
    Register(g, s.id, s.agent, "127.0.0.1", None, Some(s.range), s.gpus)
  }

  ghost function LoadStubs(g: Registry, stubs: seq<Planned>): Registry {
    if stubs == [] then g else LoadStub(LoadStubs(g, stubs[..|stubs| - 1]), stubs[|stubs| - 1])
  }

  ghost function LoadFile(g: Registry, file: seq<AgentEntry>): Registry {
    LoadStubs(g, FileStubs(file))
  }

  lemma {:induction false} LoadStubsAppend(g: Registry, a: seq<Planned>, b: seq<Planned>)
    ensures LoadStubs(g, a + b) == LoadStubs(LoadStubs(g, a), b)
    decreases |b|
  {
    if b == [] {
      assert a + b == a;
    } else {
      var k := |b| - 1;
      LoadStubsAppend(g, a, b[..k]);
      SplitOffLast(a, b);
      LoadStubsSnoc(g, a + b[..k], b[k], a + b);
      LoadStubsSnoc(LoadStubs(g, a), b[..k], b[k], b);
    }
  }

  lemma SplitOffLast(a: seq<Planned>, b: seq<Planned>)
    requires b != []
    ensures b == b[..|b| - 1] + [b[|b| - 1]] && a + b == (a + b[..|b| - 1]) + [b[|b| - 1]]
  {}

  lemma {:induction false} LoadStubsSnoc(g: Registry, front: seq<Planned>, s: Planned, stubs: seq<Planned>)
    requires stubs == front + [s]
    ensures LoadStubs(g, stubs) == LoadStub(LoadStubs(g, front), s)
  {
    assert stubs[..|front|] == front;
  }

  lemma GroupStubsSnoc(agent: string, group: FileGroup, count: nat)
    ensures GroupStubs(agent, group, count + 1) == GroupStubs(agent, group, count) + [GroupStub(agent, group, count)]
  {}

  method LoadAllocation(m: Manager, file: seq<AgentEntry>)
    modifies m
    ensures m.Value() == LoadFile(old(m.Value()), file)
  {
    ghost var start := m.Value();
    for k := 0 to |file|
      invariant m.Value() == LoadFile(start, file[..k])
    {
      assert file[..k + 1][..k] == file[..k];
      LoadStubsAppend(start, FileStubs(file[..k]), GroupsStubs(file[k].agent, file[k].groups));
      LoadAgent(m, file[k].agent, file[k].groups);
    }
    assert file[..|file|] == file;
  }

  method LoadAgent(m: Manager, agent: string, groups: seq<FileGroup>)
    modifies m
    ensures m.Value() == LoadStubs(old(m.Value()), GroupsStubs(agent, groups))
  {
    ghost var start := m.Value();
    for k := 0 to |groups|
      invariant m.Value() == LoadStubs(start, GroupsStubs(agent, groups[..k]))
    {
      assert groups[..k + 1][..k] == groups[..k];
      LoadStubsAppend(start, GroupsStubs(agent, groups[..k]), GroupStubs(agent, groups[k], groups[k].numInstances));
      LoadOneGroup(m, agent, groups[k]);
    }
    assert groups[..|groups|] == groups;
  }

  method LoadOneGroup(m: Manager, agent: string, group: FileGroup)
    modifies m
    ensures m.Value() == LoadStubs(old(m.Value()), GroupStubs(agent, group, group.numInstances))
  {
    ghost var before := m.Value();
    for index := 0 to group.numInstances
      invariant m.Value() == LoadStubs(before, GroupStubs(agent, group, index))
    {
      GroupStubsSnoc(agent, group, index);
      LoadStubsSnoc(before, GroupStubs(agent, group, index), GroupStub(agent, group, index),
                    GroupStubs(agent, group, index + 1));
      var _ := m.Register(InstanceId(agent, group.lower, group.upper, index), agent, "127.0.0.1", None,
                          Some((group.lower, group.upper)), group.gpusPerInstance);
    }
  }

  // ---------------------------------------------------------------- consistency

  /** Planned instances of the same name have the same agent and range. */
  ghost predicate NamesAgree(stubs: seq<Planned>) {
    forall i, j :: 0 <= i < |stubs| && 0 <= j < |stubs| && stubs[i].id == stubs[j].id ==>
      stubs[i].agent == stubs[j].agent && stubs[i].range == stubs[j].range
  }

  ghost predicate PlannedBy(stubs: seq<Planned>, info: InstanceInfo, id: string) {
    exists k :: 0 <= k < |stubs| && stubs[k].id == id && stubs[k].agent == info.agent &&
                Some(stubs[k].range) == info.range
  }

  lemma {:induction false} AgreeingNamesLoad(stubs: seq<Planned>)
    requires NamesAgree(stubs)
    ensures var g := LoadStubs(FRESH, stubs);
            Valid(g) && forall id :: id in g.instances ==> PlannedBy(stubs, g.instances[id], id)
  {
    if stubs != [] {
      var front, s := stubs[..|stubs| - 1], stubs[|stubs| - 1];
      AgreeingNamesLoad(front);
      var g := LoadStubs(FRESH, front);
      if s.id in g.instances {
        assert PlannedBy(front, g.instances[s.id], s.id);
        var k :| 0 <= k < |front| && front[k].id == s.id && front[k].agent == g.instances[s.id].agent &&
                 Some(front[k].range) == g.instances[s.id].range;
        assert stubs[k] == front[k];
      }
      RegisterValidIffCompatible(g, s.id, s.agent, "127.0.0.1", None, Some(s.range), s.gpus);
      var h := LoadStub(g, s);
      forall id | id in h.instances
        ensures PlannedBy(stubs, h.instances[id], id)
      {
        StubInstances(g, s, id);
        if id == s.id {
          assert stubs[|stubs| - 1] == s;
        } else {
          assert PlannedBy(front, g.instances[id], id);
          PlannedByMore(stubs, g.instances[id], id);
        }
      }
    }
  }

  lemma PlannedByMore(stubs: seq<Planned>, info: InstanceInfo, id: string)
    requires stubs != [] && PlannedBy(stubs[..|stubs| - 1], info, id)
    ensures PlannedBy(stubs, info, id)
  {
    var front := stubs[..|stubs| - 1];
    var k :| 0 <= k < |front| && front[k].id == id && front[k].agent == info.agent &&
             Some(front[k].range) == info.range;
    assert stubs[k] == front[k];
  }

  lemma StubInstances(g: Registry, s: Planned, id: string)
    requires id in LoadStub(g, s).instances
    ensures var info := LoadStub(g, s).instances[id];
            if id == s.id then info.agent == s.agent && info.range == Some(s.range)
            else id in g.instances && g.instances[id] == info
  {}

  /** The indexes list the stub under its agent and under the slot of its range. */
  ghost predicate IsIndexed(g: Registry, s: Planned) {
    && s.agent in g.agentInstances && s.id in g.agentInstances[s.agent]
    && (s.agent, s.range) in g.rangeSlots
    && s.id in ContextList(g, (s.agent, g.rangeSlots[(s.agent, s.range)]))
  }

  /** No registration takes an entry out of an index, whether the registry is consistent or not. */
  lemma LoadStubIndexes(g: Registry, s: Planned, t: Planned)
    requires s == t || IsIndexed(g, s)
    ensures IsIndexed(LoadStub(g, t), s)
  {
    var h := LoadStub(g, t);
    assert h.agentInstances[t.agent] >= {t.id};
    assert (t.agent, t.range) in h.rangeSlots;
  }

  lemma {:induction false} LoadedIsIndexed(stubs: seq<Planned>, i: nat)
    requires i < |stubs|
    ensures IsIndexed(LoadStubs(FRESH, stubs), stubs[i])
  {
    var front, t := stubs[..|stubs| - 1], stubs[|stubs| - 1];
    if i < |front| {
      LoadedIsIndexed(front, i);
      assert front[i] == stubs[i];
    }
    LoadStubIndexes(LoadStubs(FRESH, front), stubs[i], t);
  }

  lemma IndexedIsRight(g: Registry, s: Planned)
    requires Valid(g) && IsIndexed(g, s)
    ensures s.id in g.instances && g.instances[s.id].agent == s.agent && g.instances[s.id].range == Some(s.range)
  {
    var k := (s.agent, g.rangeSlots[(s.agent, s.range)]);
    assert ContextKeyConsistent(g, k) && ListedRightly(g, k, s.id);
  }

  /** Loading any allocation file into a fresh registry leaves all indexes consistent exactly when
      planned instances of the same name have the same agent and range. */
  lemma {:induction false} LoadFileValidIff(file: seq<AgentEntry>)
    ensures Valid(LoadFile(FRESH, file)) <==> NamesAgree(FileStubs(file))
  {
    var stubs := FileStubs(file);
    if NamesAgree(stubs) {
      AgreeingNamesLoad(stubs);
    }
    if Valid(LoadFile(FRESH, file)) {
      forall i | 0 <= i < |stubs|
        ensures var g := LoadFile(FRESH, file);
                && stubs[i].id in g.instances && g.instances[stubs[i].id].agent == stubs[i].agent
                && g.instances[stubs[i].id].range == Some(stubs[i].range)
      {
        LoadedIsIndexed(stubs, i);
        IndexedIsRight(LoadFile(FRESH, file), stubs[i]);
      }
    }
  }

  ghost predicate NonNegative(groups: seq<FileGroup>) {
    forall i :: 0 <= i < |groups| ==> 0 <= groups[i].lower && 0 <= groups[i].upper
  }

  ghost predicate NonNegativeFile(file: seq<AgentEntry>) {
    forall i :: 0 <= i < |file| ==> NonNegative(file[i].groups)
  }

  /** The stub carries the name of its own agent and range. */
  ghost predicate WellNamed(s: Planned) {
    && 0 <= s.range.0 && 0 <= s.range.1
    && exists index: nat :: s.id == InstanceId(s.agent, s.range.0, s.range.1, index)
  }

  lemma {:induction false} GroupsWellNamed(agent: string, groups: seq<FileGroup>)
    requires NonNegative(groups)
    ensures forall s :: s in GroupsStubs(agent, groups) ==> WellNamed(s)
  {
    if groups != [] {
      var k := |groups| - 1;
      GroupsWellNamed(agent, groups[..k]);
      forall s | s in GroupStubs(agent, groups[k], groups[k].numInstances)
        ensures WellNamed(s)
      {
        var i :| 0 <= i < groups[k].numInstances && s == GroupStub(agent, groups[k], i);
        assert s.id == InstanceId(s.agent, s.range.0, s.range.1, i);
      }
    }
  }

  lemma {:induction false} FileWellNamed(file: seq<AgentEntry>)
    requires NonNegativeFile(file)
    ensures forall s :: s in FileStubs(file) ==> WellNamed(s)
  {
    if file != [] {
      var k := |file| - 1;
      FileWellNamed(file[..k]);
      GroupsWellNamed(file[k].agent, file[k].groups);
    }
  }

  /** Files with nonnegative bounds, such as the allocator writes, always load consistently. */
  lemma LoadFileKeeps(file: seq<AgentEntry>)
    requires NonNegativeFile(file)
    ensures Valid(LoadFile(FRESH, file))
  {
    var stubs := FileStubs(file);
    FileWellNamed(file);
    forall i, j | 0 <= i < |stubs| && 0 <= j < |stubs| && stubs[i].id == stubs[j].id
      ensures stubs[i].agent == stubs[j].agent && stubs[i].range == stubs[j].range
    {
      NameDecides(stubs[i], stubs[j]);
    }
    LoadFileValidIff(file);
  }

  lemma NameDecides(s: Planned, t: Planned)
    requires WellNamed(s) && WellNamed(t) && s.id == t.id
    ensures s.agent == t.agent && s.range == t.range
  {
    var i: nat :| s.id == InstanceId(s.agent, s.range.0, s.range.1, i);
    var j: nat :| t.id == InstanceId(t.agent, t.range.0, t.range.1, j);
    InstanceIdInjective(s.agent, s.range.0, s.range.1, i, t.agent, t.range.0, t.range.1, j);
  }

  /** The registration of a stub, as an operation. */
  function StubOp(s: Planned): Op {
    Registering(s.id, s.agent, "127.0.0.1", None, Some(s.range), s.gpus)
  }

  function StubOps(stubs: seq<Planned>): (ops: seq<Op>)
    ensures |ops| == |stubs|
  {
    seq(|stubs|, i requires 0 <= i < |stubs| => StubOp(stubs[i]))
  }

  lemma {:induction false} LoadingIsARun(stubs: seq<Planned>)
    ensures LoadStubs(FRESH, stubs) == ApplyAll(FRESH, StubOps(stubs))
  {
    if stubs != [] {
      var k := |stubs| - 1;
      LoadingIsARun(stubs[..k]);
      assert StubOps(stubs)[..k] == StubOps(stubs[..k]);
    }
  }

  /** Exactly the planned instances are registered, and none of them is ready: nothing is routed to or
      migrated to a process before it announces itself. */
  lemma {:induction false} LoadedStubsAreNotReady(file: seq<AgentEntry>, id: string)
    ensures var g := LoadFile(FRESH, file);
            && (id in g.instances <==> IsPlanned(FileStubs(file), id))
            && (id in g.instances ==> g.instances[id].status == Starting && g.instances[id].host == "127.0.0.1")
  {
    LoadingIsARun(FileStubs(file));
    RunsExplainRegistry(StubOps(FileStubs(file)), id);
    StubsExplained(FileStubs(file), LoadFile(FRESH, file), id);
  }

  ghost predicate IsPlanned(stubs: seq<Planned>, id: string) {
    exists i :: 0 <= i < |stubs| && stubs[i].id == id
  }

  lemma StubsExplained(stubs: seq<Planned>, g: Registry, id: string)
    requires Explains(StubOps(stubs), g, id)
    ensures id in g.instances <==> IsPlanned(stubs, id)
    ensures id in g.instances ==> g.instances[id].status == Starting && g.instances[id].host == "127.0.0.1"
  {
    var ops := StubOps(stubs);
    if id in g.instances {
      var k :| LastRegisters(ops, id, k);
      assert stubs[k].id == id;
    }
    if IsPlanned(stubs, id) {
      assert stubs[..|stubs|] == stubs;
      var k := LastNamed(stubs, id, |stubs|);
      assert ops[k] == StubOp(stubs[k]);
      assert forall j :: k < j < |ops| ==> ops[j].id == stubs[j].id;
      assert LastRegisters(ops, id, k) && LastOn(ops, id, k);
    }
  }

  lemma {:induction false} LastNamed(stubs: seq<Planned>, id: string, n: nat) returns (k: nat)
    requires n <= |stubs| && IsPlanned(stubs[..n], id)
    ensures k < n && stubs[k].id == id && forall j :: k < j < n ==> stubs[j].id != id
  {
    if stubs[n - 1].id == id {
      k := n - 1;
    } else {
      assert stubs[..n] == stubs[..n - 1] + [stubs[n - 1]];
      k := LastNamed(stubs, id, n - 1);
    }
  }

  /** The launched process takes the place of the stub: same name, agent, range and GPUs. */
  ghost predicate TakesPlaceOf(slot: Slot, s: Planned) {
    && InstanceId(slot.agent, slot.lower, slot.upper, slot.index) == s.id
    && slot.agent == s.agent && (slot.lower, slot.upper) == s.range && slot.gpus == s.gpus
  }

  ghost predicate TakePlaces(slots: seq<Slot>, stubs: seq<Planned>) {
    |slots| == |stubs| && forall i :: 0 <= i < |slots| ==> TakesPlaceOf(slots[i], stubs[i])
  }

  /** What the launcher starts from a file is, one by one and in order, what the controller planned
      from it, so that every process finds its own stub when it registers. */
  lemma {:induction false} LaunchedArePlanned(file: seq<AgentEntry>)
    ensures TakePlaces(AllSlots(file), FileStubs(file))
  {
    if file != [] {
      var k := |file| - 1;
      LaunchedArePlanned(file[..k]);
      AgentLaunchIsPlanned(file[k].agent, file[k].groups);
    }
  }

  lemma {:induction false} AgentLaunchIsPlanned(agent: string, groups: seq<FileGroup>)
    ensures TakePlaces(AgentSlots(agent, groups), GroupsStubs(agent, groups))
  {
    if groups != [] {
      AgentLaunchIsPlanned(agent, groups[..|groups| - 1]);
    }
  }

  function NameOf(slot: Slot): string {
    InstanceId(slot.agent, slot.lower, slot.upper, slot.index)
  }

  /** `POST /register` of a launched process: register with its own port, then set ready. */
  function Announce(x: Launched, host: string): seq<Op> {
    [Registering(NameOf(x.slot), x.slot.agent, host, Some(x.port), Some((x.slot.lower, x.slot.upper)), x.slot.gpus),
     SettingReady(NameOf(x.slot))]
  }

  function Flatten(xs: seq<seq<Op>>): seq<Op> {
    if xs == [] then [] else xs[0] + Flatten(xs[1..])
  }

  /** All launched processes announce themselves, in order. */
  function AnnounceAll(launched: seq<Launched>, host: string): seq<Op> {
    Flatten(Announcements(launched, host))
  }

  function Announcements(launched: seq<Launched>, host: string): seq<seq<Op>> {
    seq(|launched|, i requires 0 <= i < |launched| => Announce(launched[i], host))
  }

  /** After loading and announcing, every launched process is ready under its stub's name, on its own
      port and for its own range. */
  lemma AnnouncedAreReady(stubs: seq<Planned>, launched: seq<Launched>, host: string, i: nat)
    requires i < |launched|
    requires forall j :: i < j < |launched| ==> NameOf(launched[j].slot) != NameOf(launched[i].slot)
    ensures var g, x := ApplyAll(FRESH, StubOps(stubs) + AnnounceAll(launched, host)), launched[i];
            && NameOf(x.slot) in g.instances
            && var info := g.instances[NameOf(x.slot)];
               && info.status == Ready && info.port == x.port && info.host == host
               && info.agent == x.slot.agent && info.range == Some((x.slot.lower, x.slot.upper))
  {
    var before, rest := AnnouncedAt(StubOps(stubs), launched, host, i);
    AnnouncedLast(before, launched[i], host, rest);
    EndsReady(before + Announce(launched[i], host) + rest, launched[i], host, |before|);
  }

  ghost predicate NobodyNamed(ops: seq<Op>, id: string) {
    forall op :: op in ops ==> op.id != id
  }

  /** The run splits where process `i` announces itself; nothing later is about its name. */
  lemma AnnouncedAt(stubOps: seq<Op>, launched: seq<Launched>, host: string, i: nat)
    returns (before: seq<Op>, rest: seq<Op>)
    requires i < |launched|
    requires forall j :: i < j < |launched| ==> NameOf(launched[j].slot) != NameOf(launched[i].slot)
    ensures stubOps + AnnounceAll(launched, host) == before + Announce(launched[i], host) + rest
    ensures NobodyNamed(rest, NameOf(launched[i].slot))
  {
    var all := Announcements(launched, host);
    var front := FlattenSplits(all, i);
    before, rest := stubOps + front, Flatten(all[i + 1..]);
    Regroup(stubOps, front, all[i], rest);
    LaterAreOthers(launched, host, i, all[i + 1..]);
    FlattenNobody(all[i + 1..], NameOf(launched[i].slot));
  }

  lemma LaterAreOthers(launched: seq<Launched>, host: string, i: nat, later: seq<seq<Op>>)
    requires i < |launched| && later == Announcements(launched, host)[i + 1..]
    requires forall j :: i < j < |launched| ==> NameOf(launched[j].slot) != NameOf(launched[i].slot)
    ensures forall j :: 0 <= j < |later| ==> NobodyNamed(later[j], NameOf(launched[i].slot))
  {}

  lemma {:induction false} FlattenNobody(xs: seq<seq<Op>>, id: string)
    requires forall j :: 0 <= j < |xs| ==> NobodyNamed(xs[j], id)
    ensures NobodyNamed(Flatten(xs), id)
  {
    if xs != [] {
      FlattenNobody(xs[1..], id);
    }
  }

  lemma {:induction false} EndsReady(ops: seq<Op>, x: Launched, host: string, k: nat)
    requires LastRegisters(ops, NameOf(x.slot), k) && ops[k] == Announce(x, host)[0]
    requires LastOn(ops, NameOf(x.slot), k + 1) && ops[k + 1] == Announce(x, host)[1]
    ensures var g := ApplyAll(FRESH, ops);
            && NameOf(x.slot) in g.instances
            && var info := g.instances[NameOf(x.slot)];
               && info.status == Ready && info.port == x.port && info.host == host
               && info.agent == x.slot.agent && info.range == Some((x.slot.lower, x.slot.upper))
  {
    RunsExplainRegistry(ops, NameOf(x.slot));
  }

  lemma {:induction false} FlattenSplits(xs: seq<seq<Op>>, i: nat) returns (front: seq<Op>)
    requires i < |xs|
    ensures Flatten(xs) == front + xs[i] + Flatten(xs[i + 1..])
  {
    if i == 0 {
      front := [];
    } else {
      var rest := FlattenSplits(xs[1..], i - 1);
      front := xs[0] + rest;
      assert xs[1..][i..] == xs[i + 1..];
      Regroup(xs[0], rest, xs[i], Flatten(xs[i + 1..]));
    }
  }

  lemma Regroup(a: seq<Op>, b: seq<Op>, c: seq<Op>, d: seq<Op>)
    ensures a + (b + c + d) == a + b + c + d
  {}

  lemma AnnouncedLast(before: seq<Op>, x: Launched, host: string, rest: seq<Op>)
    requires NobodyNamed(rest, NameOf(x.slot))
    ensures var ops, k := before + Announce(x, host) + rest, |before|;
            && LastRegisters(ops, NameOf(x.slot), k) && ops[k] == Announce(x, host)[0]
            && LastOn(ops, NameOf(x.slot), k + 1) && ops[k + 1] == Announce(x, host)[1]
  {
    var ops, k := before + Announce(x, host) + rest, |before|;
    assert ops[k] == Announce(x, host)[0] && ops[k + 1] == Announce(x, host)[1];
    forall j | k + 2 <= j < |ops|
      ensures ops[j].id != NameOf(x.slot)
    {
      assert ops[j] == rest[j - k - 2] && rest[j - k - 2] in rest;
    }
  }

  // ---------------------------------------------------------------- slots

  /** The agent's ranges after loading `stubs`, when it had `ranges` before: new ones in order. */
  function Collected(ranges: seq<Range>, stubs: seq<Planned>, agent: string): seq<Range> {
    if stubs == [] then ranges
    else
      var front, s := Collected(ranges, stubs[..|stubs| - 1], agent), stubs[|stubs| - 1];
      if s.agent != agent || s.range in front then front else front + [s.range]
  }

  /** Loading gives the agent exactly these slots, whether or not the rest is consistent. */
  lemma {:induction false} LoadedSlotsAre(g: Registry, stubs: seq<Planned>, agent: string, ranges: seq<Range>)
    requires SlotsConsistent(g) && SlotsAre(g, agent, ranges)
    ensures SlotsConsistent(LoadStubs(g, stubs))
    ensures SlotsAre(LoadStubs(g, stubs), agent, Collected(ranges, stubs, agent))
  {
    if stubs != [] {
      var front, s := stubs[..|stubs| - 1], stubs[|stubs| - 1];
      LoadedSlotsAre(g, front, agent, ranges);
      StubSlots(LoadStubs(g, front), s, agent, Collected(ranges, front, agent));
    }
  }

  lemma StubSlots(g: Registry, s: Planned, agent: string, ranges: seq<Range>)
    requires SlotsConsistent(g) && SlotsAre(g, agent, ranges)
    ensures SlotsConsistent(LoadStub(g, s))
    ensures SlotsAre(LoadStub(g, s), agent,
                     if s.agent != agent || s.range in ranges then ranges else ranges + [s.range])
  {
    RegisterSlotsConsistent(g, s.id, s.agent, "127.0.0.1", None, Some(s.range), s.gpus);
    if s.agent == agent {
      RegisterSlots(g, s.id, agent, "127.0.0.1", None, s.range, s.gpus, ranges);
    } else {
      RegisterOtherAgent(g, s.id, s.agent, "127.0.0.1", None, Some(s.range), s.gpus, agent, ranges);
    }
  }

  lemma {:induction false} CollectedAppend(ranges: seq<Range>, a: seq<Planned>, b: seq<Planned>, agent: string)
    ensures Collected(ranges, a + b, agent) == Collected(Collected(ranges, a, agent), b, agent)
    decreases |b|
  {
    if b == [] {
      assert a + b == a;
    } else {
      var k := |b| - 1;
      CollectedAppend(ranges, a, b[..k], agent);
      assert (a + b)[..|a + b| - 1] == a + b[..k];
    }
  }

  /** Other agents' stubs collect nothing; the agent's own stubs are all of one range. */
  lemma {:induction false} CollectedGroup(ranges: seq<Range>, owner: string, group: FileGroup, count: nat,
                                          agent: string)
    ensures var range := (group.lower, group.upper);
            Collected(ranges, GroupStubs(owner, group, count), agent) ==
            if owner != agent || count == 0 || range in ranges then ranges else ranges + [range]
  {
    if count > 0 {
      CollectedGroup(ranges, owner, group, count - 1, agent);
      GroupStubsSnoc(owner, group, count - 1);
      assert GroupStubs(owner, group, count)[..count - 1] == GroupStubs(owner, group, count - 1);
    }
  }

  lemma {:induction false} CollectedOther(ranges: seq<Range>, owner: string, groups: seq<FileGroup>, agent: string)
    requires owner != agent
    ensures Collected(ranges, GroupsStubs(owner, groups), agent) == ranges
  {
    if groups != [] {
      var k := |groups| - 1;
      CollectedOther(ranges, owner, groups[..k], agent);
      CollectedAppend(ranges, GroupsStubs(owner, groups[..k]),
                      GroupStubs(owner, groups[k], groups[k].numInstances), agent);
      CollectedGroup(ranges, owner, groups[k], groups[k].numInstances, agent);
    }
  }

  // ---------------------------------------------------------------- the partition

  function RangesOf(groups: seq<FileGroup>): (r: seq<Range>) {
    seq(|groups|, i requires 0 <= i < |groups| => (groups[i].lower, groups[i].upper))
  }

  /** Groups that tile [0, top): contiguous, nonempty, each with an instance. */
  ghost predicate Tiling(groups: seq<FileGroup>, top: int) {
    && groups != [] && groups[0].lower == 0 && groups[|groups| - 1].upper == top
    && (forall i :: 0 <= i < |groups| ==> groups[i].lower < groups[i].upper && groups[i].numInstances >= 1)
    && (forall i :: 0 <= i < |groups| - 1 ==> groups[i].upper == groups[i + 1].lower)
  }

  lemma {:induction false} TilingAscends(groups: seq<FileGroup>, top: int, i: nat, j: nat)
    requires Tiling(groups, top) && i < j < |groups|
    ensures 0 <= groups[i].lower && groups[i].upper <= groups[j].lower
    decreases i + j
  {
    if i > 0 {
      TilingAscends(groups, top, i - 1, i);
    }
    if i < j - 1 {
      TilingAscends(groups, top, i, j - 1);
      assert groups[j - 1].upper == groups[j].lower;
    }
  }

  /** No two groups have the same range, and each has an instance. */
  ghost predicate DistinctRanges(groups: seq<FileGroup>) {
    Distinct(RangesOf(groups)) && forall i :: 0 <= i < |groups| ==> groups[i].numInstances >= 1
  }

  lemma TilingIsDistinct(groups: seq<FileGroup>, top: int)
    requires Tiling(groups, top)
    ensures DistinctRanges(groups)
  {
    forall i, j | 0 <= i < j < |groups|
      ensures (groups[i].lower, groups[i].upper) != (groups[j].lower, groups[j].upper)
    {
      TilingAscends(groups, top, i, j);
    }
  }

  lemma {:induction false} CollectedOwn(agent: string, groups: seq<FileGroup>)
    requires DistinctRanges(groups)
    ensures Collected([], GroupsStubs(agent, groups), agent) == RangesOf(groups)
  {
    if groups != [] {
      var k := |groups| - 1;
      var front := groups[..k];
      LastRangeIsNew(groups);
      CollectedOwn(agent, front);
      CollectedAppend([], GroupsStubs(agent, front), GroupStubs(agent, groups[k], groups[k].numInstances), agent);
      CollectedGroup(RangesOf(front), agent, groups[k], groups[k].numInstances, agent);
    }
  }

  lemma LastRangeIsNew(groups: seq<FileGroup>)
    requires groups != [] && DistinctRanges(groups)
    ensures var front, last := groups[..|groups| - 1], groups[|groups| - 1];
            && DistinctRanges(front) && last.numInstances >= 1
            && (last.lower, last.upper) !in RangesOf(front)
            && RangesOf(groups) == RangesOf(front) + [(last.lower, last.upper)]
  {
    var k := |groups| - 1;
    assert RangesOf(groups)[..k] == RangesOf(groups[..k]);
    assert RangesOf(groups)[k] == (groups[k].lower, groups[k].upper);
  }

  ghost predicate DistinctAgents(file: seq<AgentEntry>) {
    forall i, j :: 0 <= i < j < |file| ==> file[i].agent != file[j].agent
  }

  lemma {:induction false} CollectedAbsent(file: seq<AgentEntry>, agent: string)
    requires forall i :: 0 <= i < |file| ==> file[i].agent != agent
    ensures Collected([], FileStubs(file), agent) == []
  {
    if file != [] {
      var k := |file| - 1;
      CollectedAbsent(file[..k], agent);
      CollectedLast(file, agent);
      CollectedOther([], file[k].agent, file[k].groups, agent);
    }
  }

  lemma {:induction false} CollectedFromFile(file: seq<AgentEntry>, i: nat)
    requires DistinctAgents(file) && i < |file| && DistinctRanges(file[i].groups)
    ensures Collected([], FileStubs(file), file[i].agent) == RangesOf(file[i].groups)
    decreases |file|
  {
    var k := |file| - 1;
    CollectedLast(file, file[i].agent);
    if i == k {
      CollectedAbsent(file[..k], file[k].agent);
      CollectedOwn(file[k].agent, file[k].groups);
    } else {
      CollectedFromFile(file[..k], i);
      CollectedOther(RangesOf(file[i].groups), file[k].agent, file[k].groups, file[i].agent);
    }
  }

  lemma {:induction false} CollectedLast(file: seq<AgentEntry>, agent: string)
    requires file != []
    ensures var front, last := file[..|file| - 1], file[|file| - 1];
            Collected([], FileStubs(file), agent) ==
            Collected(Collected([], FileStubs(front), agent), GroupsStubs(last.agent, last.groups), agent)
  {
    var k := |file| - 1;
    CollectedAppend([], FileStubs(file[..k]), GroupsStubs(file[k].agent, file[k].groups), agent);
  }

  /** After loading, an agent's slots are its groups, in file order. */
  lemma LoadedSlots(file: seq<AgentEntry>, i: nat, top: int)
    requires DistinctAgents(file) && i < |file| && Tiling(file[i].groups, top)
    ensures SlotsAre(LoadFile(FRESH, file), file[i].agent, RangesOf(file[i].groups))
  {
    TilingIsDistinct(file[i].groups, top);
    CollectedFromFile(file, i);
    LoadedSlotsAre(FRESH, FileStubs(file), file[i].agent, []);
  }

  /** Exactly one group of a tiling holds each length below its top. */
  lemma {:induction false} TilingCovers(groups: seq<FileGroup>, top: int, length: int, n: nat)
    requires Tiling(groups, top) && 0 < n <= |groups| && 0 <= length < groups[n - 1].upper
    ensures exists i :: 0 <= i < n && Within(length, (groups[i].lower, groups[i].upper))
  {
    if length < groups[n - 1].lower {
      assert groups[n - 2].upper == groups[n - 1].lower;
      TilingCovers(groups, top, length, n - 1);
    }
  }

  /** The partition survives to routing: after loading, `find_context_slot` answers the index
      of the unique group containing the length, and None exactly outside [0, top). */
  lemma {:induction false} PartitionSurvivesToRouting(file: seq<AgentEntry>, i: nat, top: int, length: int,
                                                      r: Option<int>)
    requires NonNegativeFile(file) && DistinctAgents(file) && i < |file| && Tiling(file[i].groups, top)
    requires IsContextSlot(LoadFile(FRESH, file), file[i].agent, length, r)
    ensures Valid(LoadFile(FRESH, file))
    ensures r == None <==> length < 0 || length >= top
    ensures r.Some? ==>
              && 0 <= r.value < |file[i].groups|
              && forall j :: 0 <= j < |file[i].groups| ==>
                   (j == r.value <==> Within(length, (file[i].groups[j].lower, file[i].groups[j].upper)))
  {
    LoadFileKeeps(file);
    LoadedSlots(file, i, top);
    SlotOfTiling(LoadFile(FRESH, file), file[i].agent, file[i].groups, top, length, r);
  }

  lemma SlotOfTiling(g: Registry, agent: string, groups: seq<FileGroup>, top: int, length: int, r: Option<int>)
    requires Tiling(groups, top) && SlotsAre(g, agent, RangesOf(groups)) && IsContextSlot(g, agent, length, r)
    ensures r == None <==> length < 0 || length >= top
    ensures r.Some? ==>
              && 0 <= r.value < |groups|
              && forall j :: 0 <= j < |groups| ==>
                   (j == r.value <==> Within(length, (groups[j].lower, groups[j].upper)))
  {
    forall a, b | 0 <= a < b < |groups|
      ensures 0 <= groups[a].lower && groups[a].upper <= groups[b].lower
    {
      TilingAscends(groups, top, a, b);
    }
    forall j | 0 <= j < |groups|
      ensures Serves(g, agent, length, j) <==> Within(length, (groups[j].lower, groups[j].upper))
    {
      assert g.slotRanges[(agent, j)] == RangesOf(groups)[j];
    }
    if 0 <= length < top {
      TilingCovers(groups, top, length, |groups|);
    } else {
      forall j | 0 <= j < |groups|
        ensures !Within(length, (groups[j].lower, groups[j].upper))
      {
        assert j < |groups| - 1 ==> groups[j].upper <= groups[|groups| - 1].lower;
        assert 0 < j ==> groups[0].upper <= groups[j].lower;
      }
    }
  }

  /** What `solve` returns and `allocate.py` writes is such a tiling. */
  lemma SolvedGroupsTile(settings: Settings, cache: seq<Cell>, minGroup: int, maxGroup: int, gpus: nat)
    requires settings.Valid() && WellFormed(cache, settings.maxIdx)
    requires SolveAt(settings, cache, minGroup, maxGroup, gpus).throughput > 0.0
    ensures var a := SolveAt(settings, cache, minGroup, maxGroup, gpus);
            && (forall i :: 0 <= i < |a.instances| ==> a.instances[i].gpus >= 0)
            && Tiling(FileGroups(a.instances, settings.gpuStep), settings.maxIdx * settings.contextStep)
            && NonNegative(FileGroups(a.instances, settings.gpuStep))
  {
    var n := gpus / settings.gpuStep;
    var a := SolveAt(settings, cache, minGroup, maxGroup, gpus);
    SolvePositiveIffFeasible(settings, cache, minGroup, maxGroup, gpus);
    var k := SolvedGroupCount(settings, cache, minGroup, maxGroup, gpus);
    SchemeTiles(settings, cache, Plan(cache, settings.maxIdx, k), a, gpus);
  }

  lemma SchemeTiles(settings: Settings, cache: seq<Cell>, scheme: seq<Cell>, a: InstanceAssignment, gpus: nat)
    requires settings.Valid() && WellFormed(cache, settings.maxIdx) && Tiles(settings, a, gpus)
    requires IsChain(cache, scheme, settings.maxIdx) && |scheme| <= gpus / settings.gpuStep && scheme != []
    requires a == GreedyAssignment(settings, scheme, gpus / settings.gpuStep)
    ensures forall i :: 0 <= i < |a.instances| ==> a.instances[i].gpus >= 0
    ensures Tiling(FileGroups(a.instances, settings.gpuStep), settings.maxIdx * settings.contextStep)
    ensures NonNegative(FileGroups(a.instances, settings.gpuStep))
  {
    var gs := a.instances;
    var file := FileGroups(gs, settings.gpuStep);
    forall i | 0 <= i < |gs|
      ensures 0 <= file[i].lower < file[i].upper && file[i].numInstances >= 1
    {
      assert scheme[i] in cache;
      ScaledOrder(scheme[i].lo, scheme[i].hi, settings.contextStep);
      WholeQuotient(gs[i].gpus, settings.gpuStep);
    }
    forall i | 0 <= i < |file| - 1
      ensures file[i].upper == file[i + 1].lower
    {
      assert gs[i].upper == gs[i + 1].lower;
    }
  }

  lemma ScaledOrder(lo: int, hi: int, step: int)
    requires 0 <= lo < hi && step > 0
    ensures 0 <= lo * step < hi * step
  {
    assert (hi - lo) * step > 0;
  }

  lemma WholeQuotient(gpus: int, step: nat)
    requires step > 0 && gpus >= step
    ensures gpus / step >= 1
  {}

  // ---------------------------------------------------------------- end to end

  function SolvedFor(w: Workflow, shares: seq<int>, i: int): InstanceAssignment
    requires w.Valid() && 0 <= i < |w.agents| == |shares|
  {
    SolveAt(w.settings, w.caches[w.agents[i]], w.minGroup, w.maxGroup, shares[i])
  }

  lemma {:induction false} WrittenEntry(w: Workflow, shares: seq<int>, i: nat)
    requires w.Valid() && i < |w.agents| && IsSplit(w, Sum(shares), w.settings.gpuStep, shares)
    ensures WholeInstances(SolvedFor(w, shares, i).instances, w.settings.gpuStep)
    ensures WrittenFile(w, shares, |w.agents|)[i] ==
            AgentEntry(w.agents[i], FileGroups(SolvedFor(w, shares, i).instances, w.settings.gpuStep))
  {
    SolvedGroupsAreWhole(w.settings, w.caches[w.agents[i]], w.minGroup, w.maxGroup, shares[i]);
  }

  /** The file written for any split of the budget can be loaded: bounds are nonnegative, agents distinct. */
  lemma {:induction false} WrittenFileLoads(w: Workflow, shares: seq<int>)
    requires w.Valid() && IsSplit(w, Sum(shares), w.settings.gpuStep, shares)
    ensures NonNegativeFile(WrittenFile(w, shares, |w.agents|)) && DistinctAgents(WrittenFile(w, shares, |w.agents|))
  {
    var file := WrittenFile(w, shares, |w.agents|);
    forall i | 0 <= i < |file|
      ensures NonNegative(file[i].groups) && file[i].agent == w.agents[i]
    {
      WrittenEntry(w, shares, i);
      var cache := w.caches[w.agents[i]];
      if SolvedFor(w, shares, i).throughput > 0.0 {
        SolvedGroupsTile(w.settings, cache, w.minGroup, w.maxGroup, shares[i]);
      } else {
        SolvePositiveIffFeasible(w.settings, cache, w.minGroup, w.maxGroup, shares[i]);
      }
    }
  }

  /** From allocator to router: for every split of the budget and every agent it serves, the loaded
      registry routes a length to the group the solver planned for it, and refuses exactly the
      lengths outside [0, maxIdx * step). */
  lemma {:induction false} AllocatedPartitionIsRouted(w: Workflow, shares: seq<int>, file: seq<AgentEntry>, i: nat,
                                                      length: int, r: Option<int>)
    requires w.Valid() && IsSplit(w, Sum(shares), w.settings.gpuStep, shares)
    requires file == WrittenFile(w, shares, |w.agents|)
    requires i < |w.agents| && Served(w, shares, i)
    requires IsContextSlot(LoadFile(FRESH, file), w.agents[i], length, r)
    ensures r.None? <==> length < 0 || length >= w.settings.maxIdx * w.settings.contextStep
    ensures r.Some? ==>
              var groups := SolvedFor(w, shares, i).instances;
              && 0 <= r.value < |groups|
              && forall j :: 0 <= j < |groups| ==>
                   (j == r.value <==> groups[j].lower <= length < groups[j].upper)
  {
    WrittenFileLoads(w, shares);
    WrittenEntry(w, shares, i);
    SolvedGroupsTile(w.settings, w.caches[w.agents[i]], w.minGroup, w.maxGroup, shares[i]);
    var groups, written := SolvedFor(w, shares, i).instances, file[i].groups;
    PartitionSurvivesToRouting(file, i, w.settings.maxIdx * w.settings.contextStep, length, r);
    forall j | 0 <= j < |groups|
      ensures written[j].lower == groups[j].lower && written[j].upper == groups[j].upper
    {
    }
  }
}
