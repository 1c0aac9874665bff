/**
  From the allocation file to physical devices: `scripts/allocate.py` writes one
  entry per instance group, `scripts/start_instances_from_allocation.py` cuts the
  visible device list into consecutive slices.
 */
module DeviceLauncher {
  import opened Collections
  import opened PartitionPlanner
  import opened InstanceOrchestrator
  import opened WorkflowAllocator

  datatype FileGroup = FileGroup(gpusPerInstance: nat, numInstances: nat, lower: int, upper: int)

  datatype AgentEntry = AgentEntry(agent: string, groups: seq<FileGroup>)

  /** One instance the file asks for. */
  datatype Slot = Slot(agent: string, gpus: nat, lower: int, upper: int, index: int)

  datatype Launched = Launched(slot: Slot, port: int, devices: seq<string>)

  datatype LaunchResult = Started(instances: seq<Launched>) | NotEnoughDevices

  function GroupSlots(agent: string, g: FileGroup, count: nat): seq<Slot> {
    seq(count, i => Slot(agent, g.gpusPerInstance, g.lower, g.upper, i))
  }

  function AgentSlots(agent: string, groups: seq<FileGroup>): seq<Slot> {
    if groups == [] then []
    else AgentSlots(agent, groups[..|groups| - 1]) +
         GroupSlots(agent, groups[|groups| - 1], groups[|groups| - 1].numInstances)
  }

  function AllSlots(file: seq<AgentEntry>): seq<Slot> {
    if file == [] then []
    else AllSlots(file[..|file| - 1]) + AgentSlots(file[|file| - 1].agent, file[|file| - 1].groups)
  }

  function Need(slots: seq<Slot>): nat {
    if slots == [] then 0 else Need(slots[..|slots| - 1]) + slots[|slots| - 1].gpus
  }

  /** All devices handed out, in launch order. */
  function Devices(instances: seq<Launched>): seq<string> {
    if instances == [] then []
    else Devices(instances[..|instances| - 1]) + instances[|instances| - 1].devices
  }

  lemma {:induction false} NeedConcat(a: seq<Slot>, b: seq<Slot>)
    ensures Need(a + b) == Need(a) + Need(b)
  {
    if b == [] {
      assert a + b == a;
    } else {
      assert (a + b)[..|a + b| - 1] == a + b[..|b| - 1];
      NeedConcat(a, b[..|b| - 1]);
    }
  }

  /** `instances` serve exactly `slots`, on consecutive ports, and the pool is
      what they hold followed by what is still available. */
  ghost predicate Serving(slots: seq<Slot>, instances: seq<Launched>, pool: seq<string>,
                          available: seq<string>, basePort: int)
  {
    && |instances| == |slots|
    && (forall i :: 0 <= i < |slots| ==>
          instances[i].slot == slots[i] && instances[i].port == basePort + i &&
          |instances[i].devices| == slots[i].gpus)
    && Devices(instances) + available == pool
    && |Devices(instances)| == Need(slots)
  }

  lemma ServeOneMore(slots: seq<Slot>, instances: seq<Launched>, pool: seq<string>, available: seq<string>,
                     basePort: int, s: Slot)
    requires Serving(slots, instances, pool, available, basePort) && |available| >= s.gpus
    ensures Serving(slots + [s],
                    instances + [Launched(s, basePort + |slots|, available[..s.gpus])],
                    pool, available[s.gpus..], basePort)
  {
    var x := Launched(s, basePort + |slots|, available[..s.gpus]);
    NeedConcat(slots, [s]);
    TakeDevices(instances, x, pool, available);
  }

  lemma {:induction false} TakeDevices(instances: seq<Launched>, x: Launched, pool: seq<string>,
                                       available: seq<string>)
    requires Devices(instances) + available == pool && x.devices <= available
    ensures Devices(instances + [x]) + available[|x.devices|..] == pool
    ensures |Devices(instances + [x])| == |Devices(instances)| + |x.devices|
  {
    assert (instances + [x])[..|instances|] == instances;
    assert available == x.devices + available[|x.devices|..];
  }

  /** Loop over one group's instances. */
  method StartGroup(agent: string, g: FileGroup, pool: seq<string>, basePort: int,
                    ghost slots: seq<Slot>, instances: seq<Launched>, available: seq<string>)
    returns (ok: bool, instances': seq<Launched>, available': seq<string>)
    requires Serving(slots, instances, pool, available, basePort)
    ensures ok ==> Serving(slots + GroupSlots(agent, g, g.numInstances), instances', pool, available', basePort)
    ensures !ok ==> Need(slots + GroupSlots(agent, g, g.numInstances)) > |pool|
  {
    instances', available', ok := instances, available, true;
    assert slots + GroupSlots(agent, g, 0) == slots;
    for index := 0 to g.numInstances
      invariant Serving(slots + GroupSlots(agent, g, index), instances', pool, available', basePort)
    {
      var s := Slot(agent, g.gpusPerInstance, g.lower, g.upper, index);
      ghost var done := slots + GroupSlots(agent, g, index);
      SlotsOneMore(slots, agent, g, index);
      if |available'| < g.gpusPerInstance {
        TooFewDevices(slots, agent, g, index, instances', pool, available', basePort);
        return false, instances', available';
      }
      ServeOneMore(done, instances', pool, available', basePort, s);
      instances' := instances' + [Launched(s, basePort + |instances'|, available'[..g.gpusPerInstance])];
      available' := available'[g.gpusPerInstance..];
    }
  }

  lemma SlotsOneMore(slots: seq<Slot>, agent: string, g: FileGroup, index: nat)
    ensures slots + GroupSlots(agent, g, index + 1) ==
            slots + GroupSlots(agent, g, index) + [Slot(agent, g.gpusPerInstance, g.lower, g.upper, index)]
  {
    assert GroupSlots(agent, g, index + 1) ==
           GroupSlots(agent, g, index) + [Slot(agent, g.gpusPerInstance, g.lower, g.upper, index)];
  }

  /** Running out in the middle of a group means the whole file asks for too much. */
  lemma {:induction false} TooFewDevices(slots: seq<Slot>, agent: string, g: FileGroup, index: nat,
                                         instances: seq<Launched>, pool: seq<string>, available: seq<string>,
                                         basePort: int)
    requires Serving(slots + GroupSlots(agent, g, index), instances, pool, available, basePort)
    requires index < g.numInstances && |available| < g.gpusPerInstance
    ensures Need(slots + GroupSlots(agent, g, g.numInstances)) > |pool|
  {
    var s := Slot(agent, g.gpusPerInstance, g.lower, g.upper, index);
    var done, all := slots + GroupSlots(agent, g, index), GroupSlots(agent, g, g.numInstances);
    NeedConcat(done, [s]);
    assert slots + all == done + [s] + all[index + 1..];
    NeedConcat(done + [s], all[index + 1..]);
  }

  /** Loop over one agent's groups. */
  method StartAgent(agent: string, groups: seq<FileGroup>, pool: seq<string>, basePort: int,
                    ghost slots: seq<Slot>, instances: seq<Launched>, available: seq<string>)
    returns (ok: bool, instances': seq<Launched>, available': seq<string>)
    requires Serving(slots, instances, pool, available, basePort)
    ensures ok ==> Serving(slots + AgentSlots(agent, groups), instances', pool, available', basePort)
    ensures !ok ==> Need(slots + AgentSlots(agent, groups)) > |pool|
  {
    instances', available', ok := instances, available, true;
    assert slots + AgentSlots(agent, groups[..0]) == slots;
    for k := 0 to |groups|
      invariant Serving(slots + AgentSlots(agent, groups[..k]), instances', pool, available', basePort)
    {
      assert groups[..k + 1][..k] == groups[..k];
      ghost var done := slots + AgentSlots(agent, groups[..k]);
      ghost var next := GroupSlots(agent, groups[k], groups[k].numInstances);
      assert slots + AgentSlots(agent, groups[..k + 1]) == done + next;
      ok, instances', available' := StartGroup(agent, groups[k], pool, basePort, done, instances', available');
      if !ok {
        SlotsGrow(agent, groups, k + 1);
        NeedSuffix(slots, AgentSlots(agent, groups[..k + 1]), AgentSlots(agent, groups));
        return;
      }
    }
    assert groups[..|groups|] == groups;
  }

  lemma {:induction false} SlotsGrow(agent: string, groups: seq<FileGroup>, k: nat)
    requires k <= |groups|
    ensures AgentSlots(agent, groups[..k]) <= AgentSlots(agent, groups)
    decreases |groups|
  {
    if k == |groups| {
      assert groups[..k] == groups;
    } else {
      SlotsGrow(agent, groups[..|groups| - 1], k);
      assert groups[..|groups| - 1][..k] == groups[..k];
    }
  }

  lemma {:induction false} FileGrows(file: seq<AgentEntry>, k: nat)
    requires k <= |file|
    ensures AllSlots(file[..k]) <= AllSlots(file)
    decreases |file|
  {
    if k == |file| {
      assert file[..k] == file;
    } else {
      FileGrows(file[..|file| - 1], k);
      assert file[..|file| - 1][..k] == file[..k];
    }
  }

  lemma {:induction false} NeedSuffix(slots: seq<Slot>, a: seq<Slot>, b: seq<Slot>)
    requires a <= b
    ensures Need(slots + a) <= Need(slots + b)
  {
    assert slots + b == slots + a + b[|a|..];
    NeedConcat(slots + a, b[|a|..]);
  }

  /** `_start`: the launch succeeds exactly when the pool covers the file; then
      every requested instance has its own slice and the slices tile the front of the pool. */
  method Start(file: seq<AgentEntry>, pool: seq<string>, basePort: int) returns (r: LaunchResult)
    ensures r.Started? <==> Need(AllSlots(file)) <= |pool|
    ensures r.Started? ==>
              Serving(AllSlots(file), r.instances, pool, pool[Need(AllSlots(file))..], basePort)
  {
    var instances: seq<Launched>, available := [], pool;
    for k := 0 to |file|
      invariant Serving(AllSlots(file[..k]), instances, pool, available, basePort)
    {
      assert file[..k + 1][..k] == file[..k];
      var ok;
      ok, instances, available :=
        StartAgent(file[k].agent, file[k].groups, pool, basePort, AllSlots(file[..k]), instances, available);
      if !ok {
        FileGrows(file, k + 1);
        NeedSuffix([], AllSlots(file[..k + 1]), AllSlots(file));
        assert [] + AllSlots(file[..k + 1]) == AllSlots(file[..k + 1]) && [] + AllSlots(file) == AllSlots(file);
        return NotEnoughDevices;
      }
    }
    assert file[..|file|] == file;
    assert pool[Need(AllSlots(file))..] == available;
    r := Started(instances);
  }

  lemma {:induction false} DeviceAt(instances: seq<Launched>, i: nat, x: nat)
    returns (p: nat)
    requires i < |instances| && x < |instances[i].devices|
    ensures p < |Devices(instances)| && Devices(instances)[p] == instances[i].devices[x]
    ensures p == |Devices(instances[..i])| + x
    decreases |instances|
  {
    var front := instances[..|instances| - 1];
    if i == |front| {
      p := |Devices(front)| + x;
    } else {
      p := DeviceAt(front, i, x);
      assert front[..i] == instances[..i];
    }
  }

  lemma {:induction false} DevicesPrefixLength(instances: seq<Launched>, i: nat, j: nat)
    requires i < j <= |instances|
    ensures |Devices(instances[..i])| + |instances[i].devices| <= |Devices(instances[..j])|
    decreases j
  {
    assert instances[..j][..j - 1] == instances[..j - 1];
    if i < j - 1 {
      DevicesPrefixLength(instances, i, j - 1);
    }
  }

  /** No device is handed out twice, to different instances or within one. */
  lemma NoDeviceSharedTwice(slots: seq<Slot>, instances: seq<Launched>, pool: seq<string>,
                            available: seq<string>, basePort: int, i: nat, x: nat, j: nat, y: nat)
    requires Serving(slots, instances, pool, available, basePort)
    requires Distinct(pool)
    requires i < |instances| && x < |instances[i].devices|
    requires j < |instances| && y < |instances[j].devices|
    requires instances[i].devices[x] == instances[j].devices[y]
    ensures i == j && x == y
  {
    var p := DeviceAt(instances, i, x);
    var q := DeviceAt(instances, j, y);
    assert pool[p] == Devices(instances)[p] && pool[q] == Devices(instances)[q];
    assert p == q;
    if i < j {
      DevicesPrefixLength(instances, i, j);
    } else if j < i {
      DevicesPrefixLength(instances, j, i);
    }
  }

  // ---------------------------------------------------------------- conservation

  /** The groups `scripts/allocate.py` writes for one agent. */
  function FileGroups(instances: seq<InstanceGroup>, gpusPerInstance: nat): (r: seq<FileGroup>)
    requires gpusPerInstance > 0
    requires forall i :: 0 <= i < |instances| ==> instances[i].gpus >= 0
  {
    seq(|instances|, i requires 0 <= i < |instances| =>
      FileGroup(gpusPerInstance, instances[i].gpus / gpusPerInstance, instances[i].lower, instances[i].upper))
  }

  lemma {:induction false} GroupNeed(agent: string, g: FileGroup, count: nat)
    ensures Need(GroupSlots(agent, g, count)) == count * g.gpusPerInstance
  {
    if count > 0 {
      GroupNeed(agent, g, count - 1);
      assert GroupSlots(agent, g, count)[..count - 1] == GroupSlots(agent, g, count - 1);
    }
  }

  ghost predicate WholeInstances(instances: seq<InstanceGroup>, step: nat)
    requires step > 0
  {
    forall i :: 0 <= i < |instances| ==> instances[i].gpus >= 0 && instances[i].gpus % step == 0
  }

  lemma {:induction false} AgentNeed(agent: string, instances: seq<InstanceGroup>, step: nat)
    requires step > 0 && WholeInstances(instances, step)
    ensures Need(AgentSlots(agent, FileGroups(instances, step))) == Sum(GroupGpus(instances))
  {
    if instances != [] {
      var k := |instances| - 1;
      var groups := FileGroups(instances, step);
      AgentNeed(agent, instances[..k], step);
      assert groups[..k] == FileGroups(instances[..k], step);
      assert GroupGpus(instances)[..k] == GroupGpus(instances[..k]);
      SumLast(GroupGpus(instances));
      NeedConcat(AgentSlots(agent, groups[..k]), GroupSlots(agent, groups[k], groups[k].numInstances));
      WrittenGroupNeed(agent, instances[k], step, groups[k]);
    }
  }

  lemma WrittenGroupNeed(agent: string, g: InstanceGroup, step: nat, written: FileGroup)
    requires step > 0 && g.gpus >= 0 && g.gpus % step == 0
    requires written == FileGroup(step, g.gpus / step, g.lower, g.upper)
    ensures Need(GroupSlots(agent, written, written.numInstances)) == g.gpus
  {
    GroupNeed(agent, written, written.numInstances);
  }

  lemma SolvedGroupsAreWhole(settings: Settings, cache: seq<Cell>, minGroup: int, maxGroup: int, gpus: nat)
    requires settings.Valid() && gpus % settings.gpuStep == 0
    ensures var a := SolveAt(settings, cache, minGroup, maxGroup, gpus);
            && WholeInstances(a.instances, settings.gpuStep)
            && Sum(GroupGpus(a.instances)) == if a.throughput > 0.0 then gpus else 0
  {
    SolvePositiveIffFeasible(settings, cache, minGroup, maxGroup, gpus);
    var a := SolveAt(settings, cache, minGroup, maxGroup, gpus);
    if a.throughput > 0.0 {
      TilesAreWhole(settings, a, gpus);
    }
  }

  lemma TilesAreWhole(settings: Settings, a: InstanceAssignment, gpus: nat)
    requires settings.Valid() && Tiles(settings, a, gpus) && gpus % settings.gpuStep == 0
    ensures WholeInstances(a.instances, settings.gpuStep) && Sum(GroupGpus(a.instances)) == gpus
  {
    WholeBudget(gpus, settings.gpuStep);
  }

  lemma WholeBudget(gpus: nat, step: nat)
    requires step > 0 && gpus % step == 0
    ensures gpus / step * step == gpus
  {}

  /** The written groups stand for the solved ones: same ranges in order, and as many instances of
      `step` GPUs as make up each group's GPUs. */
  ghost predicate IsWrittenFor(instances: seq<InstanceGroup>, step: nat, written: seq<FileGroup>) {
    && |written| == |instances|
    && forall i :: 0 <= i < |written| ==>
         && written[i].lower == instances[i].lower && written[i].upper == instances[i].upper
         && written[i].gpusPerInstance == step && written[i].numInstances * step == instances[i].gpus
  }

  lemma WrittenForInstances(instances: seq<InstanceGroup>, step: nat)
    requires step > 0 && WholeInstances(instances, step)
    ensures IsWrittenFor(instances, step, FileGroups(instances, step))
  {
    forall i | 0 <= i < |instances|
      ensures instances[i].gpus / step * step == instances[i].gpus
    {
      WholeBudget(instances[i].gpus, step);
    }
  }

  /** Conservation: an agent given `gpus` (a multiple of the step) launches on exactly
      that many devices when its solved throughput is positive, and on none otherwise. */
  lemma {:induction false} AgentUsesItsShare(agent: string, settings: Settings, cache: seq<Cell>, minGroup: int,
                                             maxGroup: int, gpus: nat)
    requires settings.Valid() && gpus % settings.gpuStep == 0
    ensures var a := SolveAt(settings, cache, minGroup, maxGroup, gpus);
            && WholeInstances(a.instances, settings.gpuStep)
            && IsWrittenFor(a.instances, settings.gpuStep, FileGroups(a.instances, settings.gpuStep))
            && Need(AgentSlots(agent, FileGroups(a.instances, settings.gpuStep)))
                 == if a.throughput > 0.0 then gpus else 0
  {
    SolvedGroupsAreWhole(settings, cache, minGroup, maxGroup, gpus);
    WrittenForInstances(SolveAt(settings, cache, minGroup, maxGroup, gpus).instances, settings.gpuStep);
    AgentNeed(agent, SolveAt(settings, cache, minGroup, maxGroup, gpus).instances, settings.gpuStep);
  }

  /** The entry `scripts/allocate.py` writes for agent `i`. */
  ghost function EntryFor(w: Workflow, shares: seq<int>, i: int): (e: AgentEntry)
    requires w.Valid() && 0 <= i < |w.agents| && IsSplit(w, Sum(shares), w.settings.gpuStep, shares)
  {
    var a := SolveAt(w.settings, w.caches[w.agents[i]], w.minGroup, w.maxGroup, shares[i]);
    SolvedGroupsAreWhole(w.settings, w.caches[w.agents[i]], w.minGroup, w.maxGroup, shares[i]);
    AgentEntry(w.agents[i], FileGroups(a.instances, w.settings.gpuStep))
  }

  /** The allocation file for the first `k` agents of a workflow. */
  ghost function WrittenFile(w: Workflow, shares: seq<int>, k: nat): (file: seq<AgentEntry>)
    requires w.Valid() && k <= |w.agents| && IsSplit(w, Sum(shares), w.settings.gpuStep, shares)
    ensures |file| == k && forall i :: 0 <= i < k ==> file[i] == EntryFor(w, shares, i)
  {
    seq(k, i requires 0 <= i < k => EntryFor(w, shares, i))
  }

  /** Whether agent `i` can serve at all with its share. */
  ghost predicate Served(w: Workflow, shares: seq<int>, i: int)
    requires w.Valid() && 0 <= i < |w.agents| == |shares|
  {
    SolveAt(w.settings, w.caches[w.agents[i]], w.minGroup, w.maxGroup, shares[i]).throughput > 0.0
  }

  ghost predicate AllServed(w: Workflow, shares: seq<int>, k: nat)
    requires w.Valid() && k <= |w.agents| == |shares|
  {
    forall i :: 0 <= i < k ==> Served(w, shares, i)
  }

  lemma {:induction false} FileNeed(w: Workflow, shares: seq<int>, k: nat)
    requires w.Valid() && k <= |w.agents| && IsSplit(w, Sum(shares), w.settings.gpuStep, shares)
    ensures Need(AllSlots(WrittenFile(w, shares, k))) <= Sum(shares[..k])
    ensures Need(AllSlots(WrittenFile(w, shares, k))) == Sum(shares[..k]) <==> AllServed(w, shares, k)
  {
    if k > 0 {
      FileNeed(w, shares, k - 1);
      OneMoreEntry(w, shares, k - 1);
      SumTake(shares, k);
      AllServedStep(w, shares, k - 1);
    }
  }

  lemma SumTake(xs: seq<int>, k: nat)
    requires 0 < k <= |xs|
    ensures Sum(xs[..k]) == Sum(xs[..k - 1]) + xs[k - 1]
  {
    SumLast(xs[..k]);
    assert xs[..k][..k - 1] == xs[..k - 1];
  }

  lemma {:induction false} OneMoreEntry(w: Workflow, shares: seq<int>, k: nat)
    requires w.Valid() && k < |w.agents| && IsSplit(w, Sum(shares), w.settings.gpuStep, shares)
    ensures shares[k] > 0
    ensures Need(AllSlots(WrittenFile(w, shares, k + 1))) ==
            Need(AllSlots(WrittenFile(w, shares, k))) + if Served(w, shares, k) then shares[k] else 0
  {
    var file, front := WrittenFile(w, shares, k + 1), WrittenFile(w, shares, k);
    assert file[..k] == front;
    EntryNeed(w, shares, k);
    NeedConcat(AllSlots(front), AgentSlots(file[k].agent, file[k].groups));
  }

  lemma {:induction false} EntryNeed(w: Workflow, shares: seq<int>, i: nat)
    requires w.Valid() && i < |w.agents| && IsSplit(w, Sum(shares), w.settings.gpuStep, shares)
    ensures shares[i] > 0
    ensures var e := EntryFor(w, shares, i);
            Need(AgentSlots(e.agent, e.groups)) == if Served(w, shares, i) then shares[i] else 0
  {
    AgentUsesItsShare(w.agents[i], w.settings, w.caches[w.agents[i]], w.minGroup, w.maxGroup, shares[i]);
  }

  lemma AllServedStep(w: Workflow, shares: seq<int>, k: nat)
    requires w.Valid() && k < |w.agents| == |shares|
    ensures AllServed(w, shares, k + 1) <==> AllServed(w, shares, k) && Served(w, shares, k)
  {}

  /** From budget to devices: the file of any split of the budget always fits on that many
      devices, and uses every one of them exactly when every agent can be served at all. */
  lemma {:induction false} BudgetReachesDevices(w: Workflow, shares: seq<int>)
    requires w.Valid() && IsSplit(w, Sum(shares), w.settings.gpuStep, shares)
    ensures var need := Need(AllSlots(WrittenFile(w, shares, |w.agents|)));
            && need <= Sum(shares)
            && (need == Sum(shares) <==> AllServed(w, shares, |w.agents|))
  {
    FileNeed(w, shares, |w.agents|);
    assert shares[..|w.agents|] == shares;
  }
}
