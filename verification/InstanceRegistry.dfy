/**
  `InstanceManager` as a value: the five dictionaries, the operations on them and
  what every operation keeps.  The class in InstanceManager.dfy refines this.
 */
module InstanceRegistry {
  import opened Collections

  type Range = (int, int)

  datatype Status = Starting | Ready | Unavailable

  datatype InstanceInfo = InstanceInfo(
    id: string, agent: string, host: string, port: int, range: Option<Range>, gpus: int, status: Status)

  datatype Registry = Registry(
    instances: map<string, InstanceInfo>,
    agentInstances: map<string, set<string>>,
    contextInstances: map<(string, int), seq<string>>,
    rangeSlots: map<(string, Range), int>,
    slotRanges: map<(string, int), Range>,
    nextPort: int)

  const FRESH := Registry(map[], map[], map[], map[], map[], 8000)

  predicate Within(length: int, r: Range) {
    r.0 <= length < r.1
  }

  // ---------------------------------------------------------------- consistency

  /** Slots of an agent are 0 .. m - 1, in bijection with its ranges. */
  ghost predicate SlotsConsistent(g: Registry) {
    && (forall a, s :: (a, s) in g.slotRanges ==>
          s >= 0 && (a, g.slotRanges[(a, s)]) in g.rangeSlots && g.rangeSlots[(a, g.slotRanges[(a, s)])] == s)
    && (forall a, r :: (a, r) in g.rangeSlots ==>
          (a, g.rangeSlots[(a, r)]) in g.slotRanges && g.slotRanges[(a, g.rangeSlots[(a, r)])] == r)
    && (forall a, s, t :: (a, s) in g.slotRanges && 0 <= t < s ==> (a, t) in g.slotRanges)
  }

  /** The agent index lists exactly the registered instances of each agent. */
  ghost predicate AgentsConsistent(g: Registry) {
    && (forall id :: id in g.instances ==> g.instances[id].id == id)
    && (forall a, id :: a in g.agentInstances && id in g.agentInstances[a] ==>
          id in g.instances && g.instances[id].agent == a)
    && (forall id :: id in g.instances ==>
          g.instances[id].agent in g.agentInstances && id in g.agentInstances[g.instances[id].agent])
  }

  /** Key `k` of the context index, if present, is an existing slot whose list names
      registered instances of that agent and exactly that range, each once. */
  ghost predicate ContextKeyConsistent(g: Registry, k: (string, int)) {
    k in g.contextInstances ==>
      && k in g.slotRanges
      && Distinct(g.contextInstances[k])
      && (forall id :: id in g.contextInstances[k] ==> ListedRightly(g, k, id))
  }

  ghost predicate ListedRightly(g: Registry, k: (string, int), id: string) {
    id in g.instances && k in g.slotRanges &&
    g.instances[id].agent == k.0 && g.instances[id].range == Some(g.slotRanges[k])
  }

  /** An instance with a range is listed under the slot of that range. */
  ghost predicate Listed(g: Registry, id: string)
    requires id in g.instances
  {
    var info := g.instances[id];
    info.range.Some? ==>
      && (info.agent, info.range.value) in g.rangeSlots
      && var k := (info.agent, g.rangeSlots[(info.agent, info.range.value)]);
         k in g.contextInstances && id in g.contextInstances[k]
  }

  ghost predicate ContextsConsistent(g: Registry) {
    && (forall k :: k in g.contextInstances ==> ContextKeyConsistent(g, k))
    && (forall id :: id in g.instances ==> Listed(g, id))
  }

  ghost predicate Valid(g: Registry) {
    SlotsConsistent(g) && AgentsConsistent(g) && ContextsConsistent(g)
  }

  // ---------------------------------------------------------------- operations

  ghost function SlotKeys(g: Registry, agent: string): set<(string, int)> {
    set k | k in g.slotRanges && k.0 == agent
  }

  /** `max(existing_slots, default=-1) + 1`. */
  ghost predicate IsNextSlot(keys: set<(string, int)>, next: int) {
    if keys == {} then next == 0
    else (exists k :: k in keys && k.1 == next - 1) && forall k :: k in keys ==> k.1 < next
  }

  ghost function NextSlot(g: Registry, agent: string): (next: int)
    ensures IsNextSlot(SlotKeys(g, agent), next)
  {
    NextSlotExists(SlotKeys(g, agent));
    var next :| IsNextSlot(SlotKeys(g, agent), next);
    next
  }

  lemma {:induction false} NextSlotExists(keys: set<(string, int)>)
    ensures exists next :: IsNextSlot(keys, next)
    decreases |keys|
  {
    if keys == {} {
      assert IsNextSlot(keys, 0);
    } else {
      var x :| x in keys;
      var rest := keys - {x};
      NextSlotExists(rest);
      var n :| IsNextSlot(rest, n);
      var next := if rest == {} || n <= x.1 then x.1 + 1 else n;
      forall k | k in keys
        ensures k.1 < next
      {
        assert k == x || k in rest;
      }
      assert IsNextSlot(keys, next);
    }
  }

  /** `_get_or_create_slot`. */
  ghost function WithSlot(g: Registry, agent: string, range: Range): Registry {
    if (agent, range) in g.rangeSlots then g
    else
      var slot := NextSlot(g, agent);
      g.(rangeSlots := g.rangeSlots[(agent, range) := slot],
         slotRanges := g.slotRanges[(agent, slot) := range])
  }

  function Indexed(g: Registry, info: InstanceInfo): Registry {
    g.(instances := g.instances[info.id := info],
       agentInstances := g.agentInstances[info.agent :=
         (if info.agent in g.agentInstances then g.agentInstances[info.agent] else {}) + {info.id}])
  }

  /** Append to the context list of `k` unless already there. */
  function ListedUnder(g: Registry, k: (string, int), id: string): Registry {
    var ids := if k in g.contextInstances then g.contextInstances[k] else [];
    g.(contextInstances := g.contextInstances[k := if id in ids then ids else ids + [id]])
  }

  ghost function Register(g: Registry, id: string, agent: string, host: string, port: Option<int>,
                          range: Option<Range>, gpus: int): Registry
  {
    RegisterInfo(PortTaken(g, port), NewInfo(g, id, agent, host, port, range, gpus))
  }

  /** A port that is not given is taken from the counter. */
  function PortTaken(g: Registry, port: Option<int>): Registry {
    if port.Some? then g else g.(nextPort := g.nextPort + 1)
  }

  function NewInfo(g: Registry, id: string, agent: string, host: string, port: Option<int>,
                   range: Option<Range>, gpus: int): InstanceInfo
  {
    InstanceInfo(id, agent, host, if port.Some? then port.value else g.nextPort, range, gpus, Starting)
  }

  /** A registration whose port has been settled. */
  ghost function RegisterInfo(g: Registry, info: InstanceInfo): Registry {
    var g' := Indexed(g, info);
    if info.range.None? then g' else ListBySlot(WithSlot(g', info.agent, info.range.value), info)
  }

  function ListBySlot(g: Registry, info: InstanceInfo): Registry
    requires info.range.Some? && (info.agent, info.range.value) in g.rangeSlots
  {
    ListedUnder(g, (info.agent, g.rangeSlots[(info.agent, info.range.value)]), info.id)
  }

  function SetStatus(g: Registry, id: string, status: Status): Registry {
    if id in g.instances then g.(instances := g.instances[id := g.instances[id].(status := status)]) else g
  }

  /** `list.remove`: drop the first occurrence. */
  function Without(ids: seq<string>, id: string): (r: seq<string>)
    ensures forall x :: x in r ==> x in ids
    ensures forall x :: x in ids && x != id ==> x in r
    ensures Distinct(ids) ==> Distinct(r) && id !in r
  {
    if ids == [] then []
    else if ids[0] == id then ids[1..]
    else
      var rest := Without(ids[1..], id);
      assert ids == [ids[0]] + ids[1..];
      assert Distinct(ids) ==> ids[0] !in ids[1..];
      [ids[0]] + rest
  }

  function Remove(g: Registry, id: string): Registry {
    if id !in g.instances then g
    else
      var info := g.instances[id];
      var g1 := g.(instances := g.instances - {id});
      var g2 := if info.agent in g1.agentInstances
                then g1.(agentInstances := g1.agentInstances[info.agent := g1.agentInstances[info.agent] - {id}])
                else g1;
      if info.range.None? || (info.agent, info.range.value) !in g2.rangeSlots then g2
      else
        var k := (info.agent, g2.rangeSlots[(info.agent, info.range.value)]);
        if k !in g2.contextInstances then g2
        else g2.(contextInstances := g2.contextInstances[k := Without(g2.contextInstances[k], id)])
  }

  // ---------------------------------------------------------------- what they keep

  /** The exact condition under which a registration keeps the indexes consistent: the id is
      new, or it keeps its agent and does not move away from a range it is listed under. */
  predicate Compatible(g: Registry, id: string, agent: string, range: Option<Range>) {
    id in g.instances ==>
      g.instances[id].agent == agent && (g.instances[id].range == None || g.instances[id].range == range)
  }

  lemma WithSlotConsistent(g: Registry, agent: string, range: Range)
    requires SlotsConsistent(g)
    ensures var g' := WithSlot(g, agent, range);
            && SlotsConsistent(g') && (agent, range) in g'.rangeSlots
            && (forall k :: k in g.slotRanges ==> k in g'.slotRanges && g'.slotRanges[k] == g.slotRanges[k])
            && (forall k :: k in g.rangeSlots ==> k in g'.rangeSlots && g'.rangeSlots[k] == g.rangeSlots[k])
  {
    SlotsBelowNext(g, agent);
  }

  lemma SlotsBelowNext(g: Registry, agent: string)
    requires SlotsConsistent(g)
    ensures NextSlot(g, agent) >= 0
    ensures forall s :: (agent, s) in g.slotRanges <==> 0 <= s < NextSlot(g, agent)
  {
    var keys, next := SlotKeys(g, agent), NextSlot(g, agent);
    assert forall s :: (agent, s) in g.slotRanges ==> (agent, s) in keys;
    if keys != {} {
      var k :| k in keys && k.1 == next - 1;
      assert k == (agent, next - 1);
    }
  }

  /** Every context list survives when the listed instances keep agent and range. */
  lemma ContextKeysSurvive(g: Registry, h: Registry)
    requires forall k :: k in g.contextInstances ==> ContextKeyConsistent(g, k)
    requires h.contextInstances == g.contextInstances && h.slotRanges == g.slotRanges
    requires forall k, id :: k in g.contextInstances && id in g.contextInstances[k] && ListedRightly(g, k, id) ==>
               ListedRightly(h, k, id)
    ensures forall k :: k in h.contextInstances ==> ContextKeyConsistent(h, k)
  {
    forall k | k in h.contextInstances
      ensures ContextKeyConsistent(h, k)
    {
      assert ContextKeyConsistent(g, k);
    }
  }

  lemma RegisterCompatibleIsValid(g: Registry, info: InstanceInfo)
    requires Valid(g) && Compatible(g, info.id, info.agent, info.range)
    ensures Valid(RegisterInfo(g, info))
  {
    IndexingKeeps(g, info);
    if info.range.Some? {
      ListNewInstance(Indexed(g, info), info);
    }
  }

  /** The first half of a registration: everything but the new instance's own listing. */
  lemma IndexingKeeps(g: Registry, info: InstanceInfo)
    requires Valid(g) && Compatible(g, info.id, info.agent, info.range)
    ensures var g' := Indexed(g, info);
            && SlotsConsistent(g') && AgentsConsistent(g')
            && (forall k :: k in g'.contextInstances ==> ContextKeyConsistent(g', k))
            && (forall x :: x in g'.instances && x != info.id ==> Listed(g', x))
  {
    var g' := Indexed(g, info);
    ContextKeysSurvive(g, g');
    forall x | x in g'.instances && x != info.id
      ensures Listed(g', x)
    {
      assert Listed(g, x);
    }
  }

  /** The second half of a registration: find the slot and list the instance there. */
  lemma ListNewInstance(g: Registry, info: InstanceInfo)
    requires SlotsConsistent(g) && AgentsConsistent(g)
    requires forall k :: k in g.contextInstances ==> ContextKeyConsistent(g, k)
    requires forall x :: x in g.instances && x != info.id ==> Listed(g, x)
    requires info.id in g.instances && g.instances[info.id] == info && info.range.Some?
    ensures Valid(ListBySlot(WithSlot(g, info.agent, info.range.value), info))
  {
    var g' := WithSlot(g, info.agent, info.range.value);
    WithSlotConsistent(g, info.agent, info.range.value);
    forall k | k in g'.contextInstances
      ensures ContextKeyConsistent(g', k)
    {
      NewSlotKeepsKey(g, g', k);
    }
    forall x | x in g'.instances && x != info.id
      ensures Listed(g', x)
    {
      NewSlotKeepsListed(g, g', x);
    }
    ListUnderSlot(g', info);
  }

  lemma NewSlotKeepsKey(g: Registry, g': Registry, k: (string, int))
    requires k in g.contextInstances && ContextKeyConsistent(g, k) && SlotsExtend(g, g')
    requires g'.instances == g.instances && g'.contextInstances == g.contextInstances
    ensures ContextKeyConsistent(g', k)
  {
    forall x | x in g'.contextInstances[k]
      ensures ListedRightly(g', k, x)
    {
      assert ListedRightly(g, k, x);
    }
  }

  lemma NewSlotKeepsListed(g: Registry, g': Registry, x: string)
    requires x in g.instances && Listed(g, x) && SlotsExtend(g, g')
    requires g'.instances == g.instances && g'.contextInstances == g.contextInstances
    ensures Listed(g', x)
  {}

  /** Listing an instance under the slot of its own range. */
  lemma ListUnderSlot(g: Registry, info: InstanceInfo)
    requires SlotsConsistent(g) && AgentsConsistent(g)
    requires forall k :: k in g.contextInstances ==> ContextKeyConsistent(g, k)
    requires forall x :: x in g.instances && x != info.id ==> Listed(g, x)
    requires info.id in g.instances && g.instances[info.id] == info && info.range.Some?
    requires (info.agent, info.range.value) in g.rangeSlots
    ensures Valid(ListBySlot(g, info))
  {
    var key := (info.agent, g.rangeSlots[(info.agent, info.range.value)]);
    var h := ListBySlot(g, info);
    assert ListedRightly(h, key, info.id);
    forall k | k in h.contextInstances
      ensures ContextKeyConsistent(h, k)
    {
      ListedKeyConsistent(g, info, k);
    }
    forall x | x in h.instances
      ensures Listed(h, x)
    {
      if x != info.id {
        assert Listed(g, x);
      }
    }
  }

  lemma ListedKeyConsistent(g: Registry, info: InstanceInfo, k: (string, int))
    requires SlotsConsistent(g) && ContextKeyConsistent(g, k)
    requires info.id in g.instances && g.instances[info.id] == info && info.range.Some?
    requires (info.agent, info.range.value) in g.rangeSlots
    ensures ContextKeyConsistent(ListBySlot(g, info), k)
  {
    var key, h := (info.agent, g.rangeSlots[(info.agent, info.range.value)]), ListBySlot(g, info);
    if k in h.contextInstances {
      forall x | x in h.contextInstances[k]
        ensures ListedRightly(h, k, x)
      {
        if x != info.id || k != key {
          assert ListedRightly(g, k, x);
        }
      }
    }
  }

  /** Re-registering under another agent, or away from a listed range, leaves a stale entry. */
  lemma IncompatibleBreaksIndexes(g: Registry, info: InstanceInfo)
    requires Valid(g) && !Compatible(g, info.id, info.agent, info.range)
    ensures !Valid(RegisterInfo(g, info))
  {
    if g.instances[info.id].agent != info.agent {
      StaleAgentEntry(g, info);
    } else {
      StaleContextEntry(g, info);
    }
  }

  lemma StaleAgentEntry(g: Registry, info: InstanceInfo)
    requires AgentsConsistent(g) && info.id in g.instances && g.instances[info.id].agent != info.agent
    ensures !AgentsConsistent(RegisterInfo(g, info))
  {
    var h, agent := RegisterInfo(g, info), g.instances[info.id].agent;
    assert agent in h.agentInstances && info.id in h.agentInstances[agent];
    assert h.instances[info.id] == info;
  }

  lemma StaleContextEntry(g: Registry, info: InstanceInfo)
    requires SlotsConsistent(g) && info.id in g.instances && Listed(g, info.id)
    requires g.instances[info.id].range.Some? && g.instances[info.id].range != info.range
    requires g.instances[info.id].agent == info.agent
    ensures !ContextsConsistent(RegisterInfo(g, info))
  {
    var range := g.instances[info.id].range.value;
    var h, k := RegisterInfo(g, info), (info.agent, g.rangeSlots[(info.agent, range)]);
    RegisterInfoExtendsSlots(g, info);
    assert k in h.slotRanges && h.slotRanges[k] == range;
    assert k in h.contextInstances && info.id in h.contextInstances[k];
    assert h.instances[info.id] == info;
    assert !ListedRightly(h, k, info.id);
    assert !ContextKeyConsistent(h, k);
  }

  lemma RegisterInfoExtendsSlots(g: Registry, info: InstanceInfo)
    requires SlotsConsistent(g)
    ensures SlotsExtend(g, RegisterInfo(g, info))
  {
    if info.range.Some? {
      WithSlotConsistent(Indexed(g, info), info.agent, info.range.value);
    }
  }

  /** A registration keeps the five indexes consistent exactly when it is compatible. */
  lemma RegisterValidIffCompatible(g: Registry, id: string, agent: string, host: string, port: Option<int>,
                                   range: Option<Range>, gpus: int)
    requires Valid(g)
    ensures Valid(Register(g, id, agent, host, port, range, gpus)) <==> Compatible(g, id, agent, range)
  {
    PortIsIrrelevant(g, port);
    RegisterInfoValidIffCompatible(PortTaken(g, port), NewInfo(g, id, agent, host, port, range, gpus));
  }

  lemma RegisterInfoValidIffCompatible(g: Registry, info: InstanceInfo)
    requires Valid(g)
    ensures Valid(RegisterInfo(g, info)) <==> Compatible(g, info.id, info.agent, info.range)
  {
    if Compatible(g, info.id, info.agent, info.range) {
      RegisterCompatibleIsValid(g, info);
    } else {
      IncompatibleBreaksIndexes(g, info);
    }
  }

  lemma PortIsIrrelevant(g: Registry, port: Option<int>)
    requires Valid(g)
    ensures Valid(PortTaken(g, port))
  {
    var g' := PortTaken(g, port);
    ContextKeysSurvive(g, g');
    forall x | x in g'.instances
      ensures Listed(g', x)
    {
      assert Listed(g, x);
    }
  }

  lemma SetStatusValid(g: Registry, id: string, status: Status)
    requires Valid(g)
    ensures Valid(SetStatus(g, id, status))
  {
    var h := SetStatus(g, id, status);
    ContextKeysSurvive(g, h);
    forall x | x in h.instances
      ensures Listed(h, x)
    {
      assert Listed(g, x);
    }
  }

  lemma RemoveValid(g: Registry, id: string)
    requires Valid(g)
    ensures Valid(Remove(g, id))
    ensures id !in Remove(g, id).instances
  {
    if id in g.instances {
      var h := Remove(g, id);
      assert Listed(g, id);
      forall k | k in h.contextInstances
        ensures ContextKeyConsistent(h, k)
      {
        RemoveFromOneList(g, id, k);
      }
      forall x | x in h.instances
        ensures Listed(h, x)
      {
        assert Listed(g, x);
      }
    }
  }

  lemma RemoveFromOneList(g: Registry, id: string, k: (string, int))
    requires Valid(g) && id in g.instances && k in g.contextInstances
    ensures ContextKeyConsistent(Remove(g, id), k)
  {
    var h, info := Remove(g, id), g.instances[id];
    assert ContextKeyConsistent(g, k);
    if id in g.contextInstances[k] {
      assert ListedRightly(g, k, id);
      var a, slot := k.0, k.1;
      assert (a, slot) in g.slotRanges && g.rangeSlots[(a, g.slotRanges[(a, slot)])] == slot;
      assert k == (info.agent, g.rangeSlots[(info.agent, info.range.value)]);
    }
    assert id !in h.contextInstances[k];
    forall x | x in h.contextInstances[k]
      ensures ListedRightly(h, k, x)
    {
      assert ListedRightly(g, k, x);
    }
  }

  // ---------------------------------------------------------------- whole runs

  datatype Op =
    | Registering(id: string, agent: string, host: string, port: Option<int>, range: Option<Range>, gpus: int)
    | SettingReady(id: string)
    | MarkingUnavailable(id: string)
    | Removing(id: string)

  ghost function Apply(g: Registry, op: Op): Registry {
    match op
    case Registering(id, agent, host, port, range, gpus) => Register(g, id, agent, host, port, range, gpus)
    case SettingReady(id) => SetStatus(g, id, Ready)
    case MarkingUnavailable(id) => SetStatus(g, id, Unavailable)
    case Removing(id) => Remove(g, id)
  }

  ghost function ApplyAll(g: Registry, ops: seq<Op>): Registry {
    if ops == [] then g else Apply(ApplyAll(g, ops[..|ops| - 1]), ops[|ops| - 1])
  }

  /** Ids are only re-registered with the same agent and range. */
  ghost predicate AllCompatible(g: Registry, ops: seq<Op>) {
    ops == [] ||
    (AllCompatible(g, ops[..|ops| - 1]) &&
     var op := ops[|ops| - 1];
     op.Registering? ==> Compatible(ApplyAll(g, ops[..|ops| - 1]), op.id, op.agent, op.range))
  }

  /** Slots are stable: whatever `g` assigned, `h` still assigns. */
  ghost predicate SlotsExtend(g: Registry, h: Registry) {
    && (forall k :: k in g.slotRanges ==> k in h.slotRanges && h.slotRanges[k] == g.slotRanges[k])
    && (forall k :: k in g.rangeSlots ==> k in h.rangeSlots && h.rangeSlots[k] == g.rangeSlots[k])
  }

  lemma OpKeepsValid(g: Registry, op: Op)
    requires Valid(g)
    requires op.Registering? ==> Compatible(g, op.id, op.agent, op.range)
    ensures Valid(Apply(g, op)) && SlotsExtend(g, Apply(g, op))
  {
    match op
    case Registering(id, agent, host, port, range, gpus) =>
      RegisterValidIffCompatible(g, id, agent, host, port, range, gpus);
      RegisterExtendsSlots(g, id, agent, host, port, range, gpus);
    case SettingReady(id) => SetStatusValid(g, id, Ready);
    case MarkingUnavailable(id) => SetStatusValid(g, id, Unavailable);
    case Removing(id) => RemoveValid(g, id);
  }

  lemma RegisterExtendsSlots(g: Registry, id: string, agent: string, host: string, port: Option<int>,
                             range: Option<Range>, gpus: int)
    requires SlotsConsistent(g)
    ensures SlotsExtend(g, Register(g, id, agent, host, port, range, gpus))
  {
    RegisterInfoExtendsSlots(PortTaken(g, port), NewInfo(g, id, agent, host, port, range, gpus));
  }

  /** A registration keeps the slots consistent, compatible or not. */
  lemma RegisterSlotsConsistent(g: Registry, id: string, agent: string, host: string, port: Option<int>,
                                range: Option<Range>, gpus: int)
    requires SlotsConsistent(g)
    ensures SlotsConsistent(Register(g, id, agent, host, port, range, gpus))
  {
    if range.Some? {
      WithSlotConsistent(Indexed(PortTaken(g, port), NewInfo(g, id, agent, host, port, range, gpus)), agent,
                         range.value);
    }
  }

  /** Every run of register, set_ready, mark_unavailable and remove keeps all five
      indexes consistent, and no slot ever changes its range. */
  lemma {:induction false} RunsStayConsistent(g: Registry, ops: seq<Op>)
    requires Valid(g) && AllCompatible(g, ops)
    ensures Valid(ApplyAll(g, ops)) && SlotsExtend(g, ApplyAll(g, ops))
  {
    if ops != [] {
      RunsStayConsistent(g, ops[..|ops| - 1]);
      OpKeepsValid(ApplyAll(g, ops[..|ops| - 1]), ops[|ops| - 1]);
    }
  }

  // ---------------------------------------------------------------- what a run leaves behind

  /** Registrations that left the port open. */
  function Portless(ops: seq<Op>): nat {
    if ops == [] then 0
    else
      Portless(ops[..|ops| - 1]) + (if ops[|ops| - 1].Registering? && ops[|ops| - 1].port.None? then 1 else 0)
  }

  /** Operation `k` is the last one on `id`. */
  ghost predicate LastOn(ops: seq<Op>, id: string, k: int) {
    0 <= k < |ops| && ops[k].id == id && forall j :: k < j < |ops| ==> ops[j].id != id
  }

  /** Operation `k` registers `id`, and later ones on it only change its status. */
  ghost predicate LastRegisters(ops: seq<Op>, id: string, k: int) {
    && 0 <= k < |ops| && ops[k].Registering? && ops[k].id == id
    && forall j :: k < j < |ops| && ops[j].id == id ==> ops[j].SettingReady? || ops[j].MarkingUnavailable?
  }

  /** The instance is as registered: everything but its status. */
  ghost predicate AsRegistered(info: InstanceInfo, op: Op, counter: int)
    requires op.Registering?
  {
    && info.id == op.id && info.agent == op.agent && info.host == op.host && info.range == op.range
    && info.gpus == op.gpus
    && info.port == (if op.port.Some? then op.port.value else counter)
  }

  /** The status is the one the operation leaves behind. */
  ghost predicate LeavesStatus(op: Op, status: Status) {
    match op
    case Registering(_, _, _, _, _, _) => status == Starting
    case SettingReady(_) => status == Ready
    case MarkingUnavailable(_) => status == Unavailable
    case Removing(_) => false
  }

  ghost predicate IsRegisteredBy(ops: seq<Op>, id: string) {
    exists k :: LastRegisters(ops, id, k)
  }

  /** The data are those of the last registration; open ports are 8000, 8001 and so on, in order. */
  ghost predicate HasDataOf(ops: seq<Op>, id: string, info: InstanceInfo) {
    forall k :: LastRegisters(ops, id, k) ==> AsRegistered(info, ops[k], 8000 + Portless(ops[..k]))
  }

  ghost predicate HasStatusOf(ops: seq<Op>, id: string, status: Status) {
    forall k :: LastOn(ops, id, k) ==> LeavesStatus(ops[k], status)
  }

  /** What the operations alone say about `id`. */
  ghost predicate Explains(ops: seq<Op>, g: Registry, id: string) {
    && (id in g.instances <==> IsRegisteredBy(ops, id))
    && (id in g.instances ==> HasDataOf(ops, id, g.instances[id]) && HasStatusOf(ops, id, g.instances[id].status))
  }

  /** An operation on one id leaves every other instance as it is. */
  lemma OpLeavesOthers(g: Registry, op: Op, id: string)
    requires op.id != id
    ensures id in Apply(g, op).instances <==> id in g.instances
    ensures id in g.instances ==> Apply(g, op).instances[id] == g.instances[id]
  {
    match op
    case Registering(_, agent, host, port, range, gpus) => RegisterInstances(g, op.id, agent, host, port, range, gpus);
    case SettingReady(_) =>
    case MarkingUnavailable(_) =>
    case Removing(_) =>
  }

  lemma RegisterInstances(g: Registry, id: string, agent: string, host: string, port: Option<int>,
                          range: Option<Range>, gpus: int)
    ensures Register(g, id, agent, host, port, range, gpus).instances ==
            g.instances[id := NewInfo(g, id, agent, host, port, range, gpus)]
  {}

  /** What a registration does to its own instance and to the port counter. */
  lemma RegisterOnItsOwn(g: Registry, op: Op)
    requires op.Registering?
    ensures var h := Apply(g, op);
            && h.nextPort == g.nextPort + (if op.port.None? then 1 else 0)
            && op.id in h.instances && h.instances[op.id].status == Starting
            && AsRegistered(h.instances[op.id], op, g.nextPort)
  {
    RegisterInstances(g, op.id, op.agent, op.host, op.port, op.range, op.gpus);
  }

  /** What the other operations do to their instance. */
  lemma StatusOnItsOwn(g: Registry, op: Op)
    requires !op.Registering?
    ensures var h := Apply(g, op);
            && h.nextPort == g.nextPort
            && (op.id in h.instances <==> op.id in g.instances && !op.Removing?)
            && (op.id in h.instances ==>
                  && LeavesStatus(op, h.instances[op.id].status)
                  && h.instances[op.id] == g.instances[op.id].(status := h.instances[op.id].status))
  {}

  /** Over whole runs from a fresh registry: an id is registered exactly when a registration of it has
      not been removed since; it then has the data of that registration, the ports left open being
      8000, 8001 and so on in order, and the status its last operation gave it: it is ready exactly
      when that was set_ready. */
  lemma {:induction false} RunsExplainRegistry(ops: seq<Op>, id: string)
    ensures Explains(ops, ApplyAll(FRESH, ops), id) && ApplyAll(FRESH, ops).nextPort == 8000 + Portless(ops)
  {
    if ops != [] {
      var front, op := ops[..|ops| - 1], ops[|ops| - 1];
      RunsExplainRegistry(front, id);
      OneMoreOp(ops, ApplyAll(FRESH, front), id);
    }
  }

  lemma {:induction false} OneMoreOp(ops: seq<Op>, g: Registry, id: string)
    requires ops != [] && Explains(ops[..|ops| - 1], g, id) && g.nextPort == 8000 + Portless(ops[..|ops| - 1])
    ensures Explains(ops, Apply(g, ops[|ops| - 1]), id) && Apply(g, ops[|ops| - 1]).nextPort == 8000 + Portless(ops)
  {
    var op := ops[|ops| - 1];
    if op.Registering? {
      RegisterOnItsOwn(g, op);
    } else {
      StatusOnItsOwn(g, op);
    }
    if op.id != id {
      OpLeavesOthers(g, op, id);
      OtherOpExplains(ops, g, Apply(g, op), id);
    } else if op.Registering? {
      RegistrationExplains(ops, Apply(g, op), id);
    } else if op.Removing? {
      RemovalExplains(ops, Apply(g, op), id);
    } else {
      StatusExplains(ops, g, Apply(g, op), id);
    }
  }

  lemma OtherOpExplains(ops: seq<Op>, g: Registry, h: Registry, id: string)
    requires ops != [] && Explains(ops[..|ops| - 1], g, id) && ops[|ops| - 1].id != id
    requires id in h.instances <==> id in g.instances
    requires id in g.instances ==> h.instances[id] == g.instances[id]
    ensures Explains(ops, h, id)
  {
    FrontRegisters(ops, id);
    if id in g.instances {
      FrontData(ops, id, g.instances[id]);
      FrontStatus(ops, id, g.instances[id].status);
    }
  }

  /** The last operation neither registers nor removes `id`. */
  ghost predicate LeavesRegistration(ops: seq<Op>, id: string) {
    ops != [] && var op := ops[|ops| - 1]; op.id != id || op.SettingReady? || op.MarkingUnavailable?
  }

  lemma LastInFront(ops: seq<Op>, id: string, k: int)
    requires LeavesRegistration(ops, id)
    ensures LastRegisters(ops, id, k) <==> LastRegisters(ops[..|ops| - 1], id, k)
  {
    var front := ops[..|ops| - 1];
    assert forall j :: 0 <= j < |front| ==> front[j] == ops[j];
  }

  lemma FrontRegisters(ops: seq<Op>, id: string)
    requires LeavesRegistration(ops, id)
    ensures IsRegisteredBy(ops, id) <==> IsRegisteredBy(ops[..|ops| - 1], id)
  {
    var front := ops[..|ops| - 1];
    if k :| LastRegisters(ops, id, k) {
      LastInFront(ops, id, k);
    }
    if k :| LastRegisters(front, id, k) {
      LastInFront(ops, id, k);
    }
  }

  lemma FrontData(ops: seq<Op>, id: string, info: InstanceInfo)
    requires LeavesRegistration(ops, id) && HasDataOf(ops[..|ops| - 1], id, info)
    ensures HasDataOf(ops, id, info)
  {
    var front := ops[..|ops| - 1];
    forall k | LastRegisters(ops, id, k)
      ensures AsRegistered(info, ops[k], 8000 + Portless(ops[..k]))
    {
      LastInFront(ops, id, k);
      assert front[k] == ops[k] && front[..k] == ops[..k];
    }
  }

  lemma FrontStatus(ops: seq<Op>, id: string, status: Status)
    requires ops != [] && ops[|ops| - 1].id != id && HasStatusOf(ops[..|ops| - 1], id, status)
    ensures HasStatusOf(ops, id, status)
  {
    var front := ops[..|ops| - 1];
    forall k | LastOn(ops, id, k)
      ensures LeavesStatus(ops[k], status)
    {
      assert forall j :: 0 <= j < |front| ==> front[j] == ops[j];
      assert LastOn(front, id, k);
    }
  }

  /** The last operation is on `id` and gives it its status. */
  lemma LastGivesStatus(ops: seq<Op>, id: string, status: Status)
    requires ops != [] && ops[|ops| - 1].id == id && LeavesStatus(ops[|ops| - 1], status)
    ensures HasStatusOf(ops, id, status)
  {
    var last := |ops| - 1;
    assert ops[last].id == id;
    assert forall k :: LastOn(ops, id, k) ==> k == last;
  }

  lemma RegistrationExplains(ops: seq<Op>, h: Registry, id: string)
    requires ops != [] && ops[|ops| - 1].id == id && ops[|ops| - 1].Registering?
    requires id in h.instances && h.instances[id].status == Starting
    requires AsRegistered(h.instances[id], ops[|ops| - 1], 8000 + Portless(ops[..|ops| - 1]))
    ensures Explains(ops, h, id)
  {
    var last := |ops| - 1;
    assert LastRegisters(ops, id, last);
    LastGivesStatus(ops, id, Starting);
    assert ops[last].id == id && ops[last].Registering?;
    assert forall k :: LastRegisters(ops, id, k) ==> k == last;
  }

  lemma RemovalExplains(ops: seq<Op>, h: Registry, id: string)
    requires ops != [] && ops[|ops| - 1].id == id && ops[|ops| - 1].Removing? && id !in h.instances
    ensures Explains(ops, h, id)
  {
    var last := |ops| - 1;
    forall k
      ensures !LastRegisters(ops, id, k)
    {
      assert 0 <= k < last ==> ops[last].id == id && ops[last].Removing?;
    }
  }

  lemma StatusExplains(ops: seq<Op>, g: Registry, h: Registry, id: string)
    requires ops != [] && Explains(ops[..|ops| - 1], g, id)
    requires ops[|ops| - 1].id == id && (ops[|ops| - 1].SettingReady? || ops[|ops| - 1].MarkingUnavailable?)
    requires id in h.instances <==> id in g.instances
    requires id in h.instances ==> LeavesStatus(ops[|ops| - 1], h.instances[id].status)
    requires id in h.instances ==> h.instances[id] == g.instances[id].(status := h.instances[id].status)
    ensures Explains(ops, h, id)
  {
    FrontRegisters(ops, id);
    if id in g.instances {
      FrontData(ops, id, g.instances[id]);
      DataIgnoresStatus(ops, id, g.instances[id], h.instances[id]);
      LastGivesStatus(ops, id, h.instances[id].status);
    }
  }

  lemma DataIgnoresStatus(ops: seq<Op>, id: string, info: InstanceInfo, info': InstanceInfo)
    requires HasDataOf(ops, id, info) && info' == info.(status := info'.status)
    ensures HasDataOf(ops, id, info')
  {}

  // ---------------------------------------------------------------- searching a slot

  ghost predicate Serves(g: Registry, agent: string, length: int, slot: int) {
    (agent, slot) in g.slotRanges && Within(length, g.slotRanges[(agent, slot)])
  }

  /** The answer of `find_context_slot`: the least slot whose range holds the length. */
  ghost predicate IsContextSlot(g: Registry, agent: string, length: int, r: Option<int>) {
    match r
    case None => forall s :: !Serves(g, agent, length, s)
    case Some(s) => Serves(g, agent, length, s) && forall t :: t < s ==> !Serves(g, agent, length, t)
  }

  /** The second search pass, over the instances' own ranges, can never find what the first missed. */
  lemma SecondPassFindsNothing(g: Registry, agent: string, length: int, k: (string, int), id: string)
    requires Valid(g) && IsContextSlot(g, agent, length, None)
    requires k in g.contextInstances && k.0 == agent && id in g.contextInstances[k]
    ensures id in g.instances
    ensures g.instances[id].range.Some? && !Within(length, g.instances[id].range.value)
  {
    assert ContextKeyConsistent(g, k) && ListedRightly(g, k, id);
    assert !Serves(g, agent, length, k.1) && k == (agent, k.1);
  }

  // ---------------------------------------------------------------- the instances of a slot

  /** A ready instance of the agent that serves the slot's range. */
  ghost predicate ReadyIn(g: Registry, agent: string, slot: int, info: InstanceInfo) {
    && info.id in g.instances && g.instances[info.id] == info && info.status == Ready
    && ListedRightly(g, (agent, slot), info.id)
  }

  function ContextList(g: Registry, k: (string, int)): seq<string> {
    if k in g.contextInstances then g.contextInstances[k] else []
  }

  /** The ready instances among `ids`, in that order. */
  function ReadyOf(instances: map<string, InstanceInfo>, ids: seq<string>): (r: seq<InstanceInfo>)
    ensures forall info :: info in r ==> exists id :: id in ids && id in instances && instances[id] == info
    ensures forall id :: id in ids && id in instances && instances[id].status == Ready ==> instances[id] in r
    ensures forall info :: info in r ==> info.status == Ready
  {
    if ids == [] then []
    else
      var k := |ids| - 1;
      assert ids == ids[..k] + [ids[k]];
      var front := ReadyOf(instances, ids[..k]);
      if ids[k] in instances && instances[ids[k]].status == Ready then front + [instances[ids[k]]] else front
  }

  ghost predicate DistinctIds(infos: seq<InstanceInfo>) {
    forall i, j :: 0 <= i < j < |infos| ==> infos[i].id != infos[j].id
  }

  lemma {:induction false} ReadyOfDistinct(instances: map<string, InstanceInfo>, ids: seq<string>)
    requires Distinct(ids) && forall id :: id in instances ==> instances[id].id == id
    ensures DistinctIds(ReadyOf(instances, ids))
  {
    if ids != [] {
      var k := |ids| - 1;
      ReadyOfDistinct(instances, ids[..k]);
      assert ids[k] !in ids[..k];
      var front := ReadyOf(instances, ids[..k]);
      forall i | 0 <= i < |front|
        ensures front[i].id in ids[..k]
      {
        assert front[i] in front;
      }
    }
  }

  /** What the context index lists for a slot: exactly the ready instances serving it, each once. */
  lemma {:induction false} ReadyListedIffReadyIn(g: Registry, agent: string, slot: int)
    requires Valid(g)
    ensures var infos := ReadyOf(g.instances, ContextList(g, (agent, slot)));
            DistinctIds(infos) && forall info :: info in infos <==> ReadyIn(g, agent, slot, info)
  {
    var ids := ContextList(g, (agent, slot));
    var infos := ReadyOf(g.instances, ids);
    if ids != [] {
      assert ContextKeyConsistent(g, (agent, slot));
    }
    ReadyOfDistinct(g.instances, ids);
    forall info
      ensures info in infos <==> ReadyIn(g, agent, slot, info)
    {
      if info in infos {
        var id :| id in ids && id in g.instances && g.instances[id] == info;
        assert ListedRightly(g, (agent, slot), id);
      }
      if ReadyIn(g, agent, slot, info) {
        assert Listed(g, info.id);
      }
    }
  }

  /** The agent's slots are exactly 0 .. |ranges| - 1, holding these ranges. */
  ghost predicate SlotsAre(g: Registry, agent: string, ranges: seq<Range>) {
    && (forall s :: (agent, s) in g.slotRanges <==> 0 <= s < |ranges|)
    && (forall s :: 0 <= s < |ranges| ==> g.slotRanges[(agent, s)] == ranges[s])
  }

  /** Registering a range known to the agent adds no slot; a new one gets the next slot. */
  lemma RegisterSlots(g: Registry, id: string, agent: string, host: string, port: Option<int>, range: Range,
                      gpus: int, ranges: seq<Range>)
    requires SlotsConsistent(g) && SlotsAre(g, agent, ranges)
    ensures SlotsAre(Register(g, id, agent, host, port, Some(range), gpus), agent,
                     if range in ranges then ranges else ranges + [range])
  {
    RegisterInfoSlots(PortTaken(g, port), NewInfo(g, id, agent, host, port, Some(range), gpus), ranges);
  }

  lemma RegisterInfoSlots(g: Registry, info: InstanceInfo, ranges: seq<Range>)
    requires SlotsConsistent(g) && SlotsAre(g, info.agent, ranges) && info.range.Some?
    ensures SlotsAre(RegisterInfo(g, info), info.agent,
                     if info.range.value in ranges then ranges else ranges + [info.range.value])
  {
    WithSlotAdds(Indexed(g, info), info.agent, info.range.value, ranges);
  }

  lemma WithSlotAdds(g: Registry, agent: string, range: Range, ranges: seq<Range>)
    requires SlotsConsistent(g) && SlotsAre(g, agent, ranges)
    ensures SlotsAre(WithSlot(g, agent, range), agent, if range in ranges then ranges else ranges + [range])
  {
    KnownRange(g, agent, range, ranges);
    if range !in ranges {
      NextSlotIsLength(g, agent, ranges);
      NewSlotAppends(g, WithSlot(g, agent, range), agent, range, ranges);
    }
  }

  lemma NewSlotAppends(g: Registry, h: Registry, agent: string, range: Range, ranges: seq<Range>)
    requires SlotsAre(g, agent, ranges) && h.slotRanges == g.slotRanges[(agent, |ranges|) := range]
    ensures SlotsAre(h, agent, ranges + [range])
  {
    forall s
      ensures (agent, s) in h.slotRanges <==> 0 <= s < |ranges| + 1
    {
      assert (agent, s) in g.slotRanges <==> 0 <= s < |ranges|;
    }
  }

  lemma NextSlotIsLength(g: Registry, agent: string, ranges: seq<Range>)
    requires SlotsConsistent(g) && SlotsAre(g, agent, ranges)
    ensures NextSlot(g, agent) == |ranges|
  {
    SlotsBelowNext(g, agent);
    assert (agent, NextSlot(g, agent)) !in g.slotRanges && (agent, |ranges|) !in g.slotRanges;
  }

  lemma KnownRange(g: Registry, agent: string, range: Range, ranges: seq<Range>)
    requires SlotsConsistent(g) && SlotsAre(g, agent, ranges)
    ensures (agent, range) in g.rangeSlots <==> range in ranges
  {
    if (agent, range) in g.rangeSlots {
      assert ranges[g.rangeSlots[(agent, range)]] == range;
    }
    if range in ranges {
      var s :| 0 <= s < |ranges| && ranges[s] == range;
      assert (agent, s) in g.slotRanges;
    }
  }

  /** Other agents' slots are not touched. */
  lemma RegisterOtherAgent(g: Registry, id: string, agent: string, host: string, port: Option<int>,
                           range: Option<Range>, gpus: int, other: string, ranges: seq<Range>)
    requires SlotsAre(g, other, ranges) && other != agent
    ensures SlotsAre(Register(g, id, agent, host, port, range, gpus), other, ranges)
  {}

  /** Any consistent registry has such a list of ranges for every agent. */
  lemma SlotList(g: Registry, agent: string) returns (ranges: seq<Range>)
    requires SlotsConsistent(g)
    ensures SlotsAre(g, agent, ranges)
    ensures Distinct(ranges)
  {
    SlotsBelowNext(g, agent);
    ranges := seq(NextSlot(g, agent), s requires 0 <= s < NextSlot(g, agent) => g.slotRanges[(agent, s)]);
  }
}
