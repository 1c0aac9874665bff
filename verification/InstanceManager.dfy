/**
  The `InstanceManager` object: five dictionaries and a port counter updated in
  place.  Every method is tied to the registry value in InstanceRegistry.dfy.
 */
module InstanceManager {
  import opened Collections
  import opened InstanceRegistry
  import StableSort

  lemma NextSlotUnique(keys: set<(string, int)>, a: int, b: int)
    requires IsNextSlot(keys, a) && IsNextSlot(keys, b)
    ensures a == b
  {}

  class Manager {
    var instances: map<string, InstanceInfo>
    var agentInstances: map<string, set<string>>
    var contextInstances: map<(string, int), seq<string>>
    var rangeSlots: map<(string, Range), int>
    var slotRanges: map<(string, int), Range>
    var nextPort: int

    function Value(): Registry
      reads this
    {
      Registry(instances, agentInstances, contextInstances, rangeSlots, slotRanges, nextPort)
    }

    constructor ()
      ensures Value() == FRESH
    {
      instances, agentInstances, contextInstances := map[], map[], map[];
      rangeSlots, slotRanges := map[], map[];
      nextPort := 8000;
    }

    method Register(id: string, agent: string, host: string, port: Option<int>, range: Option<Range>, gpus: int)
      returns (info: InstanceInfo)
      modifies this
      ensures Value() == InstanceRegistry.Register(old(Value()), id, agent, host, port, range, gpus)
      ensures id in instances && instances[id] == info
      ensures info == NewInfo(old(Value()), id, agent, host, port, range, gpus)
    {
      var p := if port.Some? then port.value else nextPort;
      if port.None? {
        nextPort := nextPort + 1;
      }
      info := InstanceInfo(id, agent, host, p, range, gpus, Starting);
      instances := instances[id := info];
      var ids := if agent in agentInstances then agentInstances[agent] else {};
      agentInstances := agentInstances[agent := ids + {id}];
      assert Value() == Indexed(PortTaken(old(Value()), port), info);
      if range.Some? {
        var slot := GetOrCreateSlot(agent, range.value);
        var context := if (agent, slot) in contextInstances then contextInstances[(agent, slot)] else [];
        if id !in context {
          context := context + [id];
        }
        contextInstances := contextInstances[(agent, slot) := context];
      }
    }

    method GetOrCreateSlot(agent: string, range: Range) returns (slot: int)
      modifies this`rangeSlots, this`slotRanges
      ensures Value() == WithSlot(old(Value()), agent, range)
      ensures (agent, range) in rangeSlots && rangeSlots[(agent, range)] == slot
    {
      if (agent, range) in rangeSlots {
        return rangeSlots[(agent, range)];
      }
      slot := NextFreeSlot(agent);
      rangeSlots := rangeSlots[(agent, range) := slot];
      slotRanges := slotRanges[(agent, slot) := range];
    }

    /** The maximum of the existing slots, plus one. */
    method NextFreeSlot(agent: string) returns (next: int)
      ensures next == NextSlot(Value(), agent)
    {
      var existing := set k | k in slotRanges && k.0 == agent;
      var rest := existing;
      next := 0;
      while rest != {}
        invariant rest <= existing
        invariant IsNextSlot(existing - rest, next)
        decreases |rest|
      {
        var k :| k in rest;
        assert existing - (rest - {k}) == (existing - rest) + {k};
        next := if existing == rest || next <= k.1 then k.1 + 1 else next;
        rest := rest - {k};
      }
      assert existing - rest == existing == SlotKeys(Value(), agent);
      NextSlotUnique(existing, next, NextSlot(Value(), agent));
    }

    method SetReady(id: string)
      modifies this`instances
      ensures Value() == SetStatus(old(Value()), id, Ready)
    {
      if id in instances {
        instances := instances[id := instances[id].(status := Ready)];
      }
    }

    method MarkUnavailable(id: string) returns (info: Option<InstanceInfo>)
      modifies this`instances
      ensures Value() == SetStatus(old(Value()), id, Unavailable)
      ensures info == if id in instances then Some(instances[id]) else None
    {
      info := None;
      if id in instances {
        instances := instances[id := instances[id].(status := Unavailable)];
        info := Some(instances[id]);
      }
    }

    method Remove(id: string)
      modifies this
      ensures Value() == InstanceRegistry.Remove(old(Value()), id)
    {
      if id !in instances {
        return;
      }
      var info := instances[id];
      instances := instances - {id};
      if info.agent in agentInstances {
        agentInstances := agentInstances[info.agent := agentInstances[info.agent] - {id}];
      }
      if info.range.Some? && (info.agent, info.range.value) in rangeSlots {
        var key := (info.agent, rangeSlots[(info.agent, info.range.value)]);
        if key in contextInstances {
          contextInstances := contextInstances[key := Without(contextInstances[key], id)];
        }
      }
    }

    function Get(id: string): Option<InstanceInfo>
      reads this
    {
      if id in instances then Some(instances[id]) else None
    }

    /** Ready instances of the agent, each once; the dictionary lookups never miss. */
    method GetInstancesForAgent(agent: string) returns (infos: seq<InstanceInfo>)
      requires Valid(Value())
      ensures forall info :: info in infos <==>
                info.id in instances && instances[info.id] == info && info.agent == agent && info.status == Ready
      ensures DistinctIds(infos)
    {
      infos := [];
      var ids := if agent in agentInstances then agentInstances[agent] else {};
      var rest := ids;
      while rest != {}
        invariant rest <= ids
        invariant forall info :: info in infos <==>
                    info.id in ids - rest && instances[info.id] == info && info.status == Ready
        invariant DistinctIds(infos)
        decreases |rest|
      {
        var id :| id in rest;
        rest := rest - {id};
        if instances[id].status == Ready {
          assert instances[id] !in infos;
          infos := infos + [instances[id]];
        }
      }
    }

    /** The ready instances of the slot's context list, in order: exactly those serving its range,
        each once; no lookup can miss. */
    method GetInstancesForContext(agent: string, slot: int) returns (infos: seq<InstanceInfo>)
      requires Valid(Value())
      ensures infos == ReadyOf(instances, ContextList(Value(), (agent, slot)))
      ensures DistinctIds(infos) && forall info :: info in infos <==> ReadyIn(Value(), agent, slot, info)
    {
      infos := [];
      var ids := if (agent, slot) in contextInstances then contextInstances[(agent, slot)] else [];
      ghost var g := Value();
      assert ids != [] ==> ContextKeyConsistent(g, (agent, slot));
      for n := 0 to |ids|
        invariant infos == ReadyOf(instances, ids[..n])
      {
        assert ListedRightly(g, (agent, slot), ids[n]);
        assert ids[..n + 1][..n] == ids[..n];
        if instances[ids[n]].status == Ready {
          infos := infos + [instances[ids[n]]];
        }
      }
      assert ids[..|ids|] == ids;
      ReadyListedIffReadyIn(g, agent, slot);
    }

    /** Sorted slots of the agent. */
    method SortedSlots(agent: string) returns (slots: seq<int>)
      ensures forall s :: s in slots <==> (agent, s) in slotRanges
      ensures forall i, j :: 0 <= i < j < |slots| ==> slots[i] <= slots[j]
    {
      var rest := set k | k in slotRanges && k.0 == agent;
      var unsorted: seq<int> := [];
      while rest != {}
        invariant forall k :: k in rest ==> k in slotRanges && k.0 == agent
        invariant forall s :: s in unsorted <==> (agent, s) in slotRanges && (agent, s) !in rest
        decreases |rest|
      {
        var k :| k in rest;
        assert k == (agent, k.1);
        rest := rest - {k};
        unsorted := unsorted + [k.1];
      }
      var key := (s: int) => (s, 0);
      slots := StableSort.Sort(key, unsorted);
      StableSort.SortSorts(key, unsorted);
      StableSort.PermutationFacts(unsorted, slots);
      forall i, j | 0 <= i < j < |slots|
        ensures slots[i] <= slots[j]
      {
        assert StableSort.Leq(key(slots[i]), key(slots[j]));
      }
    }

    /** `find_context_slot`: both passes; the second never changes the answer. */
    method FindContextSlot(agent: string, length: int) returns (r: Option<int>)
      requires Valid(Value())
      ensures IsContextSlot(Value(), agent, length, r)
    {
      ghost var g := Value();
      var slots := SortedSlots(agent);
      for n := 0 to |slots|
        invariant forall i :: 0 <= i < n ==> !Serves(g, agent, length, slots[i])
      {
        var slot := slots[n];
        if Within(length, slotRanges[(agent, slot)]) {
          assert forall t :: t < slot && (agent, t) in slotRanges ==> t in slots[..n];
          return Some(slot);
        }
      }
      assert IsContextSlot(g, agent, length, None);
      r := SecondPass(agent, length);
    }

    method SecondPass(agent: string, length: int) returns (r: Option<int>)
      requires Valid(Value()) && IsContextSlot(Value(), agent, length, None)
      ensures r == None
    {
      r := None;
      var rest := contextInstances.Keys;
      while rest != {}
        invariant rest <= contextInstances.Keys && r == None
        decreases |rest|
      {
        var k :| k in rest;
        rest := rest - {k};
        if k.0 == agent {
          for n := 0 to |contextInstances[k]|
            invariant r == None
          {
            var id := contextInstances[k][n];
            SecondPassFindsNothing(Value(), agent, length, k, id);
            if instances[id].range.Some? && Within(length, instances[id].range.value) {
              r := Some(k.1);
            }
          }
        }
      }
    }
  }
}
