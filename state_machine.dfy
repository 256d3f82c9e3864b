/**
  The runtime state machine: a registry of state nodes keyed by their type
  names, the current and previous node, and a blackboard of opaque values.
  Every operation updates the object in place, in the order the hooks are
  called; the ghost `trace` records those hook calls and the diagnostics.
  Each method is proved to do exactly what the matching function of
  MachineSpec does, and to keep the machine invariant.
 */
module Fsm {
  import opened Wrappers
  import opened MachineSpec

  class StateMachine<V> {
    var nodes: map<string, StateNode>
    var blackboard: map<string, V>
    var current: StateNode?
    var previous: StateNode?
    ghost var trace: seq<Event>

    /** The machine as a value. */
    ghost function Model(): Machine<V>
      reads this
    {
      Machine(nodes, blackboard, current, previous, trace)
    }

    ghost predicate Valid()
      reads this
    {
      MachineSpec.Valid(Model())
    }

    /** What a hook invoked now can observe. */
    ghost function Seen(): Snapshot
      reads this
    {
      Snapshot(current, previous, nodes.Keys)
    }

    constructor ()
      ensures Valid() && Disciplined(Model())
      ensures Model() == Empty()
    {
      nodes := map[];
      blackboard := map[];
      current := null;
      previous := null;
      trace := [];
    }

    /** The name of the current node, or the empty string when there is none. */
    function CurrentNode(): (name: string)
      reads this
      ensures name == "" <==> current == null
      ensures Valid() && current != null ==> name in nodes && nodes[name] == current
    {
      if current != null then current.name else ""
    }

    /** The name of the previous node, or the empty string when there is none. */
    function PreviousNode(): (name: string)
      reads this
      ensures name == "" <==> previous == null
      ensures Valid() && previous != null ==> name in nodes && nodes[name] == previous
    {
      if previous != null then previous.name else ""
    }

    /** Ticks the current node; does nothing before the machine has a current node. */
    method Update()
      requires Valid()
      modifies this
      ensures Valid()
      ensures Model() == MachineSpec.Update(old(Model()))
    {
      if current != null {
        trace := trace + [OnUpdate(current, Seen())];
      }
    }

    /** Makes `entry` both current and previous and enters it; throws when
        `entry` is not registered, after clearing current and previous. */
    method Run(entry: string) returns (outcome: Outcome)
      requires Valid()
      modifies this
      ensures Valid()
      ensures (Model(), outcome) == MachineSpec.Run(old(Model()), entry)
    {
      current := TryGetNode(entry);
      previous := current;
      if current == null {
        return Threw(NodeNotFound(entry));
      }
      trace := trace + [OnEnter(current, Seen())];
      outcome := Returned;
    }

    /** Creates and registers `node` unless its name is taken, which is
        reported instead; throws on a null node. */
    method AddNode(node: StateNode?) returns (outcome: Outcome)
      requires Valid()
      modifies this
      ensures Valid()
      ensures (Model(), outcome) == MachineSpec.AddNode(old(Model()), node)
    {
      if node == null {
        return Threw(ArgumentNull);
      }
      var name := node.name;
      if name !in nodes {
        trace := trace + [OnCreate(node, Seen())];
        nodes := nodes[name := node];
      } else {
        trace := trace + [LogError(DuplicateNode(name))];
      }
      outcome := Returned;
    }

    /** Exits the current node and enters the node named `target`. A missing
        target is reported and changes nothing; an empty name, or a call
        before the machine has a current node, throws. */
    method ChangeState(target: string) returns (outcome: Outcome)
      requires Valid()
      modifies this
      ensures Valid()
      ensures (Model(), outcome) == MachineSpec.ChangeState(old(Model()), target)
    {
      if target == "" {
        return Threw(ArgumentNull);
      }
      var node := TryGetNode(target);
      if node == null {
        trace := trace + [LogError(MissingNode(target))];
        return Returned;
      }
      if current == null {
        return Threw(NullReference);
      }
      trace := trace + [LogTransition(current, node)];
      previous := current;
      trace := trace + [OnExit(current, Seen())];
      current := node;
      trace := trace + [OnEnter(current, Seen())];
      outcome := Returned;
    }

    /** Stores `value` under `key`, overwriting an earlier value. */
    method SetBlackboardValue(key: string, value: V)
      requires Valid()
      modifies this
      ensures Valid()
      ensures Model() == MachineSpec.SetBlackboardValue(old(Model()), key, value)
    {
      if key in blackboard {
        // overwrite
        blackboard := blackboard[key := value];
      } else {
        // insert
        blackboard := blackboard[key := value];
      }
    }

    /** The value stored under `key`, or None when nothing was stored. */
    function GetBlackboardValue(key: string): (value: Option<V>)
      reads this
      ensures value.Some? <==> key in blackboard
      ensures value.Some? ==> value.value == blackboard[key]
    {
      if key in blackboard then Some(blackboard[key]) else None
    }

    /** The registered node named `name`, or null. */
    function TryGetNode(name: string): (node: StateNode?)
      reads this
      ensures node != null <==> name in nodes
      ensures node != null ==> node == nodes[name]
      ensures Valid() && node != null ==> node.name == name
    {
      if name in nodes then nodes[name] else null
    }
  }
}
