# FiniteStateMachine runtime in Dafny

This project models `StateMachine`, the whole runtime of a small, embeddable
finite-state machine for Unity hosts. The machine holds:
- a registry of state nodes, keyed by the full name of each node's type;
- a current node and a previous node;
- a blackboard, which maps string keys to opaque values.

Its public operations are `AddNode`, `Run`, `ChangeState`, `Update`,
`SetBlackboardValue`, `GetBlackboardValue` and the `CurrentNode` and
`PrevioysNode` accessors (spelled `PreviousNode` here).

The project has three files:
- `wrappers.dfy`: the `Option` returned by the blackboard lookup.
- `machine_spec.dfy` (module `MachineSpec`): the machine as a value, `Machine<V>`, with one function per operation. It also holds the invariant, the trace of hook calls, and the lemmas that state what each operation promises, alone and over whole call sequences.
- `state_machine.dfy` (module `Fsm`): the class `StateMachine<V>`. Its fields are updated in place, in the source's order. Each method is proved to leave exactly the state, and return exactly the outcome, of the matching `MachineSpec` function, and to keep the invariant.

How the model represents the source:
- **Nodes.** A state node is an object (`StateNode`) whose constant `name` stands for its type's full name. That name is never empty, and two instances of one type share it.
- **Hooks.** The hooks `OnCreate`, `OnEnter`, `OnUpdate` and `OnExit` belong to the host, so they are recorded as events in a ghost trace. Each event carries a `Snapshot` of what the hook can observe when it runs: the current node, the previous node and the registered names. This makes the order of assignments and calls part of the contract. For example, `OnCreate` runs before the node is filed, and `OnExit` runs after `previous` has taken the outgoing node.
- **Diagnostics.** `Debug.LogError` and `Debug.Log` become `LogError` and `LogTransition` events.
- **Exceptions.** A thrown exception is a returned `Outcome`, `Threw(...)`. The state is left as the code leaves it at the throw point.
- **Hosts that continue after a throw.** A host that catches and continues is modelled by `Exec`, which runs a sequence of `Call`s.
- **Invariant.** The class methods require `Valid()`. The constructor establishes it and every method preserves it, so every object a host can reach satisfies it.

Properties proved:
- **Invariant.** Every registry entry is filed under its own node's name. The current and previous nodes, when set, are registered nodes. Every operation preserves this, and so does every call sequence.
- **Exit before enter** (`Disciplined`). Replaying the trace must show:
  - a node is entered only while no node is active;
  - only the active node is updated or exited;
  - the node left active is the current node.

  Every call preserves this except `Run` on a machine that already has a current node. Two lemmas show how that `Run` breaks it (`ReRunSkipsExit`, `FailedRunAbandonsCurrent`). The code allows re-running, and the model keeps that behaviour.

## Model

| member | source | states |
|---|---|---|
| `Fsm.StateMachine.constructor` | Runtime/StateMachine.cs:50-55 | a new machine has an empty registry and blackboard, no current or previous node, and no events; it is valid and disciplined |
| `Fsm.StateMachine.CurrentNode` | Runtime/StateMachine.cs:24-30 | the result is empty exactly when there is no current node; otherwise it is the registry key holding the current node |
| `Fsm.StateMachine.PreviousNode` | Runtime/StateMachine.cs:35-41 | the result is empty exactly when there is no previous node; otherwise it is the registry key holding the previous node |
| `Fsm.StateMachine.Update` | Runtime/StateMachine.cs:59-62 | new state is `MachineSpec.Update` of the old one; invariant kept |
| `Fsm.StateMachine.Run` | Runtime/StateMachine.cs:78-89 | new state and outcome are `MachineSpec.Run` of the old state; invariant kept |
| `Fsm.StateMachine.AddNode` | Runtime/StateMachine.cs:100-119 | new state and outcome are `MachineSpec.AddNode` of the old state; invariant kept |
| `Fsm.StateMachine.ChangeState` | Runtime/StateMachine.cs:135-152 | new state and outcome are `MachineSpec.ChangeState` of the old state; invariant kept |
| `Fsm.StateMachine.SetBlackboardValue` | Runtime/StateMachine.cs:156-166 | new state is `MachineSpec.SetBlackboardValue` of the old one, on both the overwrite and the insert branch |
| `Fsm.StateMachine.GetBlackboardValue` | Runtime/StateMachine.cs:168-175 | returns a value exactly when the key is present, and then the stored one; a missing key gives None, never a failure |
| `Fsm.StateMachine.TryGetNode` | Runtime/StateMachine.cs:178-182 | non-null exactly when the name is registered, and then the registered node, whose own name is the key |
| `MachineSpec.TryGetNode` | Runtime/StateMachine.cs:178-182 | non-null exactly when the name is registered, and then the registered node, whose own name is the key under the invariant |
| `MachineSpec.EmptyMachine` | Runtime/StateMachine.cs:50-55 | a fresh machine is valid and disciplined; both accessors give the empty string; every blackboard and node lookup misses |
| `MachineSpec.AccessorsNameRegisteredNodes` | Runtime/StateMachine.cs:24-41 | each accessor is empty exactly when its node is null, and otherwise names the registry entry holding that node |
| `MachineSpec.AddNodeRegistersNew` | Runtime/StateMachine.cs:107-114 | a new name: the registry gains exactly that key mapped to the node; exactly one `OnCreate` is emitted, seeing a registry without the name; nothing else changes |
| `MachineSpec.AddNodeKeepsFirst` | Runtime/StateMachine.cs:110-118 | a registered name: registry, blackboard, current and previous unchanged; exactly one duplicate error reported; no node created |
| `MachineSpec.AddNodeRejectsNull` | Runtime/StateMachine.cs:102-105 | a null node throws an argument error and changes nothing |
| `MachineSpec.RunEntersRegistered` | Runtime/StateMachine.cs:78-89 | a registered entry becomes both current and previous; both accessors name it; exactly one `OnEnter`, on it, and no `OnExit`; registry and blackboard unchanged |
| `MachineSpec.RunFailsOnMissing` | Runtime/StateMachine.cs:80-86 | an unregistered entry throws not-found after clearing both current and previous, even on a running machine; no events |
| `MachineSpec.ChangeStateTransfers` | Runtime/StateMachine.cs:147-151 | with a current node and a registered target: the trace gains exactly the transition log, `OnExit(old)` with previous already old, then `OnEnter(target)` with current already target; afterwards current is the target and previous is the old node; the target may be the old node |
| `MachineSpec.ChangeStateReportsMissing` | Runtime/StateMachine.cs:140-145 | an unregistered target is reported once; current, previous, registry and blackboard unchanged; no hook is called |
| `MachineSpec.ChangeStateRejectsEmptyName` | Runtime/StateMachine.cs:137-138 | an empty name throws an argument error before any lookup and changes nothing |
| `MachineSpec.ChangeStateBeforeRunThrows` | Runtime/StateMachine.cs:147 | a registered target with no current node throws a null reference before any change or event |
| `MachineSpec.UpdateTicksCurrent` | Runtime/StateMachine.cs:59-62 | with a current node, exactly one `OnUpdate` on it and nothing else; without one, a no-op |
| `MachineSpec.SetThenGet` | Runtime/StateMachine.cs:156-175 | after a set, a get of that key returns the value and every other key reads as before; registry, nodes and trace unchanged |
| `MachineSpec.GetMissingIsNone` | Runtime/StateMachine.cs:168-175 | a get returns None exactly when the key was never set |
| `MachineSpec.SetLastWriteWins` | Runtime/StateMachine.cs:156-166 | two sets of one key equal the last set alone |
| `MachineSpec.SetIdempotent` | Runtime/StateMachine.cs:156-166 | setting a key twice to the same value equals setting it once |
| `MachineSpec.StepPreservesValid` | Runtime/StateMachine.cs:78-152 | every operation keeps registry keys equal to their nodes' names, and keeps current and previous registered |
| `MachineSpec.ExecPreservesValid` | Runtime/StateMachine.cs:59-175 | any sequence of operations keeps the invariant |
| `MachineSpec.RegisterDistinct` | Runtime/StateMachine.cs:100-119 | adding nodes with distinct new names: each lookup returns the node registered under that name, earlier entries are kept, and each added node's `OnCreate` count rises by exactly one (other nodes' counts stay the same) |
| `MachineSpec.RegisterDistinctFromEmpty` | Runtime/StateMachine.cs:100-119 | from a fresh machine, each of a batch of distinctly named nodes can be looked up and was created exactly once |
| `MachineSpec.AddNodeKeepsDiscipline` | Runtime/StateMachine.cs:107-118 | registration keeps the exit-before-enter discipline |
| `MachineSpec.RunWhenStoppedKeepsDiscipline` | Runtime/StateMachine.cs:78-89 | running a machine with no current node keeps the discipline |
| `MachineSpec.ChangeStateKeepsDiscipline` | Runtime/StateMachine.cs:135-152 | a transition exits the active node before it enters the target, and leaves the target active and current |
| `MachineSpec.UpdateKeepsDiscipline` | Runtime/StateMachine.cs:59-62 | only the active node is updated |
| `MachineSpec.StepKeepsDiscipline` | Runtime/StateMachine.cs:59-166 | every operation except `Run` on a machine with a current node keeps the discipline |
| `MachineSpec.ExecKeepsDiscipline` | Runtime/StateMachine.cs:59-166 | any call sequence without `Run` keeps the discipline |
| `MachineSpec.RunOnceKeepsDiscipline` | Runtime/StateMachine.cs:78-152 | a stopped machine that is run once and then driven by any other calls keeps the discipline throughout |
| `MachineSpec.ReRunSkipsExit` | Runtime/StateMachine.cs:78-89 | `Run` on a machine with a current node enters the new node without exiting the old one, which breaks the discipline |
| `MachineSpec.FailedRunAbandonsCurrent` | Runtime/StateMachine.cs:80-86 | a failed `Run` on a machine with a current node clears current without exiting it |

## Left out

- Owner: it is stored by the constructor and never read by the machine, so it is not modelled.
- Capacity hints of the constructor: they have no observable effect.
- `Run<T>`, `Run(Type)`, `AddNode<T>`, `ChangeState<T>`, `ChangeState(Type)`: these overloads only compute a type's full name (or create an instance through reflection) and forward to the string or instance overload. Reflection is not modelled; a node's type name is the abstract `name` field.
- Hook bodies: `OnCreate`, `OnEnter`, `OnUpdate` and `OnExit` belong to the host. They are recorded as trace events. A hook that throws, or that calls back into the machine, is not modelled.
- Logging: the messages of `Debug.Log` and `Debug.LogError` are abstract events; their text is not modelled.
- Null strings: Dafny strings cannot be null. `string.IsNullOrEmpty` in `ChangeState` is modelled as the empty-name check. The `ArgumentNullException` that the dictionary throws for a null key in `Run`, `SetBlackboardValue` or `GetBlackboardValue` is not modelled.
- GetBlackboardValue: the source returns null both for a missing key and for a key explicitly set to null. The model returns `None` for a missing key and `Some(v)` for a stored value, so the model can tell those two cases apart where the source cannot.
- Concurrency: the source is single-threaded and not re-entrant, and so is the model.
