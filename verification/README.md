# ifupdown-ng: the dependency lifecycle, its collection, and its state file

This project models how `ifup` and `ifdown` of ifupdown-ng decide what to bring up and take
down, and proves what their runs keep. Network interfaces require each other; the program
brings requirements up first and takes them down last, and it keeps, per interface, a
reference count, a flag for "asked for by the administrator", and a flag that breaks cycles.
That is a reference-counting collector over the `requires` graph whose counts live in a state
file between processes.

How the parts fit:

* `Graph`, `World`, `Lifecycle`, `Commands` say what the program computes, branch by branch, as
  functions on worlds (counts, flags, state records, history of phases). A phase is executed by
  an arbitrary environment: its outcome is any function of the history so far.
* `Coherence`, `Raising`, `Dropping`, `Draining`, `BringUpOrder`, `TakeDownOrder`, `Success` prove
  by induction over the two mutual recursions what every run keeps, including in the middle of a
  run. The key is a ledger that equates counts with edges of configured interfaces and books
  separately what the interfaces on the recursion stack have taken or given back so far.
* `History` and `Effects` say, from every world and for every failure, what a history tells about
  the result of a run, which interfaces a command touches at all, and what its loops come to.
* `Settling`, `Collector`, `Exactness`, `Requests`, `Safety`, `Teardown`, `Failures`, `RoundTrip`,
  `AutoTeardown`, `Persistence`, `Transparency` are the theorems about whole commands and whole
  sequences of processes; `Requests` computes what is up from the commands alone, with sets and
  without counts. `Witnesses` gives configurations, over any names, in which they bite.
* `Engine` is the program itself: an `Interface` object per interface, a `StateDict`, and
  methods with the loops and the recursion of the source. Each is proved to do what the
  functions say, so every theorem above is about these methods. `Program` runs a process, and
  one process after the other, from parsed collection and state file text to state file text.
* `Depth`, `DepthOrder`, `DepthFormula`, `LinkedList`, `StableSort`, `Reorder`, `DependencyPass`,
  `Growth`, `Loading` are the dependency pass: the depth walk, the depths it ends with read off
  the graph, the re-linking of the doubly linked collection, and how the walk closes the
  collection by creating what is required.
* `Words`, `Tokenizer`, `Normalise`, `LineReader`, `LineReference`, `LineEnds`, `StateFile`,
  `StateLines`, `StateFields`, `GrowingBuffer`, `Netmask` are the texts: in-place tokenizer,
  normalisation of `requires` values, bounded line reader against a reference and for all line
  ends, the state file round trip, and lines of that file that the program does not write.

Names used below. A world is *resting* when nothing is pending and the dictionary mirrors the
counts. It is *settled* when moreover the ledger balances, exactly the configured interfaces
are counted, and each of those was asked for or is held by another one. An interface is
*configured* from the end of its own bring-up to the end of its own teardown; no branch of the
program reads that set, it exists only to be reasoned about. It is *asked for* while its explicit
flag is set, and *asked for by name* when it moreover is not an auto interface.

Where the program does not keep what its users may expect, the exact condition is proved:

* `Safety.TakeDownSafeIff`: `ifdown` of an interface that others still hold runs its phases all
  the same. The invariant survives if and only if nobody who stays up without the interface
  requires it; off cycles, if and only if its count before the call is 1.
* `Failures.FailedUpIff`: a failed `ifup` leaves references behind if and only if the interface
  is no template and requires something. `Failures.DownCanBreakIff`: a failing `ifdown` can do so
  if and only if the interface requires something that nobody else holds and nobody asked for.
* `RoundTrip.UpDownIff`: `ifdown` undoes `ifup` if and only if no dependency raised on the way
  is an auto interface, or on a cycle of its own.
* `Exactness.ConfiguredIsWanted`, `Exactness.CycleStays`: on cyclic graphs exactly the cycles
  leak.
* `DepthFormula.PassDepth`, `DepthFormula.SortsRequirersFirstByGraph`: depths are overwritten, so
  the order used by `ifdown -a` lists requirers first if and only if a formula over graph and
  list says so; `DepthOrder.TriangleSortsWrong` is a family where it does not.
* `AutoTeardown.IfDownAutoComplete`, `AutoTeardown.IfDownAutoTameIff`: in any order, `ifdown -a`
  on an acyclic graph takes everything down; it meets interfaces that others still hold if and
  only if an auto interface is listed before another one that requires it.
  `Witnesses.OverrunAutoWitness`: the dependency pass produces such lists.
* `Transparency.AlwaysAgreedIff`: one `ifdown` process for a list of interfaces does the same as
  one process each, for every list and every failure, if and only if no configured interface
  requires one that was asked for by name; that this is enough holds on every graph, that it is
  needed where no interface asked for by name is on a cycle. `Persistence.IfDownOnceTransparent`:
  from any settled state they agree for a list that names no interface twice, and none that
  others hold and nobody asked for. `Witnesses.StaleFlagWitness`: after naming one twice the last
  of three processes can fail where the one process succeeds.
* `StateLines.DeterminedIff`: a line of the state file determines its record if and only if
  something follows its mapping, if only a blank; the flag of a mapping alone is read from bytes
  that an earlier line left. `StateLines.ReadAbc` is a file of two lines that is misread.
* `Normalise.KeptIff`: a requirement is dropped if and only if an earlier one contains its name.

Where the documentation and the code differ, the model follows the code: `doc/ifstate.scd:30-33`
calls the count of a record the number of its active dependencies and optional; the code keeps
the number of active dependents plus one for the interface itself, and a line without a count is
read together with what lies behind it (`StateLines.BareLine`).

`dafny verify dfyconfig.toml` checks the whole project.

## Model

| member | source | states |
|---|---|---|
| `Exactness.CollectorExact` | libifupdown/lifecycle.c:343-500 | From nothing configured, after every sequence of successful processes whose teardowns respect holders, an interface is configured exactly when an explicit configured interface is it or requires it; on a cyclic graph, also when a configured cycle is or requires it. The whole invariant holds. |
| `Requests.RequestsExact` | cmd/ifupdown.c:250-338 | The same from the commands alone: who is up after such a sequence, and who of them is marked as asked for, is what a reference on sets of names computes, on every graph; on an acyclic graph an interface is up exactly when one asked for, named or auto and raised with it, is it or requires it. |
| `Requests.IfUpAutoExact` | cmd/ifupdown.c:197-227 | After a successful `ifup -a` exactly those are up that were up before, and the matching auto interfaces without configuration error and all they require. |
| `Requests.ExecuteShows` | cmd/ifupdown.c:287-338 | One process moves the world as the reference moves its two sets. |
| `Requests.RaiseShows` | cmd/ifupdown.c:149-195 | So does one successful `ifup`: it adds the interface and all it requires, and marks it and the auto ones among them. |
| `Requests.LowerShows` | cmd/ifupdown.c:149-195 | So does one successful `ifdown` at count at most 1: what stays is what another one asked for, or a cycle, is or requires. |
| `Exactness.ConfiguredIsWanted` | libifupdown/lifecycle.c:407-423 | In every settled state, on any graph, configured means wanted, in both directions. |
| `Exactness.HasRoot` | libifupdown/lifecycle.c:343-368 | From any configured interface a climb to those that require it ends at one somebody asked for, or on a cycle. |
| `Exactness.CycleStays` | libifupdown/lifecycle.c:374-380 | A configured cycle survives every teardown of an interface that only its own reference holds. |
| `Collector.ExecuteAllSettled` | cmd/ifupdown.c:250-338 | The ledger invariant holds at the end of every sequence of successful processes that take down no interface others hold. |
| `Collector.ExecuteSettled` | cmd/ifupdown.c:287-338 | One such process keeps the invariant, starting from the records alone. |
| `Collector.ChangeArgsSettled` | cmd/ifupdown.c:303-335 | So does the loop over the command line. |
| `Collector.ChangeAutoSettled` | cmd/ifupdown.c:197-227 | So does the loop of an `-a` command. |
| `Collector.Execute` | cmd/ifupdown.c:250-338 | Whatever fails in a process, it ends with no pending flag set and a dictionary that mirrors the counts. |
| `Collector.ExecuteAll` | cmd/ifupdown.c:250-338 | The same after any sequence of processes, failing or not, on any graph. |
| `Collector.ChangeResting` | cmd/ifupdown.c:149-195 | One change of an interface keeps that on every path. |
| `Settling.IfUpSettled` | cmd/ifupdown.c:149-195 | A successful `ifup` keeps the invariant on every graph. |
| `Settling.IfDownSettled` | cmd/ifupdown.c:149-195 | A successful `ifdown` of an interface with at most one reference keeps it, changes no explicit flag, configures nothing, and leaves the interface down. |
| `Settling.SettledSupplied` | libifupdown/lifecycle.c:386-435 | In a settled state every effective requirement of a configured interface is configured. |
| `Settling.BootEffect` | libifupdown/state.c:173-189 | A new process gets every count from the records, and the explicit flag of every counted interface; others have the flag of a fresh parse. Coherence is established. |
| `Settling.BootSettled` | libifupdown/state.c:173-189 | Starting over from the records keeps the invariant. |
| `Commands.SyncEffect` | libifupdown/state.c:173-189 | Synchronising overwrites exactly the counts and flags that have a record. |
| `Commands.ChangeInterface` | cmd/ifupdown.c:149-195 | On every path the pending flags end as they were. |
| `Safety.BringUpBlocks` | libifupdown/lifecycle.c:386-476 | Any bring-up, from any world, on any graph, failing or not, runs create, pre-up, up, post-up in one block per interface, at most once each, and besides the named interface only for interfaces whose count was 0. Whatever an interface requires was counted before, has started before it, or waits for it on the recursion stack; who waits has not started, requires it, and starts later if the run succeeds. |
| `Safety.BringUpSafety` | libifupdown/lifecycle.c:454-476 | In the ledger: each interface starts after all it requires is configured, or while that waits on the stack, which an acyclic graph excludes; after success all of it is configured. |
| `Safety.TeardownSafety` | libifupdown/lifecycle.c:478-496 | Taking down an interface at any count, failing or not, runs pre-down, down, post-down, destroy in one block per interface, none twice, the named one first; beyond it only interfaces that it requires and nobody asked for stop, each after all that require it; on success exactly those with a block are down. At count 1 nobody requires the named one either, and whatever stays configured keeps all it requires. |
| `Safety.TakeDownSafeIff` | cmd/ifupdown.c:138-146 | On any graph a successful `ifdown` keeps the invariant if and only if nobody held up without the interface requires it; off cycles, if and only if the count before the call is 1. |
| `Teardown.TakeDownExact` | libifupdown/lifecycle.c:478-496 | After a successful teardown, at any count, on any graph, exactly those are up that are, or are required around the named interface by, something asked for or on a cycle around it. |
| `Teardown.TakeDownExactAlone` | libifupdown/lifecycle.c:478-496 | At count 1: exactly those are up that another configured interface, asked for or on a cycle, is or requires. |
| `Teardown.HeldOffCycle` | cmd/ifupdown.c:138-146 | Off cycles, somebody who stays up requires the interface exactly when its count is not 1. |
| `Draining.RootDrained` | libifupdown/lifecycle.c:478-496 | A successful teardown at any count keeps the ledger and everything protected; only the named interface may be down and still counted. |
| `Draining.TakeDownDrain` | libifupdown/lifecycle.c:478-496 | The mid-run ledger of a teardown called for an interface with any count, on any graph. |
| `Draining.DrainOwed` | libifupdown/lifecycle.c:351-363 | In the middle of such a teardown, whatever is still to be given back is there, and what is protected keeps at least two references beyond it. |
| `Safety.TakeDownUntouched` | libifupdown/lifecycle.c:478-496 | On every path, whatever the interface does not require keeps its count and stays as it was. |
| `Safety.TakeDownCosts` | libifupdown/lifecycle.c:496 | Off cycles a successful teardown costs the interface exactly one reference. |
| `Failures.FailedUpIff` | libifupdown/lifecycle.c:407-434 | A failed `ifup` keeps the invariant if and only if the interface is a template or requires nothing that is not skipped. |
| `Failures.DownCanBreakIff` | libifupdown/lifecycle.c:403-434 | Before the call: some outcome makes `ifdown` at count 1 fail and break the invariant if and only if the interface requires something that nobody else holds and nobody asked for. |
| `Failures.NoCascade` | libifupdown/lifecycle.c:403-424 | If every requirement has a reference to spare or was asked for, the loop runs no phase, takes nothing down, and cannot fail. |
| `Failures.CascadeFails` | libifupdown/lifecycle.c:403-434 | Otherwise, when no phase succeeds any more, it fails in trying to take a requirement down, after the first phase of that one. |
| `Failures.FailedDownIff` | libifupdown/lifecycle.c:480-496 | A step of that: a failed `ifdown` at count 1 keeps the invariant if and only if the interface's own phases failed, and not those of something it requires. |
| `Failures.BringUpLeaks` | libifupdown/lifecycle.c:430-434 | After a failed bring-up, in the middle of any run, the ledger is off by exactly the references that unfinished interfaces took; there are some if and only if the failing interface required something. |
| `Failures.TakeDownLoses` | libifupdown/lifecycle.c:430-434 | After a failed teardown the ledger lacks exactly the references given back by interfaces still configured. |
| `RoundTrip.UpDownIff` | libifupdown/lifecycle.c:441-500 | On any graph `ifup x` then `ifdown x` restores every count and record if and only if no dependency raised on the way is an auto interface, or on a cycle that does not go through x. |
| `RoundTrip.SurvivorOffCycle` | libifupdown/lifecycle.c:417-424 | Where x is on no cycle, that is any cycle of the graph. |
| `RoundTrip.BringUpExact` | libifupdown/lifecycle.c:454-476 | A successful `ifup x` configures x and all it requires, and nothing else. |
| `RoundTrip.OldStays` | libifupdown/lifecycle.c:407-423 | Whatever was configured before the `ifup` stays up through the `ifdown`. |
| `RoundTrip.NewGoes` | libifupdown/lifecycle.c:417-424 | An interface raised by the `ifup` stays up only because of an auto one, or a cycle, raised with it. |
| `RoundTrip.BetweenEffect` | cmd/ifupdown.c:188-192 | What the second process reads: the closure is configured; old interfaces keep their flags, new ones have the flag of a fresh parse. |
| `AutoTeardown.IfDownAutoComplete` | cmd/ifupdown.c:197-227 | If configured explicit interfaces are auto, a successful `ifdown -a`, in any order of the list and whatever counts it meets, leaves up only what hangs on a cycle; on an acyclic graph all counts are 0 and the state is empty. |
| `AutoTeardown.IfDownAutoTameIff` | cmd/ifupdown.c:197-227 | On an acyclic graph it takes down no interface that others hold if and only if every auto interface that is up is listed before the auto interfaces it requires, directly or through others. |
| `AutoTeardown.DownFrom` | cmd/ifupdown.c:203-224 | From any position of any list on, the loop takes down every auto interface that is up, at any count. |
| `AutoTeardown.IfDownAutoBlocks` | cmd/ifupdown.c:197-227 | A successful `ifdown -a`, in any order of the list and on any graph, runs the down phases in one block for exactly the interfaces that are up before and not after, each once. |
| `AutoTeardown.FreeAtTurn` | cmd/ifupdown.c:138-144 | An auto interface that is up has no holder exactly when no other auto interface that is up requires it. |
| `AutoTeardown.TameFrom` | cmd/ifupdown.c:203-224 | From any position on, no holder is overrun if and only if the auto interfaces still up are in order. |
| `AutoTeardown.RequirersFirstOrders` | libifupdown/lifecycle.c:592-608 | A list with requirers first has no cycles and the auto interfaces in order. |
| `AutoTeardown.SortedByDepth` | libifupdown/lifecycle.c:592-608 | If depths grow along requirements, the sorted order lists requirers first. |
| `Persistence.IfUpTransparent` | cmd/ifupdown.c:263-291 | On every graph and outcome, one `ifup` process for a list of interfaces equals one process each with the state saved and loaded in between. |
| `Persistence.IfDownTransparent` | cmd/ifupdown.c:303-337 | For `ifdown`, in the ledger, on every graph and outcome, the two ways give equal counts, records, configured interfaces, history and exit status as long as each interface named is, when it is met, not counted, or configured and asked for, or configured at count 1. |
| `Persistence.IfDownOnceTransparent` | cmd/ifupdown.c:303-337 | Before the call: so it is from a settled state if no interface is named twice, and each was asked for or has count at most 1. |
| `Transparency.AlwaysAgreedIff` | cmd/ifupdown.c:303-337 | From a settled state the two ways agree for all arguments and all outcomes if no configured interface requires one that was asked for by name; and only if, when no such one is on a cycle. |
| `Transparency.FreshTransparent` | cmd/ifupdown.c:303-337 | The first half, from every coherent state and without the ledger. |
| `Transparency.SharedDiffers` | libifupdown/lifecycle.c:417-424 | The second half: an interface off cycles, asked for by name and required by a configured one, makes the two ways differ for some arguments. |
| `Transparency.TakeDownReads` | libifupdown/lifecycle.c:417-424 | From every world, a teardown depends on no explicit flags but those of the interface and of what it requires. |
| `Persistence.TakeDownFlags` | libifupdown/lifecycle.c:417-424 | In the ledger of a teardown called for an interface at any count, it depends on no explicit flag of an interface that is not counted. |
| `Persistence.BootIsIdentity` | libifupdown/state.c:173-189 | Saving and loading changes nothing when flags of uncounted interfaces are fresh. |
| `Coherence.BringUpCoherent` | libifupdown/lifecycle.c:454-476 | Every bring-up, failing ones included, keeps records and counts in agreement and lowers no count. |
| `Coherence.TakeDownCoherent` | libifupdown/lifecycle.c:478-496 | Every teardown keeps them in agreement and raises no count. |
| `Raising.BringUpInv` | libifupdown/lifecycle.c:454-476 | The mid-run ledger of bring-ups: counts are own references, edges of configured interfaces, and the edges taken so far by the stack; kept by every successful bring-up on any graph, cyclic or not. |
| `Raising.RaiseRequiredInv` | libifupdown/lifecycle.c:386-435 | The loop over requirements adds exactly its effective tokens to what the stack has taken. |
| `Raising.AcquireInv` | libifupdown/lifecycle.c:390-434 | One token of that loop. |
| `Dropping.TakeDownInv` | libifupdown/lifecycle.c:478-496 | The mid-run ledger of teardowns: counts plus what the stack has given back are own references and edges; kept by every successful teardown of an interface with one reference. |
| `Dropping.ReleaseRequiredInv` | libifupdown/lifecycle.c:386-435 | The loop over requirements adds exactly its effective tokens to what was given back. |
| `Dropping.OwedIsHeld` | libifupdown/lifecycle.c:351-363 | A reference that the stack still has to give back is there, so counts never underflow. |
| `BringUpOrder.BringUpBegins` | libifupdown/lifecycle.c:441-476 | Blocks, order and stack of a bring-up in the middle of any run, from any world. |
| `BringUpOrder.RaiseRequiredBegins` | libifupdown/lifecycle.c:386-435 | The same for the loop over requirements, after which every effective token is counted. |
| `TakeDownOrder.RootStops` | libifupdown/lifecycle.c:478-496 | Blocks and order of a teardown called for an interface at any count, in a ledger with interfaces that are down and still counted. |
| `TakeDownOrder.TakeDownStops` | libifupdown/lifecycle.c:478-496 | Order of a teardown in the middle of any run, below the interface that was named: the interface first, and only what it requires and nobody asked for. |
| `TakeDownOrder.ReleaseRequiredStops` | libifupdown/lifecycle.c:403-435 | Order of the loop over requirements on the way down. |
| `Lifecycle.BringUp` | libifupdown/lifecycle.c:441-476 | Ends on every graph, and on every path leaves the pending and explicit flags as they were. |
| `Lifecycle.TakeDown` | libifupdown/lifecycle.c:478-499 | The same for teardowns. |
| `Lifecycle.RunPhasesTrace` | libifupdown/lifecycle.c:464-474 | Executed phases are a prefix of the list, the whole list exactly on success. |
| `History.PhasesHonest` | libifupdown/lifecycle.c:464-474 | The phases of one interface go on exactly as long as they succeed: all but the last have succeeded, the last exactly on success; the first of the list is always run. |
| `History.BringUpHonest` | libifupdown/lifecycle.c:441-476 | From every world: every phase that a bring-up appends to the history but the last has succeeded; so has the last if it succeeds; without templates one that fails has run a phase, the last of which failed. No count falls. |
| `History.TakeDownHonest` | libifupdown/lifecycle.c:478-499 | The same for teardowns. |
| `History.ChangeHonest` | cmd/ifupdown.c:149-195 | The same for one command step. |
| `History.ArgsHonest` | cmd/ifupdown.c:303-335 | The same for the loop over known names: a failing phase is the last of the process. |
| `History.ExecuteTold` | cmd/ifupdown.c:293-337 | A process with known names, `-a` ones included, succeeds only if every phase it ran has succeeded, and without templates if so. |
| `Effects.ChangeEffect` | cmd/ifupdown.c:97-195 | From every world: a phase runs or a count changes exactly if the interface is no template, has no configuration error, and is uncounted going up or counted going down. A template always fails and changes nothing; a configuration error is skipped with success in both directions; the only flag ever set is that of an interface named for `ifup`, on success. |
| `Effects.ArgsInTurn` | cmd/ifupdown.c:303-335 | The names are changed in turn, each from the world the one before left, up to the first that is unknown or fails, which is the result; no later one is touched. |
| `Effects.AutoInTurn` | cmd/ifupdown.c:197-227 | An `-a` command changes every selected interface of the list in turn, whatever became of the others, and succeeds exactly if none failed. |
| `Effects.IfUpAutoTries` | cmd/ifupdown.c:203-224 | After `ifup -a` under any failures every matching auto interface without configuration error is counted, or a phase of its own, or of something it requires, was run and failed. |
| `Effects.IfDownAutoTries` | cmd/ifupdown.c:203-224 | After `ifdown -a` under any failures every such interface is not counted, or its pre-down phase was run. |
| `Success.BringUpSucceeds` | libifupdown/lifecycle.c:441-476 | Without templates, a bring-up fails only if a phase fails. |
| `Success.TakeDownSucceeds` | libifupdown/lifecycle.c:478-499 | Without templates, a teardown fails only if a phase fails. |
| `Success.ExecuteSucceeds` | cmd/ifupdown.c:293-337 | Without templates, a process that knows its arguments fails only if a phase fails. |
| `Witnesses.OverrunWitness` | cmd/ifupdown.c:138-146 | From nothing configured, over any names, a requires b: after `ifup a`, `ifdown b` meets count 2, succeeds, and the invariant is gone. |
| `Witnesses.MutualComesDown` | libifupdown/lifecycle.c:374-380 | a and b require each other: after `ifup a`, `ifdown a` meets count 2, everything comes down, and the invariant holds. |
| `Witnesses.FailedUpWitness` | libifupdown/lifecycle.c:407-434 | a requires b: a failing `ifup a` from nothing configured breaks the invariant. |
| `Witnesses.FailedDownWitness` | libifupdown/lifecycle.c:430-434 | a requires b: after `ifup a`, some `ifdown a` fails and breaks the invariant. |
| `Witnesses.AutoStaysWitness` | libifupdown/lifecycle.c:417-424 | a requires an auto b: `ifup a` then `ifdown a` does not restore the state. |
| `Witnesses.CycleLeaksWitness` | libifupdown/lifecycle.c:374-380 | c requires a, a and b require each other: `ifup c` then `ifdown c` leaves a and b up, which nobody asked for. |
| `Witnesses.OverrunAutoWitness` | libifupdown/lifecycle.c:513-515 | a requires b and c, b requires c, all auto: in the order that the dependency pass leaves, `ifup -a` and `ifdown -a` succeed, and the latter takes c down while others hold it. |
| `Witnesses.StaleFlagWitness` | libifupdown/state.c:84-96 | a requires c: after `ifup c a`, `ifdown c c a` in one process succeeds; in three processes with the same failures the last fails, because the record of c and with it its explicit flag is gone, and a stays up. |
| `Graphs.OwedAdd` | libifupdown/lifecycle.c:386-407 | Configuring an interface adds exactly its effective edges to the references owed. |
| `Graphs.OwedEdges` | libifupdown/lifecycle.c:390-401 | A name is owed a reference exactly when a member of the set requires it. |
| `Worlds.UpsertEffect` | libifupdown/state.c:98-110 | An upsert leaves exactly one record under the key, last, behind the others in their old order, and touches no other. |
| `Worlds.DeleteEffect` | libifupdown/state.c:112-125 | A delete removes exactly the record under the key. |
| `Worlds.DeleteLeaves` | libifupdown/state.c:112-125 | The others stay in their order. |
| `Worlds.RefCoherent` | libifupdown/state.c:77-82 | Taking a reference keeps the dictionary a mirror of the counts. |
| `Worlds.UnrefCoherent` | libifupdown/state.c:84-96 | So does giving one back, also at 0 and at 1. |
| `Worlds.UnrefUndoesRef` | libifupdown/state.c:77-96 | Giving back the reference just taken restores all counts, and the dictionary as a map. |
| `Engine.Session.Run` | libifupdown/lifecycle.c:441-500 | The lifecycle on objects does what the functions say, on every path. |
| `Engine.Session.HandleDependents` | libifupdown/lifecycle.c:370-439 | The loop between setting and clearing the pending flag does what the function says. |
| `Engine.Session.WalkTokens` | libifupdown/lifecycle.c:386-435 | So does the loop over tokens. |
| `Engine.Session.HandleDependent` | libifupdown/lifecycle.c:388-434 | So does one turn of it: skip on config error, count, skip if held or explicit, run. |
| `Engine.Session.HandleRefcounting` | libifupdown/lifecycle.c:343-368 | Counts in the given direction, and says skip exactly if the interface was up before, or still has more than one reference. |
| `Engine.Session.RunAllPhases` | libifupdown/lifecycle.c:464-474 | Runs phases in order and stops at the first that fails. |
| `Engine.Session.RefIf` | libifupdown/state.c:77-82 | Increments the count in the object and writes the record. |
| `Engine.Session.UnrefIf` | libifupdown/state.c:84-96 | Decrements the count unless it is 0; writes or deletes the record. |
| `Engine.Session.Upsert` | libifupdown/state.c:98-110 | Writes the record of an interface from its current count and flag. |
| `Engine.Session.SkipInterface` | cmd/ifupdown.c:97-147 | Says whether a command has nothing to do; marks an interface that is up already as explicit when it was named. |
| `Engine.Session.ChangeInterface` | cmd/ifupdown.c:149-195 | Skip, run, mark explicit, as the function says. |
| `Engine.Session.ChangeArgs` | cmd/ifupdown.c:303-335 | The loop over the command line ends at the first failure or unknown name. |
| `Engine.Session.ChangeAuto` | cmd/ifupdown.c:197-227 | The loop of an `-a` command goes on after failures and reports them at the end. |
| `Engine.Session.SyncState` | libifupdown/state.c:173-189 | Overwrites counts and flags of the objects from the records, in order. |
| `Engine.Process` | cmd/ifupdown.c:287-338 | A process with its collection in order: synchronising the records and doing what it was called for leaves the records, history and exit status of the function. |
| `Program.Run` | cmd/ifupdown.c:250-338 | From parsed collection and state file text to state file text, through the dependency pass: if an executor cannot tell its dependencies the process fails and the text stays; otherwise the text left behind is that of the resulting world over the closed, sorted collection, also on failure. |
| `Program.RunAll` | cmd/ifupdown.c:250-338 | Any sequence of such processes, each reading what its predecessor wrote, leaves the text of the world of the whole sequence. |
| `Program.StatePrintable` | libifupdown/state.c:127-140 | Under printable names and counts below ULONG_MAX, whatever a process writes can be read. |
| `Program.EmptyAfterDownAll` | cmd/ifupdown.c:293-299 | On an acyclic configuration the state file is empty after a successful `ifdown -a`. |
| `Program.ForestDownAll` | cmd/ifupdown.c:293-299 | Where no interface has two requirers, in an acyclic configuration without self-requirements, it moreover overruns no holder. |
| `Loading.ForestLoads` | libifupdown/lifecycle.c:546-611 | In such a configuration the pass leaves a list with requirers first. |
| `Loading.ClosedGraph` | libifupdown/lifecycle.c:531-564 | The collection that a successful pass leaves is closed, keeps old places, and the pass over it succeeds. |
| `Loading.LoadsIff` | libifupdown/lifecycle.c:506-564 | However the collection was parsed, the pass succeeds if and only if the executors of every parsed interface, and of every one that these lead to, can tell its dependencies; and the collection then has exactly those interfaces. |
| `StateDicts.StateDict.Find` | libifupdown/dict.c:88-102 | The first entry under a key. |
| `StateDicts.StateDict.Remove` | libifupdown/state.c:112-125 | Deletes that entry only. |
| `StateDicts.StateDict.Put` | libifupdown/state.c:98-110 | Deletes the entry under the key and appends the new one. |
| `Depth.DepthIsWalkLength` | libifupdown/lifecycle.c:502-564 | Every depth, on every graph and whether or not the pass succeeds, is the length of an actual chain of requirements ending at the interface. |
| `Depth.DepthZeroIff` | libifupdown/lifecycle.c:502-564 | After a successful pass the depth is 0 exactly when no other interface requires it. |
| `Depth.DepthBounded` | libifupdown/lifecycle.c:566-576 | Without loops every depth is below the number of interfaces. |
| `Depth.DepthStepsInForest` | libifupdown/lifecycle.c:526-540 | After a successful pass over a graph without loops in which no interface has two requirers, every requirement lies exactly one deeper than its requirer. |
| `Depth.PassKeeps` | libifupdown/lifecycle.c:551-564 | Any property that passes on along requirements holds of every depth the pass writes. |
| `Depth.PassSucceedsIff` | libifupdown/lifecycle.c:546-564 | Over a closed collection the pass succeeds if and only if the executors of every interface can tell its dependencies. |
| `DepthFormula.PassDepth` | libifupdown/lifecycle.c:502-564 | Without loops, the depth a successful pass ends with is 0 if nothing leads to the interface; otherwise that of the last interface in the list that leads to it, plus the length of the walk down from there that always takes the last token leading to it. |
| `DepthFormula.SortsRequirersFirstByGraph` | libifupdown/lifecycle.c:592-608 | Without loops, the sort lists requirers first if and only if by that formula every requirement is deeper than its requirer, or as deep and listed later to begin with. |
| `DepthFormula.VisitSweeps` | libifupdown/lifecycle.c:502-544 | One visit sets the depth of everything the interface leads to, by the last tokens on the way, and of nothing else. |
| `DepthOrder.SortsRequirersFirstIff` | libifupdown/lifecycle.c:592-608 | A step of that, on any graph: the same condition on the depths that the pass computed. |
| `DepthOrder.ForestSortsRequirersFirst` | libifupdown/lifecycle.c:592-608 | After a successful pass it does so whenever there are no loops and no self-requirements and no interface has two requirers. |
| `DepthOrder.TrianglePass` | libifupdown/lifecycle.c:513-515 | For a requires b and c, b requires c, listed c, b, a, the pass ends with depths 0, 1, 1: the last visit wins. |
| `DepthOrder.TriangleSortsWrong` | libifupdown/lifecycle.c:592-608 | There the sort lists c before b, which requires it. |
| `DepthOrder.TriangleExists` | libifupdown/lifecycle.c:513-515 | Such collections exist, over any three names. |
| `Engine.Session.CountInterface` | libifupdown/lifecycle.c:502-544 | The walk on objects counts what the function counts and leaves all pending flags as they were. |
| `Engine.Session.CountAll` | libifupdown/lifecycle.c:551-564 | So does the loop over the collection. |
| `DependencyPass.CountRdepends` | libifupdown/lifecycle.c:546-611 | The whole pass: a failed count leaves the list alone; otherwise it holds the same interface objects, stably sorted by the depths counted; nothing else of the process changes. |
| `Reorder.ReorderByDepth` | libifupdown/lifecycle.c:566-608 | Re-linking in place ends, keeps the list well formed with the same nodes and data, and yields the layers of ascending depth, each in its old order. |
| `Reorder.Drain` | libifupdown/lifecycle.c:578-590 | Moving every node to the head of the temporary list reverses the order. |
| `Reorder.MoveLayer` | libifupdown/lifecycle.c:593-608 | One turn of the outer loop moves exactly the nodes of one depth, and turns them around again. |
| `Reorder.Move` | libifupdown/lifecycle.c:584-589 | Deleting, clearing and inserting moves one node between two well-formed lists. |
| `Reorder.MaxDepth` | libifupdown/lifecycle.c:566-576 | The greatest depth in the list, or 0. |
| `StableSort.StableSortUnique` | libifupdown/lifecycle.c:592-608 | Ascending and stable determines the result. |
| `StableSort.LayersPermutation` | libifupdown/lifecycle.c:592-608 | It has the same elements, each as often. |
| `StableSort.LayersStable` | libifupdown/lifecycle.c:592-608 | Equal depths keep their order. |
| `StableSort.BeforeInLayers` | libifupdown/lifecycle.c:592-608 | One element comes before another if and only if it is less deep, or as deep and was before. |
| `LinkedLists.List.Insert` | libifupdown/list.c:37-58 | Inserting a cleared node at the head of a well-formed list; no other data changes. |
| `LinkedLists.List.InsertTail` | libifupdown/list.c:60-81 | The same at the tail. |
| `LinkedLists.List.Delete` | libifupdown/list.c:83-97 | Removing a node at any position keeps prev, next, head, tail and length well formed. |
| `Growth.PassCloses` | libifupdown/lifecycle.c:531-564 | However the collection was parsed, after a successful pass every required interface is in it, old ones keep their places, and the depths are those of the walk on the closed graph left behind. |
| `Growth.ExplorePass` | libifupdown/lifecycle.c:551-564 | The loop over a list that grows under it ends, and only appends. |
| `Growth.ExploreKnows` | libifupdown/lifecycle.c:531-540 | A successful visit leaves everything the interface requires in the collection. |
| `Growth.Collection.Lookup` | libifupdown/interface.c:283-299 | A lookup never fails: an unknown interface is created, uncounted, at the end of the list. |
| `Tokenizer.NextToken` | libifupdown/tokenize.h:39-55 | Writes one NUL, inside the buffer, behind the next word, and nothing else; says where the word starts and where to go on. In front of the word are only blanks, tabs, newlines, vertical tabs, form feeds and carriage returns; in it none; behind it one of them or the end. |
| `Tokenizer.TokenIs` | libifupdown/tokenize.h:39-55 | The string cut out is the first word, or empty if there is none. |
| `Tokenizer.CutOne` | libifupdown/tokenize.h:47-52 | Cutting a word off leaves exactly the other words. |
| `Tokenizer.TokensOf` | libifupdown/lifecycle.c:382-386 | The loop over the copied value gives exactly its words, in order: for words without any of these six characters, with any runs of them in between, exactly those words. |
| `Words.WordsOfSpaced` | libifupdown/tokenize.h:44-49 | Splitting words spaced by any runs of the six separators gives back the words. |
| `Normalise.Dedup` | libifupdown/lifecycle.c:277-287 | The in-place loop with its bounded appends computes the normal form whenever nothing needs truncation. |
| `Normalise.Query` | libifupdown/lifecycle.c:257-300 | The words of the result are those of the configured value and of every executor's answer, in order, empty answers skipped, less those inside an earlier kept one; every word of every answer is inside a word of the result. |
| `Normalise.QueryExecutors` | libifupdown/lifecycle.c:95-119 | The loop over the executors appends, after a blank, every answer that is not empty. |
| `Normalise.QuerySays` | libifupdown/lifecycle.c:95-119 | The same of the text that the answers are appended to. |
| `Normalise.ContainsIff` | libifupdown/lifecycle.c:282-283 | Found means that there is a text before and a text behind. |
| `Normalise.NormalFixpoint` | libifupdown/lifecycle.c:270-295 | Asking again with the same answers changes nothing, so the graph is stable while the walk asks again. |
| `Normalise.WordsOfNormal` | libifupdown/lifecycle.c:285-286 | Tokenizing the normal form gives back the kept words. |
| `Normalise.KeptIff` | libifupdown/lifecycle.c:282-283 | A name survives if and only if no name before its first occurrence contains it. |
| `Normalise.KeepCovers` | libifupdown/lifecycle.c:277-287 | Every name ends up inside a kept one. |
| `Normalise.FoundInJoin` | libifupdown/lifecycle.c:282-283 | A name is found in the text appended so far exactly when one kept name contains it: a match never spans a blank. |
| `Normalise.Eth1Dropped` | libifupdown/lifecycle.c:282-283 | After eth10, eth1 is dropped. |
| `LineReader.FGetLine` | libifupdown/fgetline.c:21-123 | For any stream and any size from 2, no store is out of bounds, the line is terminated, bytes behind the terminators are untouched, and NULL is returned exactly at the end of the file with nothing stored. |
| `LineReader.ReadInto` | libifupdown/fgetline.c:32-107 | The loop stores and consumes what the scan function says, branch by branch. |
| `LineReader.ScanFits` | libifupdown/fgetline.c:100-104 | Although one step can store two characters, the terminator still fits. |
| `LineReference.ReadAllIsLogicalLines` | libifupdown/fgetline.c:32-122 | For texts without carriage returns whose lines are terminated and fit, successive calls return exactly the lines of the text with comments stripped and continuations spliced. |
| `LineReference.ScanReadsLine` | libifupdown/fgetline.c:32-107 | One call returns the first such line and leaves the others. |
| `LineReference.CleanIsSpliceStrip` | libifupdown/fgetline.c:34-72 | The single scan does both at once. |
| `LineEnds.ReadAllReturns` | libifupdown/fgetline.c:73-97 | The lines read from a text with any line ends are the logical lines of the text with every carriage return, and a newline right behind it, made one newline, if no carriage return follows a backslash, no lone one is in a comment, the last line is terminated and the lines fit. |
| `LineEnds.ReadAllUnix` | libifupdown/fgetline.c:73-97 | Whether or not they fit or the last one is terminated, the same lines are read from both texts. |
| `LineEnds.BehindBackslash` | libifupdown/fgetline.c:34-105 | What a backslash does to the character behind it: newline and following blanks go, a hash sign goes with it, a carriage return becomes a newline in the line, before all others it stays. |
| `LineEnds.TrimmedBlanks` | libifupdown/fgetline.c:56-61 | The blanks that go are blanks and tabs, all of them. |
| `LineEnds.CommentGoesOn` | libifupdown/fgetline.c:42-45 | Nothing but a newline ends a comment. |
| `LineEnds.LongLine` | libifupdown/fgetline.c:32 | A line that does not fit is cut at the limit, and its rest is read as the next line. |
| `LineEnds.LastLine` | libifupdown/fgetline.c:109-122 | A last line without newline is returned as it is. |
| `LineEnds.CommentAtEnd` | libifupdown/fgetline.c:41-48 | A comment that runs into the end of the file leaves the byte 0xFF in the line. |
| `StateFile.ReadState` | libifupdown/state.c:22-59 | Reading what the writer printed gives the same records in the same order, whatever the buffer held before. |
| `StateFile.WriteState` | libifupdown/state.c:127-140 | One line per record. |
| `StateFile.ParsedLine` | libifupdown/state.c:29-55 | Whatever stale bytes follow it, a written line parses to its record. |
| `StateFile.ParseLine` | libifupdown/state.c:29-55 | The in-place parse of a line buffer: three tokens, count with its defaults, flag, and the split at the equals sign; and what that leaves in the buffer. |
| `StateLines.BareLine` | libifupdown/state.c:29-39 | For a line with at most one word and no blank behind it, the third token is taken from behind both terminators: the line parses inside the buffer exactly if that is terminated there, has count 1, and is explicit exactly if the word there is the keyword. |
| `StateFields.LineMeans` | libifupdown/state.c:29-55 | Every other line, whoever wrote it, means what its words say: the first the names, the second the count, exactly the keyword as third the flag; further ones nothing. |
| `StateFields.BareNames` | libifupdown/state.c:48-55 | The names of such a line are those of its word. |
| `StateFields.NamesAt` | libifupdown/state.c:48-55 | The first equals sign of the first word parts key and mapped name; without one, both are the word. |
| `StateFields.CountOfNumber` | libifupdown/state.c:40-46 | A count token means the decimal number at its front, whatever follows it, if that is neither zero nor at least ULONG_MAX, and one otherwise; a minus sign takes it from the word size. |
| `StateFields.CountOfOther` | libifupdown/state.c:40-46 | A token that starts with neither digit nor sign means one. |
| `StateFields.CountInside` | libifupdown/state.c:40-46 | No token makes a record with count zero. |
| `StateLines.LineDetermines` | libifupdown/state.c:29-55 | Every other line parses inside the buffer, to the same record whatever lies behind it. |
| `StateLines.DeterminedIff` | libifupdown/state.c:29-55 | Where the buffer has room for the keyword behind it, a line determines its record if and only if it is not such a line. |
| `StateLines.ReadMisread` | libifupdown/state.c:22-59 | A mapping alone, as long as mapping and count of an explicit record in the line before it, is recorded as explicit. |
| `StateLines.ReadAbc` | libifupdown/state.c:22-59 | Such a file: `xy=xy 10 explicit`, then `abc=abc`. |
| `StateFile.StrtoulOfDecimal` | libifupdown/state.c:42-45 | Reading a printed count gives it back, if it fits the word. |
| `StateFile.ReadAllOfRender` | libifupdown/state.c:127-140 | Successive calls of the line reader on a written file return its lines. |
| `GrowingBuffer.Buffer.Append` | libifupdown/lifecycle.c:128-159 | With at most one doubling every value shorter than the initial length fits: nothing is stored out of bounds, and the contents grow by the value and a blank. |
| `GrowingBuffer.Collect` | libifupdown/lifecycle.c:183-220 | Any sequence of such values ends up in the buffer, value i where the lengths and blanks of the values before it end, with a blank behind it, and nothing else. |
| `Netmask.CountSetBits` | libifupdown/interface.c:80-84 | Complement and shift counts the leading one bits of every 32-bit word. |
| `Netmask.ContiguousIff` | libifupdown/interface.c:75-84 | That is the number of set bits exactly for contiguous masks (section 3.1 of RFC 4632). |
| `Netmask.PrefixRoundTrip` | libifupdown/interface.c:75-84 | Prefix length to mask and back. |

## Left out

- `--force`: both checks that it disables are modelled as always on.
- Aliases (`wlan0=home`): the logical name of an interface is its own name, so every record maps a name to itself; a record of an interface that the configuration no longer knows is not modelled.
- Execution of phases: executors, commands, scripts, time limits and locks are one arbitrary outcome per phase, a function of the history. Two processes at the same time are not modelled.
- `configured`: the set of interfaces between their own bring-up and teardown is auxiliary; the program keeps no such set.
- `Engine.Session.WalkTokens`: takes the words of the `requires` value as a sequence; `Tokenizer.TokensOf` and `Normalise.WordsOfNormal` tie that sequence to the text. The truncation of values of 4095 characters and more is not modelled.
- `Normalise.Query`: the executors' answers are a fixed list of texts; a failing query appears only as the set of interfaces whose executors cannot tell (`broken`).
- `Engine.Session.CountInterface`: works on a closed collection; that lookups during the walk create interfaces, and that this changes no depth, is `Growth`, on values. `Program.Run` closes the collection by that function before it counts and sorts the objects.
- `Program.Run`: the compatibility pass between the dependency pass and the synchronisation is not modelled, and the parsed configuration is the same for every process of a sequence.
- `Program.RunAll`: the same two limits, for every process of the sequence.
- `Transparency.AlwaysAgreedIff`: on graphs in which an interface asked for by name is on a cycle the condition is shown to be enough, not to be needed: there it depends on how many times each of the others is still counted.
- `StateDicts.StateDict.Put`: the dictionary is a sequence held by an object; the linked nodes and the freeing of memory under it are not repeated there.
- `StateFile.ReadState`: concerns files that the writer produced; for other files `StateLines` and `StateFields` say what single lines mean, and no theorem is about a whole file but `StateLines.ReadMisread`. Lines whose third token runs off the buffer are not modelled.
- Counts in memory are unbounded; the state file needs them below ULONG_MAX.
- `LineReader.FGetLine`: read errors of the stream, and sizes below 2, are not modelled.
- `Normalise.NormalFixpoint`: for answers that start with a blank, which is how the program appends them.
- The pattern options of `-a` commands appear as the set of matching names.
- Allocation failure, freeing of memory, printed messages, `--no-act`.
- The parser of the configuration file, inheritance, the VLAN and bridge compatibility pass, `ifquery`, `ifparse`, `ifctrstat`, address formatting: finite dispatch and text output that would add only easy members.
