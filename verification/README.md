# Electrologic circuit core in Dafny

Electrologic is a browser editor for logic circuits. The user places
gates (AND, OR, NAND, NOR), simple switches and lamps on a field. Each
placed element has connector children. Two clicks on connectors of
different elements join them with a connection, provided one end is an
input and the other an output. A connection carries an `active` flag.
When a flag changes, the element on the connection's input side runs its
`updateOutput` again. A gate evaluates its inputs and drives its outputs.
A switch drives its output with its own state. A lamp lights when its
input is energised. Circuits are saved under a name and loaded back next
to what is already on the field; colliding element ids are renamed.

This project models the four core scripts under `js/circuit/`:

- `circuit-predefinitions.js`: the gate catalogue and the evaluators.
  Modelled by the datatypes and pure functions of module `Predefinitions`.
- `circuit-classes.js`: `CircuitConnection` and the descriptor's
  connector filters. Modelled by module `CircuitClasses`.
- `circuit-functions.js`: the editor's global state and its handlers.
  - `getId` and `loadElementIds` are modelled in module `Ids`, with class
    `IdCounters` holding the `elementIds` table.
  - Signal resolution and the propagation cascade are specified as pure
    functions in module `Propagation`.
  - Splicing, removal, connector selection, element building and the
    circuit snapshot are specified as pure functions in module `Editing`.
  - Class `CircuitFunctions.Editor` holds the mutable globals
    (`connections`, `currentConnection`, the `elements` registry, the
    elements on the page) as fields. Its methods run the source's loops
    and are each proved equal to the specification functions above.
- `circuit-persistence.js`: the list of saved circuits (class
  `Persistence.CircuitStore`), `pushCircuit`, the save and load handlers
  and `buildCircuit`.

Conventions of the model:

- A JavaScript value that may be `undefined` is an `Option`.
- A JavaScript throw that ends a handler is an `ok` result of `false`.
  The state is then the state at the throw.
- The DOM is modelled by the elements on the page in document order.
  Each element has its id, its `data-code`, the demonstration flag, the
  switch's `active` attribute, whether its lamp light is lit, and its
  child nodes. Lookups by id take the first match.
- The mutation observers that react to a connection's state change are
  called synchronously and depth first. A `fuel` parameter bounds the
  depth of the cascade.

Four behaviours of the code that are easy to miss, all modelled as written:

- A second click on a connector of the origin's own element leaves the
  pending origin in place; it is not cleared.
- The pending connection draws its id at the first click on a connector
  of a placed element, not at commit.
- Removing a connection whose id is not in the list removes the last
  connection, and removing an element always runs into this (see
  Findings), so connections unrelated to the element can go too.
- Loading a circuit renames colliding element ids only. Connector ids in
  the saved connections are kept, while the loaded elements get new
  connector ids drawn from the counters; nothing rewrites the saved
  connector ids to match them.

## Model

| member | source | states |
|---|---|---|
| Predefinitions.Describe | js/circuit/circuit-functions.js:127-129 | A found descriptor's gate code equals the given data-code (lower-case gate codes, so exact match); an unknown code finds none |
| Predefinitions.DescribeCode | js/circuit/circuit-predefinitions.js:40-169 | Looking up each of the six catalogue codes finds its own descriptor |
| Predefinitions.ReduceConj | js/circuit/circuit-predefinitions.js:57-61 | A left fold with `&&` is true iff the seed and every element are true |
| Predefinitions.ReduceDisj | js/circuit/circuit-predefinitions.js:79-83 | A left fold with `\|\|` is true iff the seed or some element is true |
| Predefinitions.AndIsConjunction | js/circuit/circuit-predefinitions.js:56-62 | On a non-empty input list the AND evaluator (seeded with the first input) is true iff every input is on |
| Predefinitions.OrIsDisjunction | js/circuit/circuit-predefinitions.js:78-84 | On a non-empty input list the OR evaluator is true iff some input is on |
| Predefinitions.NegatedGates | js/circuit/circuit-predefinitions.js:85-128 | NAND is the negation of AND and NOR of OR on every list (the empty list included); on a non-empty list NAND is true iff some input is off and NOR iff every input is off |
| Ids.Lower | js/circuit/circuit-functions.js:173 | `toLowerCase` keeps the length and lower-cases each character |
| Ids.LowerOfLower | js/circuit/circuit-functions.js:173 | A string without upper-case letters is unchanged by `toLowerCase` |
| Ids.Decimal | js/circuit/circuit-functions.js:173 | The decimal text of a counter in a template literal is never empty |
| Ids.DecimalValue | js/circuit/circuit-functions.js:173 | The decimal text consists of digits and reads back as the number |
| Ids.DecimalInjective | js/circuit/circuit-functions.js:173 | Different counter values give different decimal texts |
| Ids.IdTextInjective | js/circuit/circuit-functions.js:172-174 | Two `code-n` ids of the same code are equal only when their numbers are |
| Ids.RunNumbers | js/circuit/circuit-functions.js:172-174 | Successive `getId` calls for a registered code return `code-n`, `code-(n+1)`, ... from the counter's value `n` |
| Ids.RunNeverRepeats | js/circuit/circuit-functions.js:172-174 | Successive `getId` calls for a registered code never return the same id twice |
| Ids.UnregisteredRepeats | js/circuit/circuit-functions.js:172-174 | For a code with no counter under its lower-cased form, `getId` returns `code-NaN` on both of two calls |
| Ids.CatalogueCountersStartAtOne | js/circuit/circuit-functions.js:4-15 | After `loadElementIds`, every catalogue code (lower-cased as `getId` reads it) has a counter of 1 |
| Ids.IdCounters.constructor | js/circuit/circuit-functions.js:4-15 | `loadElementIds` sets a counter of 1 for the six gate codes and the five custom keys, and nothing else |
| Ids.IdCounters.GetId | js/circuit/circuit-functions.js:172-174 | The id and the new counters are those of `Allocate` on the old counters; for a registered code the id is `code-n` and only that counter goes up by one |
| CircuitClasses.FilterMembers | js/circuit/circuit-classes.js:39-53 | A child is in the filtered list iff it is a connector child whose table entry has `input === flag` |
| CircuitClasses.FilterAppend | js/circuit/circuit-classes.js:39-53 | The connector filter keeps child order: filtering a concatenation is concatenating the filtered parts |
| CircuitClasses.RolesDisjoint | js/circuit/circuit-classes.js:39-53 | No child is both an input and an output connector; a table entry without `input` (button, light) and a non-connector child are in neither list |
| Propagation.SetActive | js/circuit/circuit-functions.js:756-764 | Exactly the connections touching the connector get `active = b`; all others are unchanged; the length is kept |
| Propagation.Driving | js/circuit/circuit-functions.js:781-783 | Driving a list of connectors keeps the connection list's length |
| Propagation.DriveEffect | js/circuit/circuit-functions.js:781-783 | After driving the connectors `ks` to `b`, a connection touching one of them is active iff `b`, and every other connection is as before |
| Propagation.DriveNext | js/circuit/circuit-functions.js:781-783 | Driving one more connector extends the sequential drive by `SetActive` and by the connections it writes |
| Propagation.ConnectionIndex | js/circuit/circuit-functions.js:136-140 | The index of the first connection with the id, or none iff no connection has it |
| Propagation.OwnerIndex | js/circuit/circuit-functions.js:564 | The first element with a child of the given id, or none iff no element has one |
| Propagation.ElementIndex | js/circuit/circuit-functions.js:533 | The first element with the given id, or none iff no element has it |
| Propagation.CascadeOfStep | js/circuit/circuit-functions.js:558-567 | A cascade is the update's own step followed by the change handlers of every connection it wrote |
| Propagation.NotifyAllStep | js/circuit/circuit-functions.js:558-567 | Running the handlers from position `j` on is running the handler at `j`, then the rest |
| Propagation.Listener | js/circuit/circuit-functions.js:558-567 | The handler of a connection re-runs an element iff the connection exists and its `inputConnectorId` is owned by an element; that element is in range |
| Propagation.LogicGateStep | js/circuit/circuit-functions.js:772-785 | A logic gate with no input connector changes nothing; otherwise its output connections get the evaluator's verdict on the input states, and nothing else changes |
| Propagation.SwitchStep | js/circuit/circuit-predefinitions.js:139-148 | The switch drives every connection on its output connectors with its `active` flag; elements are unchanged |
| Propagation.LampStep | js/circuit/circuit-predefinitions.js:158-168 | The light the selector finds, under the first element with the lamp's id that holds one (the lamp itself or an earlier element sharing its id), is lit iff the lamp's first input connector is energised (false with no connection); no connection or other element changes and nothing is written; with no such light nothing changes |
| Propagation.LampLightsItself | js/circuit/circuit-predefinitions.js:161 | A lamp with a non-empty id that no earlier element shares finds its own light |
| Propagation.LightIndex | js/circuit/circuit-predefinitions.js:161 | The selector's light belongs to the first element with the id that holds a light; none iff the id is empty or no such element exists |
| Propagation.DriveKeepsWiring | js/circuit/circuit-functions.js:756-764 | Driving changes `active` flags only |
| Propagation.StepKeepsWiring | js/circuit/circuit-functions.js:772-785 | One `updateOutput` changes connection flags and lamp states only |
| Propagation.CascadeKeepsWiring | js/circuit/circuit-functions.js:558-567 | A whole cascade, at any depth, adds, removes, reorders or rewires no connection and rebuilds no element |
| Propagation.NotifyAllKeepsWiring | js/circuit/circuit-functions.js:558-567 | A sequence of change handlers changes flags and lamp states only |
| Propagation.NotifyKeepsWiring | js/circuit/circuit-functions.js:558-567 | One change handler changes flags and lamp states only |
| Editing.ConnectorOwner | js/circuit/circuit-functions.js:532 | A found owner is an element with a child of the given id |
| Editing.ElementById | js/circuit/circuit-functions.js:797 | A found element has the id; a non-empty id present on the page is always found |
| Editing.OutputSide | js/circuit/circuit-functions.js:532-535 | When `buildConnection` does not throw, both connector ids resolved and the element re-run has a descriptor |
| Editing.InputSide | js/circuit/circuit-functions.js:115-117 | When `removeConnection` does not throw, the element re-run has a descriptor and the same id as an element owning the input connector (with repeated ids it can be a different element of that id) |
| Editing.LastIndexOf | js/circuit/circuit-functions.js:102-108 | The filter callback leaves the index of the last connection with the id, or -1 iff there is none |
| Editing.SpliceById | js/circuit/circuit-functions.js:101-109 | As written: the last entry with the id is removed; with no match, `splice(-1, 1)` removes the last entry of the list |
| Editing.Without | js/circuit/circuit-functions.js:101-109 | Intended: the last entry with the id is removed, and an absent id removes nothing |
| Editing.UnlinkAllStops | js/circuit/circuit-functions.js:90-92 | Once a `removeConnection` throws, the loop over the rest is never reached |
| Editing.Associated | js/circuit/circuit-functions.js:82-84 | The connections kept by the first filter are exactly those with the element at an end |
| Editing.Kept | js/circuit/circuit-functions.js:86-88 | The connections kept by the second filter are exactly those without the element at an end |
| Editing.Drop | js/circuit/circuit-functions.js:94 | `element.remove()` takes exactly the node at the index off the page |
| Editing.UnlinkWiredFrom | js/circuit/circuit-functions.js:101-120 | After the splice and the cascade, every surviving connection was wired so before; no element moves |
| Editing.UnlinkAllShape | js/circuit/circuit-functions.js:90-92 | The loop adds and rewires no connection and moves no element; as written, each completed call takes one entry off a non-empty list |
| Editing.RemovalDisconnects | js/circuit/circuit-functions.js:81-95 | After `removeElement`, thrown or not, no connection has the removed element at either end |
| Editing.RemovalCount | js/circuit/circuit-functions.js:81-95 | As written, a completed removal leaves max(0, kept − associated) connections, because each `removeConnection` finds nothing and splices off the last entry |
| Editing.UnlinkAllAbsent | js/circuit/circuit-functions.js:90-92 | With the intended splice, unlinking connections absent from the list keeps the list's wiring |
| Editing.IntendedRemovalKeepsOthers | js/circuit/circuit-functions.js:81-95 | With the intended splice and distinct ids, a completed removal leaves exactly the untouched connections, in order and wired as before |
| Editing.UnlinkSplicesOther | js/circuit/circuit-functions.js:101-109 | Counterexample: `removeConnection(w1)` on a list holding only `w2` removes `w2` and completes |
| Editing.RemovalDropsUnrelated | js/circuit/circuit-functions.js:81-109 | Counterexample: removing a lamp wired by `w1` also drops the unrelated `w2`, leaving no connection |
| Editing.PortFlag | js/circuit/circuit-functions.js:457-460 | A port's `input` flag is read only from an element with the id whose code has a descriptor; otherwise the lookup throws |
| Editing.Origin | js/circuit/circuit-functions.js:483-485 | The first click sets the origin id, connector id and index from the clicked connector and nothing else |
| Editing.Decide | js/circuit/circuit-functions.js:443-486 | The click records the origin iff none is pending; it restarts from this connector iff the pending connection already has a destiny; it does nothing (the origin stays pending) iff the click is on the origin's own element; on a second click on another element it throws iff either port's flag cannot be read, resets iff both read the same `input` flag, and commits iff they read different flags |
| Editing.CommitJoinsOppositePorts | js/circuit/circuit-functions.js:453-477 | A committed connection joins two different elements whose ports have different `input` flags, keeps the id and origin, takes the clicked connector as destiny, and its `inputConnectorId` is the input end |
| Editing.MakeChild | js/circuit/circuit-functions.js:218-254 | Each table entry gives a child of its kind (button, light, or connector with its index) with the drawn id |
| Editing.Furnish | js/circuit/circuit-functions.js:205-254 | A built element has the picture first, then one child per table entry, each of the entry's kind |
| Editing.FurnishNext | js/circuit/circuit-functions.js:218-254 | One more table entry appends its child with the id its counter gives, and advances that counter |
| Editing.LogicPorts | js/circuit/circuit-predefinitions.js:41-128 | A two-input gate's inputs are its first two connectors and its output the third |
| Editing.SwitchPorts | js/circuit/circuit-predefinitions.js:129-138 | The switch has no input connector and one output connector |
| Editing.LampPorts | js/circuit/circuit-predefinitions.js:150-157 | The lamp has one input connector and no output connector |
| Editing.BuiltPorts | js/circuit/circuit-functions.js:205-254 | Every element `buildElement` makes has its connectors indexed into its table and the port layout of its kind |
| Editing.Identify | js/circuit/circuit-functions.js:441-442 | A pending connection without a truthy id draws one from the `connection` counter; one with an id is unchanged; afterwards the id is truthy |
| Editing.SavedElements | js/circuit/circuit-functions.js:790-805 | Intended snapshot: at most one saved element per registry key, each a non-demonstration element on the page with its id and code, and every key whose element is on the page and not a demonstration is saved |
| Editing.SavedAt | js/circuit/circuit-functions.js:796-799 | A key is saved iff an element on the page has that non-empty id and the first such element is not a demonstration; the saved entry carries the key and that element's code |
| Editing.SavedElementsConcat | js/circuit/circuit-functions.js:795-800 | The saved list follows the registry key order: keys `a` then `b` save the list of `a` followed by the list of `b` |
| Editing.SavedElementsSingle | js/circuit/circuit-functions.js:796-799 | One key saves exactly its own contribution, so with `SavedElementsConcat` the list is determined key by key |
| Editing.Snapshot | js/circuit/circuit-functions.js:790-805 | As written: throws iff some registry key has no element on the page; otherwise it is the intended snapshot |
| Editing.SnapshotAfterRemoval | js/circuit/circuit-functions.js:81-95 | After an element with a unique registered id is removed, the snapshot throws |
| Editing.Unknown | js/circuit/circuit-functions.js:34-45 | The palette codes skipped by `initializeWindow` are exactly those without a descriptor |
| Editing.Known | js/circuit/circuit-functions.js:34-45 | The palette codes `initializeWindow` builds are exactly those with a descriptor; together with the skipped ones they account for every code |
| Editing.Register | js/circuit/circuit-functions.js:266-268 | `elements[id] = node` keeps the old keys in order and adds a truthy id, and nothing else; it adds no duplicate key |
| Editing.Demonstrate | js/circuit/circuit-functions.js:34-45 | A palette code with a descriptor appends one demonstration element with that code and an id from the code's counter, registered; any other code changes nothing |
| Editing.PaletteAppendsKnown | js/circuit/circuit-functions.js:20-50 | `initializeWindow` appends one demonstration element per code with a descriptor, in palette order, after the elements already there |
| Editing.PaletteKnownDemos | js/circuit/circuit-functions.js:20-50 | The palette additions are demonstrations with a descriptor, as many as the codes minus the unknown ones, with the known codes in order |
| Editing.DemonstrationsGrow | js/circuit/circuit-functions.js:34-45 | One more demonstration element for a known code extends the demonstrations by that code |
| Editing.OutputSideLayout | js/circuit/circuit-functions.js:528-535 | Whether drawing a connection throws, and which element it re-runs, does not depend on lamp states |
| Editing.SampleDrive | js/circuit/circuit-predefinitions.js:139-148 | Driving the switch's output `c2` sets the wire `w` to the switch state and reports `w` written |
| Editing.SampleSwitchStep | js/circuit/circuit-predefinitions.js:139-148 | The switch's update sets the wire to the switch state and reports it written |
| Editing.SampleSwitchOutputs | js/circuit/circuit-predefinitions.js:129-138 | The sample switch has a descriptor and its one output connector is `c2` |
| Editing.SampleLampStep | js/circuit/circuit-predefinitions.js:158-168 | The lamp's update lights it with the wire's state and writes no connection |
| Editing.SampleWireHandler | js/circuit/circuit-functions.js:558-567 | The wire's change handler re-runs the lamp, the owner of `c1` |
| Editing.SwitchLightsLamp | js/circuit/circuit-functions.js:558-567 | A switch wired to a lamp: after one level of cascade the lamp is lit iff the switch is on, and the wire carries the switch's state |
| CircuitFunctions.Editor.constructor | js/circuit/circuit-predefinitions.js:13-21 | The page starts with no elements, keys or connections, a blank pending connection and fresh counters |
| CircuitFunctions.Editor.GetConnectorsStates | js/circuit/circuit-functions.js:727-749 | One state per connector: true iff some connection touching it is active |
| CircuitFunctions.Editor.SetConnectionState | js/circuit/circuit-functions.js:543-552 | Only the `active` flag of the given connection changes, to `b` |
| CircuitFunctions.Editor.SetConnectorConnectionsState | js/circuit/circuit-functions.js:756-764 | The connection list becomes `SetActive(old, k, b)`; the written connections are those touching `k`, in order |
| CircuitFunctions.Editor.DriveOutputs | js/circuit/circuit-functions.js:781-783 | The loop over the output connectors computes `Drive` on the old list |
| CircuitFunctions.Editor.UpdateOutput | js/circuit/circuit-predefinitions.js:56-168 | Running `updateOutput` of element `i` computes `Step` on the old state, so it has the per-kind effects of `LogicGateStep`, `SwitchStep` and `LampStep` (the lamp writing the light found by its id) |
| CircuitFunctions.Editor.Refresh | js/circuit/circuit-functions.js:558-567 | An update and its handlers compute `Cascade` on the old state |
| CircuitFunctions.Editor.NotifyEach | js/circuit/circuit-functions.js:558-567 | The handlers of the written connections compute `NotifyAll` on the old state |
| CircuitFunctions.Editor.HandleConnectionElectricChange | js/circuit/circuit-functions.js:558-567 | The handler computes `Notify` on the old state |
| CircuitFunctions.Editor.FindConnectionIndex | js/circuit/circuit-functions.js:102-108 | Returns the index of a connection with the id, or -1 iff no connection has it |
| CircuitFunctions.Editor.InsertConnection | js/circuit/circuit-functions.js:498-536 | The connection is appended; it throws iff the output side cannot be resolved; otherwise the state is the cascade from the output side; wiring and layout are those of the append |
| CircuitFunctions.Editor.RemoveConnection | js/circuit/circuit-functions.js:101-120 | The as-written splice then the cascade from the input side; deselects unless it throws; one entry fewer on a non-empty list; nothing rewired |
| CircuitFunctions.Editor.RemoveElement | js/circuit/circuit-functions.js:81-95 | The state is `Removal` as written; no connection involves the element afterwards; the registry keeps its id; the selection is reset iff the first associated `removeConnection` completes |
| CircuitFunctions.Editor.UnlinkEach | js/circuit/circuit-functions.js:90-92 | The loop computes `UnlinkAll` as written and moves no element; the selection is reset iff its first `removeConnection` completes, and kept otherwise |
| CircuitFunctions.Editor.SelectConnection | js/circuit/circuit-functions.js:583-607 | An empty id resets the selection; an id equal to the selection keeps it; another id selects the first connection with it and throws, leaving the selection undefined, when there is none |
| CircuitFunctions.Editor.RemoveSelectedConnection | js/circuit/circuit-functions.js:56-63 | With no selection nothing happens; otherwise `removeConnection` of the selection, which resets the selection iff it completes |
| CircuitFunctions.Editor.SelectConnector | js/circuit/circuit-functions.js:437-492 | A click on a demonstration is ignored; otherwise the pending connection gets an id and the click sets the origin, restarts, stays, throws, resets `currentConnection` (same readable flags) or appends exactly the committed connection and runs its cascade (different readable flags) as `Decide` says |
| CircuitFunctions.Editor.BuildElement | js/circuit/circuit-functions.js:205-269 | The new element has the children `Furnish` gives and the counters advance accordingly; a truthy id not yet registered is appended to the registry |
| CircuitFunctions.Editor.InitializeWindow | js/circuit/circuit-functions.js:20-50 | Elements, registry and counters are `Palette` of the old ones: one demonstration element per code with a descriptor, in palette order with its code; unknown codes are skipped |
| CircuitFunctions.Editor.PlaceDemo | js/circuit/circuit-functions.js:34-45 | A palette code with a descriptor adds one demonstration element with an id from the code's counter and the children `Furnish` gives, registers the id and advances the counters; otherwise nothing changes |
| CircuitFunctions.Editor.ClickField | js/circuit/circuit-functions.js:146-166 | The selection is reset; with a pending palette kind, a new element with an id from its counter and the children `Furnish` gives is placed and its id registered |
| CircuitFunctions.Editor.ToggleSwitch | js/circuit/circuit-functions.js:275-283 | The switch's `active` flag flips, then the cascade from the switch runs |
| CircuitFunctions.Editor.GetCurrentCircuit | js/circuit/circuit-functions.js:790-805 | Throws iff some registry key has no element on the page; otherwise the unnamed circuit of the intended snapshot and the connections |
| Persistence.LastNamed | js/circuit/circuit-persistence.js:85-91 | The index `pushCircuit` records is that of the last circuit with the name, or none iff no circuit has it |
| Persistence.Pushed | js/circuit/circuit-persistence.js:84-97 | The pushed list contains the circuit; every entry but the last one with the circuit's name stays in place; the length grows by one iff the name was new |
| Persistence.FindCircuit | js/circuit/circuit-persistence.js:57-59 | The first circuit with the name, or none iff no circuit has it |
| Persistence.PushedKeepsNamesDistinct | js/circuit/circuit-persistence.js:84-97 | Pushing keeps saved names distinct |
| Persistence.SaveThenFind | js/circuit/circuit-persistence.js:84-97 | With distinct names, finding a name right after pushing a circuit under it gives back that circuit |
| Persistence.CircuitStore.constructor | js/circuit/circuit-persistence.js:10-14 | An empty list when nothing is stored yet, else the stored list |
| Persistence.CircuitStore.PushCircuit | js/circuit/circuit-persistence.js:84-97 | The loop computes `Pushed` on the old list |
| Persistence.CircuitStore.HandleSave | js/circuit/circuit-persistence.js:27-40 | Saves iff the name is new or the overwrite is confirmed, and the snapshot does not throw; with distinct names the saved circuit is then found under its name |
| Persistence.CircuitStore.HandleLoad | js/circuit/circuit-persistence.js:46-66 | A falsy or unknown name changes nothing; otherwise the first circuit with the name is loaded as `buildCircuit` does (`Loaded`: registry, counters, elements and connections, and the cause of a throw) |
| Persistence.FreshIds | js/circuit/circuit-persistence.js:124-131 | As written: the table is keyed by exactly the incoming ids |
| Persistence.FreshIdsRound | js/circuit/circuit-persistence.js:125-130 | One round: a free id maps to itself; a live id maps to a `getId` of the saved code; other entries stay |
| Persistence.FreshIdsRenameLive | js/circuit/circuit-persistence.js:124-131 | Free incoming ids keep their name; live ones are renamed to a `code-n` id of a saved element's code |
| Persistence.RoundRenamesLive | js/circuit/circuit-persistence.js:125-130 | One round keeps every live incoming id renamed to a `code-n` id of its saved code |
| Persistence.ReloadRepeatsId | js/circuit/circuit-persistence.js:124-131 | Counterexample: loading the same circuit twice next to an AND palette entry gives two elements `and-2` |
| Persistence.PageIds | js/circuit/circuit-persistence.js:126 | Every id live on the page is among the page ids |
| Persistence.NextFree | js/circuit/circuit-persistence.js:127 | The first number from the counter on whose `code-n` id is not to be avoided |
| Persistence.FreshIdsAvoiding | js/circuit/circuit-persistence.js:124-131 | Intended: the table is keyed by exactly the incoming ids |
| Persistence.AvoidingRound | js/circuit/circuit-persistence.js:125-130 | One intended round: a free id maps to itself; a live id maps to an id outside the avoided ids and the ids already given |
| Persistence.AvoidingPlacement | js/circuit/circuit-persistence.js:124-131 | Intended renaming keeps free ids and moves colliding ones out of the avoided ids |
| Persistence.AvoidingInjective | js/circuit/circuit-persistence.js:124-131 | Intended renaming never gives two incoming ids the same new id |
| Persistence.IntendedLoadKeepsIdsApart | js/circuit/circuit-persistence.js:124-131 | Avoiding the page ids and the incoming ids, no loaded element takes a live id and no two loaded elements share one |
| Persistence.Remap | js/circuit/circuit-persistence.js:149-153 | Indices and state are as saved; each of the six id fields whose value is a key of the table takes the mapped id, one whose value is no key is kept, and an absent one stays absent; an identity table changes nothing |
| Persistence.FreeIdsKeepConnections | js/circuit/circuit-persistence.js:148-153 | When no incoming id is live on the page, the saved connections are inserted exactly as saved |
| Persistence.Remapped | js/circuit/circuit-persistence.js:148-153 | Rewiring keeps the number and order of the connections, each entry being the saved one remapped |
| Persistence.ElementsLoadedLayout | js/circuit/circuit-persistence.js:148-156 | The cascades of the connection loop keep the loaded elements' ids and codes |
| Persistence.FillRenaming | js/circuit/circuit-persistence.js:124-131 | The loop computes `FreshIds` on the page and the old counters |
| Persistence.BuildElements | js/circuit/circuit-persistence.js:133-146 | Elements, registry and counters are `PlaceAll` of the old ones; completes iff every saved code has a descriptor; the old elements stay and one element per saved element follows with the renamed id and the saved code; keys are only appended |
| Persistence.PlaceElement | js/circuit/circuit-persistence.js:134-145 | One non-demonstration node with the id and code is appended; with a descriptor it gets the children `Furnish` gives, its id is registered and the counters advance; otherwise it stays bare and nothing else changes |
| Persistence.Place | js/circuit/circuit-persistence.js:134-145 | One pass of the element loop appends a non-demo node with the id and code and goes through iff the code has a descriptor; then it carries the `buildElement` children and counters and registers the id, and otherwise it stays bare with the counters and registry untouched |
| Persistence.PlaceAllNext | js/circuit/circuit-persistence.js:133-146 | With no throw so far, the next pass places the next saved element |
| Persistence.PlaceAllStops | js/circuit/circuit-persistence.js:133-146 | After a throw the remaining saved elements change nothing |
| Persistence.FirstUnknown | js/circuit/circuit-persistence.js:133-146 | The first saved element whose code has no descriptor: every one before it has one |
| Persistence.PlaceAllShape | js/circuit/circuit-persistence.js:133-146 | The loop places the saved elements in order, with renamed ids and saved codes, up to and including the first unknown code; it goes through iff there is none; it registers the truthy renamed ids of the elements before that one, and nothing else |
| Persistence.PlacedStopped | js/circuit/circuit-persistence.js:133-146 | Past a throw, a further saved element leaves the loop's description as it was |
| Persistence.PlacedNext | js/circuit/circuit-persistence.js:133-146 | With no throw so far, the next saved element is placed, and registered when its code is known |
| Persistence.PlacedAll | js/circuit/circuit-persistence.js:133-146 | When the last saved element has a known code, every saved element is placed and registered |
| Persistence.PlacedFirstUnknown | js/circuit/circuit-persistence.js:133-146 | When the last saved element is the first with an unknown code, it is placed bare and not registered |
| Persistence.PlacedLoaded | js/circuit/circuit-persistence.js:133-146 | The loop goes through iff every saved code has a descriptor, the elements are then loaded in order, and the registry only grows at its end |
| Persistence.AppendedGrow | js/circuit/circuit-persistence.js:133-146 | One more node appended for the next saved element extends the placed prefix |
| Persistence.RegisteredGrow | js/circuit/circuit-functions.js:266-268 | Registering the next renamed id extends the registered prefix |
| Persistence.InsertConnections | js/circuit/circuit-persistence.js:148-156 | The old connections are followed by a prefix of the rewired saved ones: all of them, each drawn without a throw, when `ok`; otherwise up to and including the first whose drawing throws, every earlier one having gone through; no element moves |
| Persistence.DrawConnections | js/circuit/circuit-persistence.js:148-156 | The connection loop over an already rewired list: the connections it leaves and the outcome `ok` are as `ConnectionsLoaded` says, and no element moves |
| Persistence.ConnectionsLoadedComplete | js/circuit/circuit-persistence.js:148-156 | The connection loop completes iff every rewired connection can be drawn |
| Persistence.ConnectionsLoadedUnique | js/circuit/circuit-persistence.js:148-156 | The connection loop's outcome is determined: two runs on the same page and list agree on completion and on the wiring they leave |
| Persistence.BuildCircuit | js/circuit/circuit-persistence.js:119-157 | The page after the load is `Loaded`: the `freshIds` table and counters, then `PlaceAll`, whose registry and counters are final and whose elements are final up to lamp states; a throw in the element loop leaves the connections alone; otherwise the rewired connections are inserted in order, stopping after the first whose drawing throws, and `ok` holds iff none throws |

## Left out

- `getCurrentCircuit` calls `new CircuitElement(id, code, style)`, but
  the class at js/circuit/circuit-classes.js:4-14 takes two parameters
  and stores them as `element` and `circuitDescriptor`; the style is
  dropped. `buildCircuit` reads `element.id` and `element["data-code"]`
  (js/circuit/circuit-persistence.js:125-145), which that object lacks,
  so a circuit saved through the class as written would not load back.
  The model assumes the `{id, data-code}` record `buildCircuit` reads
  (`SavedElement`), without the style. The `Circuit` class is not defined
  in the four core files; the model uses its own `Circuit` record.
- Geometry and drawing are not modelled: `updateConnection`, the
  positions, `pxToNumber`, CSS classes and attributes that only style the
  page, and the drag handlers (`makeMobileDraggable`,
  `makeDesktopDraggable`, `handleChanges`).
- `selectElement`, `handleElementClick`, `buildElementFactory` and
  `startInsertingElement` are not modelled. They only track the selected
  element or the pending palette entry, which appear here as parameters
  (`RemoveElement`'s index, `ClickField`'s kind).
- Browser services are parameters or left out:
  - `prompt` and `confirm` answers are parameters;
  - `alert` and `console.log` are left out;
  - local storage and its JSON text are left out; the store holds the
    parsed list.
- Mutation observers are asynchronous in the browser. Here they run
  synchronously and depth first, and the `fuel` of `Refresh`,
  `NotifyEach`, `HandleConnectionElectricChange` and every caller bounds
  the depth of the cascade. The source does not bound it, so a feedback
  loop that never settles is not modelled.
- Persistence.BuildCircuit: connector ids saved with a circuit are not
  renamed, just as in the source. Properties and attributes that go
  through strings (the `style` attribute, numbers written with
  `setAttribute`) are not modelled.
- Persistence.InsertConnections: the source renames the ids of each
  saved connection in place just before inserting it. The model rewires
  the whole list first (`Remapped`) and then runs the loop
  (`DrawConnections`). The renaming reads only the table, which the loop
  does not change, so the inserted connections are the same. The
  in-place change to the saved circuit's own connection records is not
  modelled.
- Persistence.FreshIds: the page lookup sees the elements and their
  children only; other DOM nodes with an id are not modelled.
- Ids.Lower: `toLowerCase` is modelled for ASCII letters only.
- Propagation.Step: an element whose code has no descriptor, or a
  connector index outside its table, makes the source throw inside a
  handler; the model leaves the state unchanged there. The lamp finds
  its light with the selector `#id .lamp-light`: the model treats only
  an empty id as a malformed selector, while the browser also throws for
  an id that is not a CSS identifier (one starting with a digit, say),
  which ids drawn by `getId` never are but ids read from a saved circuit
  can be.
- Ids.RunNeverRepeats: the counters are unbounded integers. In the
  source they are JavaScript numbers, and `++` stops changing a counter
  once it reaches 2^53, after which `getId` repeats its id; the property
  holds in the source only for runs that stay below 2^53.

## Findings

| source | as written | input that shows it | evidently intended | confidence | as-written member | corrected member |
|---|---|---|---|---|---|---|
| js/circuit/circuit-functions.js:81-109 | `removeElement` filters the associated connections out of the list before it calls `removeConnection` on each. That call then finds no match, keeps index -1, and `splice(-1, 1)` removes the last, unrelated connection. | A lamp `l` wired to switch `s` by `w1`, and `s` wired to another element by `w2`: removing `l` leaves no connection at all | The connections not involving the removed element all survive | not executed | Editing.RemovalDropsUnrelated | Editing.IntendedRemovalKeepsOthers |
| js/circuit/circuit-functions.js:790-799 | `removeElement` never deletes the element's key from the `elements` registry. `getCurrentCircuit` then looks the key up, gets null and calls `getAttribute` on it. | Place any element, remove it, then save | The snapshot skips keys whose element is gone | not executed | Editing.SnapshotAfterRemoval | Editing.SavedElements |
| js/circuit/circuit-persistence.js:124-131 | A colliding incoming id is renamed with `getId`, whose result is not checked against the ids on the page or the incoming ids | The palette holds `and-1` and a saved circuit holds `and-2`: the first load keeps `and-2`, the second renames it to `and-2` again | A renamed id is free on the page and among the incoming ids | not executed | Persistence.ReloadRepeatsId | Persistence.IntendedLoadKeepsIdsApart |
