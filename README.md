# CephaloDB core in Dafny

CephaloDB keeps a graph of **nodes**, each owning the list of its outgoing **relationships**
(edges), beside a store of **documents** and an **aggregate state**. The aggregate state
holds derived counts, settings and rules. This project models the engine that keeps these
consistent, and proves properties of the model:

- the node and document repositories (load, find, create, shallow-merge update, delete,
  and adding an edge);
- the relationship service (create, retype, delete and list edges), with its recount of
  `relationshipCount` after create and delete;
- similarity inference: the attribute score, and the scans that link similar nodes;
- the aggregate state in two variants: the in-memory singleton, and the file-backed state
  model;
- the listener registry and the state service, which validates, writes and then notifies;
- the pure helpers: the role/permission table and route guard, the string and date
  formatters, `arrayToMap`, and the validators.

The model has one module per source file. Two shared modules sit underneath.
`JsValues` gives JavaScript values and the few language rules the core relies on:
truthiness, `===`, own-property access, `Number(...)`, `<`/`>`, `trim` and `for ... of`.
`Records` gives the record operations that both repositories share.

How the model is built:

- A record is a `map<string, Value>`. An object spread is a map union where the right side
  wins.
- Each stateful module becomes a class with `modifies` methods:
  - the node store and document store hold a `seq` of records;
  - the global store and the state file hold the state;
  - the listener registry holds the listener list and a log of the calls it made.
- Every method is proved equal to a specification function on the old state. The
  properties are proved about those functions.
- A JavaScript exception is `Threw(error)`, and a `null` return is `NullReturn`.
- Each clock reading is a `now` parameter. One operation reads the clock once.
- Generated ids take the millisecond count and the random string as parameters.

Behaviour the model reproduces although it may surprise:

- `updateState` of the global state does not validate. Only the state service validates,
  before it writes (`state/globalState.js:56-66`, `services/stateService.js:20-23`).
- A key is invalid when the current state lacks it, not when the default shape lacks it.
- `resetState` restores the `lastModified` captured when the module loaded. It does not
  take a fresh one.
- Traced through the code, the recount stores any edge total through
  `globalState.updateState`, so it is never validated. The 11th edge is recorded even
  though the validator would reject 11 (see `RelationshipService.RecountBypassesRules`).
- Generated ids are proved distinct only when their millisecond counts differ. Same-
  millisecond calls with the same random suffix give equal ids.

## Model

| member | source | states |
|---|---|---|
| Records.FindIndex | models/nodeModel.js:67 | `findIndex` by `id ===`: the first matching index, and -1 exactly when no record matches |
| Records.Find | models/nodeModel.js:40 | `find` by `id ===`: nothing exactly when no record matches, otherwise the record at the first matching index |
| Records.RemoveAll | models/nodeModel.js:97 | `filter(id !==)`: keeps exactly the records with another id; never grows |
| Records.RemoveAllAppend | models/nodeModel.js:97 | the filter distributes over concatenation, so the kept records stay in their order |
| Records.RemoveAllShrinks | models/nodeModel.js:90-97 | when some record matches, the filtered list is strictly shorter |
| Records.RemoveAllNoMatch | models/nodeModel.js:90-97 | when no record matches, the filter changes nothing |
| Records.Spread | models/nodeModel.js:73-77 | `{...base, ...patch}`: the union of the keys; a field comes from `patch` when it has it and from `base` otherwise |
| Records.Patched | models/nodeModel.js:73-77 | the updated record: old fields, overwritten by `data`, plus an `updatedAt` of `now` |
| Records.FindIndexSameIds | models/nodeModel.js:67 | two lists with the same ids position by position give the same lookup result for every id |
| Records.FindIndexAppend | models/nodeModel.js:56 | after an append, the lookup finds an earlier match first, then the new record, otherwise nothing |
| Records.Substr | models/nodeModel.js:129 | `substr(start, length)`: the clamped slice, never longer than `length`, empty past the end |
| Records.UniqueId | models/nodeModel.js:128-130 | `prefix + Date.now() + '_' + random.substr(2, 9)`: starts with the prefix and is bounded in length |
| Records.SplitAtUnderscore | models/nodeModel.js:129 | a digit string followed by `_` splits uniquely at that underscore |
| Records.UniqueIdInjective | models/nodeModel.js:128-130 | equal ids have equal millisecond counts and equal random suffixes |
| Records.UniqueIdsDiffer | models/nodeModel.js:128-130 | ids generated at different milliseconds differ, for the `node_` and `doc_` prefixes alike (`models/documentModel.js:102-104`) |
| Records.NewRecord | models/documentModel.js:49-54 | `{id, ...data, createdAt, updatedAt}`: a caller's `data.id` overrides the generated id; both timestamps are `now`; all other fields come from `data` |
| Records.CreatedIsFound | models/nodeModel.js:38-56 | a record appended with a primitive id that was absent is exactly what a later lookup finds |
| Records.NewRecordIsFound | models/documentModel.js:47-56 | a created record with a fresh id, and no object for `data.id`, is what a later lookup finds |
| Records.UpdateOutcome | models/nodeModel.js:65-82 | an absent id gives null and no change; otherwise only the first match is replaced by the merged record, at the same index, with the same length |
| Records.UpdateKeepsIds | models/nodeModel.js:73-79 | when `data` has no `id`, every record keeps its id, and the lookup then finds the updated record |
| Records.DeleteOutcome | models/nodeModel.js:88-100 | an absent id gives null and no change; otherwise it returns the first match and the list becomes `RemoveAll`, which keeps exactly the others in their order (`RemoveAllAppend`); no record with the id is left |
| NodeModel.GenerateUniqueId | models/nodeModel.js:128-130 | a node id starts with `node_` |
| NodeModel.NewNode | models/nodeModel.js:49-55 | the new node: `data.id` overrides the generated id; `relationships` is always `[]`; both timestamps are `now`; the rest comes from `data` |
| NodeModel.WithEdge | models/nodeModel.js:116-120 | `push` onto `relationships`: fails exactly when it is not an array; otherwise the edge list gains the edge at its end and no other field changes |
| NodeModel.AddRelationshipOutcome | models/nodeModel.js:106-125 | null exactly when either endpoint is missing; a TypeError when node1's `relationships` is no array; otherwise node1 gets exactly one more edge `{targetNodeId: node2.id, type, createdAt}` at its end, and no other node and no other field changes |
| NodeModel.CreatedNodeIsFound | models/nodeModel.js:47-56 | a created node with a fresh primitive id is what a later lookup finds, and it has no edges |
| NodeModel.UpdateKeepsEdges | models/nodeModel.js:73-77 | an update whose `data` has no `relationships` keeps the node's edges |
| NodeModel.NodeStore.constructor | models/nodeModel.js:10-16 | an absent nodes file gives an empty collection |
| NodeModel.NodeStore.GetAllNodes | models/nodeModel.js:30-32 | gives the stored collection |
| NodeModel.NodeStore.GetNodeById | models/nodeModel.js:38-41 | gives nothing exactly when no node has the id, otherwise the first node with it |
| NodeModel.NodeStore.CreateNode | models/nodeModel.js:47-59 | appends exactly the new node at the end and returns it |
| NodeModel.NodeStore.UpdateNode | models/nodeModel.js:65-82 | result and new collection are those of `Records.UpdateOutcome` |
| NodeModel.NodeStore.DeleteNode | models/nodeModel.js:88-100 | result and new collection are those of `Records.DeleteOutcome` |
| NodeModel.NodeStore.AddRelationship | models/nodeModel.js:106-125 | result and new collection are those of `NodeModel.AddRelationshipOutcome` |
| DocumentModel.GenerateUniqueId | models/documentModel.js:102-104 | a document id starts with `doc_` |
| DocumentModel.DocumentStore.constructor | models/documentModel.js:10-16 | an absent documents file gives an empty collection |
| DocumentModel.DocumentStore.GetAllDocuments | models/documentModel.js:30-32 | gives the stored collection |
| DocumentModel.DocumentStore.GetDocumentById | models/documentModel.js:38-41 | gives nothing exactly when no document has the id, otherwise the first document with it |
| DocumentModel.DocumentStore.CreateDocument | models/documentModel.js:47-58 | appends exactly the new record at the end and returns it; `data.id` overrides the generated id |
| DocumentModel.DocumentStore.UpdateDocument | models/documentModel.js:64-81 | result and new collection are those of `Records.UpdateOutcome`: null and unchanged when absent; otherwise the first match merged in place, same length |
| DocumentModel.DocumentStore.DeleteDocument | models/documentModel.js:87-99 | result and new collection are those of `Records.DeleteOutcome` |
| RelationshipService.NodeEntries | services/relationshipService.js:121-129 | one listing entry per edge of the node |
| RelationshipService.Flatten | services/relationshipService.js:114-137 | the listing succeeds exactly when every node has an array of readable edges; a TypeError otherwise; on success it is all entries, in node then edge order, as many as the edge total |
| RelationshipService.AllEdgesCount | services/relationshipService.js:114-132 | the listing is as long as the sum of all nodes' edge counts |
| RelationshipService.EdgeCountUpdate | services/relationshipService.js:94-98 | replacing one node changes the edge total by exactly the change in that node's edge count |
| RelationshipService.ShapedUpdate | services/relationshipService.js:120-121 | replacing one node by a node with readable edges keeps the graph listable |
| RelationshipService.Recount | services/relationshipService.js:143-151 | on a listable graph it sets `relationshipCount` to the edge total and `lastModified` to `now`; a failing listing or a missing key leaves the state unchanged |
| RelationshipService.RecountBypassesRules | services/relationshipService.js:146 | an 11th edge is recorded in the count although the validator rejects 11 under the default rules |
| RelationshipService.CreateRelationshipStep | services/relationshipService.js:12-34 | null and no change when either node is missing; on success node1 has exactly one more edge, the edge total grows by one, and the state is recounted |
| RelationshipService.CreateKeepsCountInSync | services/relationshipService.js:24-27 | after a successful create on a listable graph, `relationshipCount` equals the new edge total |
| RelationshipService.FindEdge | services/relationshipService.js:53 | `find(rel => rel.targetNodeId === id)`: the first matching edge; null when none matches; a TypeError when a `null` edge comes first |
| RelationshipService.Retyped | services/relationshipService.js:59-60 | an object edge gets the new `type` and an `updatedAt` of `now`; every other field stays |
| RelationshipService.UpdateRelationshipOutcome | services/relationshipService.js:43-70 | a TypeError exactly when node1 exists and its `relationships` is no array or an unreadable edge comes before the match; success exactly when a truthy edge to node2 is found, and null in every other case, node1 missing included; nothing changes unless it succeeds; ids and the edge total are kept |
| RelationshipService.UpdateStepRetypes | services/relationshipService.js:52-64 | on success only the first edge to node2 is retyped and stamped, node1 gets `updatedAt` and keeps every other field, and the node is saved in place |
| RelationshipService.UpdateMissingEdgeIsNull | services/relationshipService.js:52-57 | where a delete finds nothing to remove, an update also returns null and changes nothing |
| RelationshipService.KeepOthers | services/relationshipService.js:88 | keeps exactly the edges not targeting the id, by membership; never grows; the same length exactly when none targets it |
| RelationshipService.KeepOthersAppend | services/relationshipService.js:88 | the filter distributes over concatenation, so the kept edges stay in their order and multiplicity |
| RelationshipService.KeepOthersSingle | services/relationshipService.js:88 | one edge is kept exactly when it does not target the id |
| RelationshipService.DeleteRelationshipStep | services/relationshipService.js:78-108 | a TypeError exactly when node1 exists and its `relationships` is no array or holds an unreadable edge; null exactly when node1 is missing or no edge targets node2; nothing changes unless it succeeds; ids are kept |
| RelationshipService.DeleteStepRemoves | services/relationshipService.js:88-103 | on success node1's edges become `KeepOthers` of its old edges, fewer of them, node1 gets `updatedAt` and keeps every other field, the edge total drops, and the state is recounted |
| RelationshipService.DeletedNode | services/relationshipService.js:93-100 | the node saved after a delete holds exactly the kept edges and the new `updatedAt`, keeps all its other fields, the store total drops, and every id stays in place |
| RelationshipService.RelationshipService.GetAllRelationships | services/relationshipService.js:114-137 | the nested loops build exactly the `Flatten` listing, or its TypeError |
| RelationshipService.RelationshipService.UpdateGlobalRelationshipCount | services/relationshipService.js:143-151 | the state becomes the `Recount` of the stored nodes |
| RelationshipService.RelationshipService.CreateRelationship | services/relationshipService.js:12-34 | result and new graph and state are those of `CreateRelationshipStep` |
| RelationshipService.RelationshipService.UpdateRelationship | services/relationshipService.js:43-70 | result and new graph are those of `UpdateRelationshipOutcome`; the state is not touched |
| RelationshipService.RelationshipService.DeleteRelationship | services/relationshipService.js:78-108 | result and new graph and state are those of `DeleteRelationshipStep` |
| RelationshipService.RelationshipService.SaveKept | services/relationshipService.js:94-103 | once an edge to node2 is known to go, saving node1 with the kept edges and recounting gives the result, graph and state of `DeleteRelationshipStep` |
| FuzzyLogicService.SimilarityThreshold | services/fuzzyLogicService.js:86-95 | the score, in tenths, is at most 10 and symmetric; it is above 0.7 exactly when `type`, `category` and a truthy `value` all agree |
| FuzzyLogicService.Similarity | services/fuzzyLogicService.js:86-95 | the score, in tenths, is at most 10, and is 10 exactly when `type`, `category` and two truthy `value`s are strictly equal |
| FuzzyLogicService.Similar | services/fuzzyLogicService.js:23 | `score > 0.7` holds only for the full score |
| FuzzyLogicService.UntypedRecordsLinkOnValue | services/fuzzyLogicService.js:90-92 | two records with no `type` and no `category` and the same truthy primitive `value` score above the threshold |
| FuzzyLogicService.Scan | services/fuzzyLogicService.js:17-27 | the loop keeps every node and id in place, and makes no change over no targets |
| FuzzyLogicService.AnalyzeNodeOutcome | services/fuzzyLogicService.js:11-36 | analysis keeps every node and id in place; a `null` or `undefined` node changes nothing when nodes are stored, since reading its `id` throws in the first iteration |
| FuzzyLogicService.ScanEdgesSameIds | services/fuzzyLogicService.js:17-27 | the edges a scan adds depend only on the ids of the stored nodes |
| FuzzyLogicService.AppendEdgesTwice | services/fuzzyLogicService.js:24 | appending two batches of edges is appending their concatenation |
| FuzzyLogicService.AppendKeepsLinkable | services/fuzzyLogicService.js:24 | appending edges to the analysed node keeps every id and keeps the node linkable |
| FuzzyLogicService.AppendKeepsAttributes | services/fuzzyLogicService.js:24 | appending edges to a node leaves every attribute the similarity score reads unchanged |
| FuzzyLogicService.StepAppends | services/fuzzyLogicService.js:24 | for a linkable node, one create never throws and appends exactly the target's edge |
| FuzzyLogicService.StepWorldAppends | services/fuzzyLogicService.js:18-26 | one loop iteration appends the target's edge exactly when the target is eligible |
| FuzzyLogicService.ScanUnfold | services/fuzzyLogicService.js:17 | the scan of a linkable node is the loop body followed by the scan of the rest |
| FuzzyLogicService.ScanAppends | services/fuzzyLogicService.js:17-28 | the scan of a linkable node never aborts and appends to it exactly one edge per eligible target, in storage order |
| FuzzyLogicService.ScanEdgesNoSelfLoops | services/fuzzyLogicService.js:18-24 | no added edge targets the analysed node's own id, and every added edge has type `'similarity'` |
| FuzzyLogicService.ScanEdgesSameTargets | services/fuzzyLogicService.js:18-24 | targets that agree on id, `type`, `category` and `value` give the same edges |
| FuzzyLogicService.AnalyzeAppends | services/fuzzyLogicService.js:11-36 | analysing a linkable node changes only that node, by appending the scan's edges |
| FuzzyLogicService.RescanSameEdges | services/fuzzyLogicService.js:17-27 | after the analysed node gains edges, a second scan adds the same edges again |
| FuzzyLogicService.AnalyzeTwiceDuplicates | services/fuzzyLogicService.js:11-36 | analysing the same node twice appends every similarity edge twice: the scan is not idempotent |
| FuzzyLogicService.RulesBelowThreshold | services/fuzzyLogicService.js:67 | with `nodeCount` at most 50, or not a number, the rule pass changes nothing |
| FuzzyLogicService.AnalyzeAll | services/fuzzyLogicService.js:70-73 | analysing a list of nodes keeps every stored node and id in place |
| FuzzyLogicService.ApplyRulesOutcome | services/fuzzyLogicService.js:61-78 | the rule pass keeps every stored node and id in place (and, below the threshold, everything: `RulesBelowThreshold`) |
| FuzzyLogicService.AnalyzeDocumentsOutcome | services/fuzzyLogicService.js:41-55 | the document pass keeps every stored node and id in place; a first document whose `nodes` cannot be iterated ends it with no change |
| FuzzyLogicService.FuzzyLogic.UpdateGlobalStateForRelationships | services/fuzzyLogicService.js:101-111 | the state becomes the `Recount` of the stored nodes |
| FuzzyLogicService.FuzzyLogic.AnalyzeNodeForRelationships | services/fuzzyLogicService.js:11-36 | the loop over the snapshot of nodes leaves the graph and state that `AnalyzeNodeOutcome` gives |
| FuzzyLogicService.FuzzyLogic.AnalyzeDocumentsForRelationships | services/fuzzyLogicService.js:41-55 | the nested loops analyse each node of each document in order, as `AnalyzeDocumentsOutcome` does |
| FuzzyLogicService.FuzzyLogic.ApplyRulesForRelationshipUpdates | services/fuzzyLogicService.js:61-78 | graph and state are those of `ApplyRulesOutcome`: every node is analysed only when `nodeCount > 50` |
| GlobalState.DefaultState | state/globalState.js:8-22 | the default keys: three counts, `settings`, `rules` and `lastModified` |
| GlobalState.RangeCheck | state/globalState.js:83-92 | numeric values are accepted exactly within 0 and the bound, both included; a TypeError exactly when `rules` is missing, since both the test and the error message read the bound from it; a NaN value passes |
| GlobalState.Validate | state/globalState.js:81-98 | every key other than `nodeCount` and `relationshipCount` passes; a rejection is a TypeError or a rule violation |
| GlobalState.DefaultBounds | state/globalState.js:17-20 | under the defaults, `nodeCount` is accepted exactly in 0..100 and `relationshipCount` exactly in 0..10 |
| GlobalState.Updated | state/globalState.js:56-66 | an invalid key exactly when the state lacks it; otherwise only `key` and `lastModified` change |
| GlobalState.UpdatedKeepsShape | state/globalState.js:61-62 | a valid update keeps the key set, and repeating it changes nothing more |
| GlobalState.GlobalStore.constructor | state/globalState.js:25-40 | the state is the file's content, or the defaults when there is no file |
| GlobalState.GlobalStore.GetState | state/globalState.js:46-48 | gives the held state |
| GlobalState.GlobalStore.ValidateStateUpdate | state/globalState.js:81-98 | the check against the held state's rules |
| GlobalState.GlobalStore.UpdateState | state/globalState.js:56-66 | result is `Updated` of the old state; the state changes only on success, and nothing is validated |
| GlobalState.GlobalStore.ResetState | state/globalState.js:71-74 | the state becomes the defaults, including their load-time `lastModified` |
| StateModel.ModelDefaultState | models/stateModel.js:9-23 | the default keys, with `relationships: []` and no `relationshipCount` |
| StateModel.ModelValidate | models/stateModel.js:79-99 | other keys pass; `relationships` throws a TypeError exactly when the value or `rules` is missing; for an array under any numeric `maxRelationshipsPerNode`, it passes exactly when its length is at most that bound |
| StateModel.ModelDefaultBounds | models/stateModel.js:84-93 | under the defaults, a relationships list is accepted exactly up to 10 entries, and `nodeCount` exactly in 0..100 |
| StateModel.RelationshipCountIsInvalid | models/stateModel.js:9-23 | `relationshipCount` is an invalid key for a state in the default shape |
| StateModel.StateFile.Read | models/stateModel.js:26-32 | the file's state, or the defaults when there is no file |
| StateModel.StateFile.GetState | models/stateModel.js:46-48 | reads the file afresh |
| StateModel.StateFile.ValidateStateUpdate | models/stateModel.js:79-99 | the check against the rules in the file |
| StateModel.StateFile.UpdateState | models/stateModel.js:54-65 | result is `Updated` of the file's state; the file is written only on success |
| StateModel.StateFile.ResetState | models/stateModel.js:71-73 | the file holds the defaults, and every later read returns them |
| StateListener.Invocations | state/stateListener.js:38-44 | one notification calls every listener exactly once, in list order, with `(key, value)` |
| StateListener.IndexOf | state/stateListener.js:22 | `indexOf`: the first position, and -1 exactly when absent |
| StateListener.RemoveFirst | state/stateListener.js:21-29 | `splice(indexOf(f), 1)`: an absent listener changes nothing; otherwise the list loses its first occurrence of `f` and nothing else, the rest in their order |
| StateListener.RemoveUndoesAdd | state/stateListener.js:8-29 | removing right after adding restores the list when the listener was new, and the multiset of registrations always |
| StateListener.ListenerRegistry.constructor | state/stateListener.js:2 | no listeners and no calls yet |
| StateListener.ListenerRegistry.AddListener | state/stateListener.js:8-15 | appends a function; anything else leaves the list unchanged |
| StateListener.ListenerRegistry.RemoveListener | state/stateListener.js:21-29 | the list becomes `RemoveFirst`; a non-function changes nothing |
| StateListener.ListenerRegistry.Broadcast | state/stateListener.js:38-44 | the loop logs exactly the calls of `Invocations` and keeps the list |
| StateListener.ListenerRegistry.NotifyListeners | state/stateListener.js:36-45 | every listener is called once, in order, with `(key, value)`; the list is unchanged |
| StateListener.ListenerRegistry.TriggerEvent | state/stateListener.js:53-62 | the same ordered calls, with `(event, data)` |
| StateService.StateService.GetGlobalState | services/stateService.js:9-11 | gives the global state |
| StateService.StateService.UpdateState | services/stateService.js:17-33 | a rejected value rethrows with no write and no notification; an accepted one gives `Updated`; on success the listeners are notified once with `(key, value)` after the write; an invalid key throws with no notification |
| StateService.StateService.ResetState | services/stateService.js:39-52 | the state becomes the defaults, and listeners get `'reset'` with that state |
| StateService.StateService.SynchronizeState | services/stateService.js:58-72 | the state is unchanged, and listeners get `'synchronize'` with the current state |
| StateService.StateService.SubscribeToStateChanges | services/stateService.js:78-87 | adds exactly that listener when it is a function |
| AccessControlService.RolesTable | services/accessControlService.js:7-11 | only `admin` has `manage`; `editor` lacks it; `viewer` has only `read`; no table key is an inherited name |
| AccessControlService.HasRole | services/accessControlService.js:35-37 | a TypeError for a missing user; a falsy `roles` is returned as is; an array answers by membership, a string by substring; any other truthy `roles` throws a TypeError |
| AccessControlService.Grants | services/accessControlService.js:51 | one role grants exactly when the table lists it with the action, and throws exactly on an inherited name such as `constructor` |
| AccessControlService.RoleKey | services/accessControlService.js:51 | the property key `roles[role]` reads: a string is itself; none for values other than strings and arrays, and none for arrays of other than one element; a one-string array is that string |
| AccessControlService.HasPermission | services/accessControlService.js:45-52 | false without a user or roles; a TypeError for roles that are not an array |
| AccessControlService.AnyGrantsIff | services/accessControlService.js:51 | with no inherited role names, true exactly when some role is in the table and lists the action |
| AccessControlService.AnyGrants | services/accessControlService.js:51 | `some` never gives null, throws only a TypeError, and is true only when some role grants the action |
| AccessControlService.AnyGrantsThrows | services/accessControlService.js:51 | an inherited role name met before any granting role throws |
| AccessControlService.HasPermissionIff | services/accessControlService.js:45-52 | for a user with an array of roles, permission exactly when some listed role grants the action |
| AccessControlService.Split | services/accessControlService.js:61 | `split(' ')` gives at least one part |
| AccessControlService.SplitJoin | services/accessControlService.js:61 | the parts hold no separator and join back to the header |
| AccessControlService.Token | services/accessControlService.js:61 | a header of two or more space-separated words yields its second word; a missing header, or a non-empty one without a space, yields `undefined`; a truthy token holds no space |
| AccessControlService.ProtectRoute | services/accessControlService.js:59-83 | the checks in order: no token gives 401, a rejected token gives 401, no permission gives 403, and otherwise the request passes with the decoded user |
| AccessControlService.PassNeedsGrantingRole | services/accessControlService.js:61-81 | a passing request has a second header word and a user with a role that grants the action |
| Helper.UpperCase | utils/helper.js:18 | one character only grows when it is `ß`, which becomes `SS` |
| Helper.CapitalizeFirstLetter | utils/helper.js:16-19 | `''` for a non-string and for the empty string |
| Helper.CapitalizeShape | utils/helper.js:18 | the rest is unchanged; the first character changes only when it is lower case; the length is kept except after a leading `ß` |
| Helper.CapitalizeIdempotent | utils/helper.js:16-19 | capitalising twice is capitalising once |
| Helper.Pad2Value | utils/helper.js:29-30 | `padStart(2, '0')` of a number below 100 is two digits that read back as the number |
| Helper.ParseIntToString | utils/helper.js:31 | the year written by `${year}` reads back as the year |
| Helper.FormatDateRoundTrip | utils/helper.js:26-32 | `year-MM-DD` with month `getMonth()+1` and zero-padded parts reads back as year, month and day |
| Helper.FormatDate | utils/helper.js:26-32 | empty exactly for a non-`Date`; for a real date, the year followed by `-MM-DD` |
| Helper.FormatTimestampRoundTrip | utils/helper.js:39-48 | `year-MM-DD HH:MM:SS` reads back as all six components |
| Helper.FormatTimestamp | utils/helper.js:39-48 | empty exactly for a non-`Date` |
| Helper.ClockSlices | utils/helper.js:47 | where each part of ` HH:MM:SS` sits, counted from the end |
| Helper.TimestampExtendsDate | utils/helper.js:39-48 | a timestamp starts with the formatted date of the same argument |
| Helper.KeyIndex | utils/helper.js:60 | the first entry with the `Map` key, or the entry count |
| Helper.Set | utils/helper.js:60 | `map.set` keeps every existing key in place |
| Helper.SetGet | utils/helper.js:60 | after `set(k, v)`, a lookup under `k` gives `v` and every other key is unaffected |
| Helper.KeyIndexSameKeys | utils/helper.js:60 | the lookup depends only on the keys |
| Helper.KeyIndexAppend | utils/helper.js:60 | an entry added last is found only when no earlier entry has the key |
| Helper.SetDistinct | utils/helper.js:60 | `set` keeps the keys distinct |
| Helper.ArrayToMap | utils/helper.js:56-64 | an empty map for a non-array |
| Helper.Index | utils/helper.js:58-63 | the fold never returns null, throws only a TypeError, and builds at most one entry per item |
| Helper.IndexThrows | utils/helper.js:58-63 | the fold throws exactly when some item is `null` or `undefined` |
| Helper.IndexLookup | utils/helper.js:58-63 | looking up a key gives the last item with that key; items with a falsy key are never stored |
| Helper.IndexDistinct | utils/helper.js:58-63 | the built map has distinct, truthy keys |
| Helper.EscapeRegExp | utils/helper.js:89-91 | a TypeError exactly when the argument is not a string |
| Helper.Escape | utils/helper.js:90 | the output is the input plus one backslash per special character |
| Helper.EscapeRoundTrip | utils/helper.js:89-91 | the output is the input length plus one per special character; it is a pattern of literals that matches exactly the input |
| Validator.NonEmptyStringIff | utils/validator.js:8-10 | true exactly for a string with a character that is not whitespace |
| Validator.IsNonEmptyString | utils/validator.js:8-10 | a passing value is a non-empty string, and a string starting with a non-whitespace character passes |
| Validator.IntegerInRangeIff | utils/validator.js:37-39 | with numeric bounds, true exactly for an integer between them, both included |
| Validator.IsIntegerInRange | utils/validator.js:37-39 | a passing value is a number between the numeric values of both bounds, the missing bounds being the safe-integer limits |
| Validator.IntegerInDefaultRange | utils/validator.js:37 | without bounds, true exactly for the safe integers |
| Validator.IntegerInRangeNeedsNumbers | utils/validator.js:38 | a non-number never passes, and neither does anything against a NaN bound |
| Validator.EveryIff | utils/validator.js:105 | `every` is true exactly when each key is an own property |
| Validator.HasRequiredKeysIff | utils/validator.js:101-105 | true exactly for an object or array owning every key; an object passes an empty list; for an object, exactly when every key is a field |
| Validator.HasRequiredKeys | utils/validator.js:101-105 | only an object or an array passes, and every one passes an empty key list |
| Validator.HasRequiredKeysSubset | utils/validator.js:105 | asking for fewer keys never turns a pass into a failure |

## Left out

- File I/O and encryption:
  - Reading and writing the nodes, documents and state files are exact in-memory round
    trips.
  - The AES layer is the identity.
  - JSON serialisation is not modelled, so a field holding `undefined` is not dropped.
  - `writeStateFile` in `state/globalState.js` has no effect in the model beyond the held
    state.
- Stored entries, and the `data` of creates and updates, are taken to be objects. JSON
  files that hold other values at the top level are not modelled.
- The prototype chain:
  - Property reads see own properties only. The exceptions are `roles[role]` in
    `hasPermission`, which models the names inherited from `Object.prototype`, and the
    `length` and indices of arrays and strings.
  - `Helper.ArrayToMap`: a `key` naming an inherited property, such as `constructor`, is
    read as absent.
  - `Validator.HasRequiredKeys`: an object with its own `hasOwnProperty` field, which makes
    the source throw, is not modelled.
  - A function's `length` is read as `undefined`.
- Numbers:
  - Numbers are exact reals. There is no NaN value, no infinity and no rounding.
  - `Number(...)` of a string reads decimal literals only. Exponents, hex and `Infinity`
    read as NaN.
  - The similarity score is counted in tenths. The two sums that reach the threshold, 0.7
    and 1.0, compare the same way in doubles.
- Comparisons between an array or a function and a string are approximated numerically.
- Strings are sequences of code points, not UTF-16 units. `charAt(0)` of an astral
  character is not split.
- `Helper.UpperCase`: the full case mapping is modelled only for Latin-1. Other
  characters are their own upper case.
- `AccessControlService.RoleKey`: a function or an object with its own `toString` used as
  a role is read as no table key.
- `AccessControlService.HasRole`: a `roles` string matches by substring, and `role` is
  taken to be a string.
- `Validator.HasRequiredKeys`: `requiredKeys` is taken to be an array of strings. A
  non-array throws in the source.
- Asynchrony:
  - Every `async` call runs to completion in order.
  - The recount after create and delete is not awaited in the source. It runs
    synchronously in the model, and a failing recount leaves the state unchanged.
  - Unhandled rejections, lost updates between concurrent read-modify-write cycles, and
    process crashes are out of scope.
- Listeners are known only by a reference. What a listener does, such as changing the
  registry, is not modelled. The registry logs each call.
- StateListener.ListenerRegistry.NotifyListeners: a listener cannot throw in the model, so
  the `try`/`catch` that lets the loop go on past a failing listener
  (`state/stateListener.js:39-44`) is not stated; every listener is called and logged.
- StateListener.ListenerRegistry.TriggerEvent: the same for its `try`/`catch`
  (`state/stateListener.js:56-61`).
- Helper.Index: `===` on two arrays or objects is always false in the model, so items whose
  key is one and the same object each make their own entry, where the source's `Map`
  merges them under that one reference. Keys that are primitives or functions are exact.
- Helper.IndexLookup: for the same reason an array or object key is never found, where the
  source's `get` finds the entry stored under that very reference.
- Shallow-copy aliasing: `getState` returns a copy, which is a value in the model. A
  caller's writes to a returned record therefore never reach the store. One case of
  aliasing is the edge objects shared between the `find` result and the saved node in
  `updateRelationship`, and the model writes that edit explicitly.
- `synchronizeState` in `state/globalState.js` and `models/stateModel.js` only logs, so it
  has no model.
- `authenticateUser` (JWT verification) is the `authenticate` parameter of
  `AccessControlService.ProtectRoute`. The 401 and 403 response bodies, and `req.user`,
  are reduced to the `Decision` value.
- Clock and randomness: every `new Date()` and `Date.now()` of one operation is a single
  parameter. `Math.random().toString(36)` is a string parameter. The formatters take the
  `Date` components as given.
- The controllers, routes, sockets, middleware, configuration, logging, `generateUUID`,
  `deepClone`, `isEmptyObject`, `debounce`, `throttle` and the library-backed validators
  are not part of this model.
