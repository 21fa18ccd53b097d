# Case-management workflow engine, modelled in Dafny

This project models the workflow engine of a small case-management application. An app
holds a workflow: a directed graph of steps (nodes) joined by edges. Cases move through
that graph:

- completing a step follows an outgoing edge, appends a history entry, closes the case on an
  End node and re-routes the assignee;
- a drag on the Kanban board sets the step directly.

Around the engine sit:

- the workflow builder's graph and field-list edits;
- the case detail view: who may complete a step, the step's form with its required-field
  check, approval decisions, read-only fields and per-node progress;
- the board projection;
- the application's top-level stores of apps, cases and calendar events;
- the user registry with its sign-in and sign-up rules;
- the new-case and app-creator form checks.

Layout, one module per file:

| module | models |
|---|---|
| `Wrappers` | `Option` and `Result` |
| `Text` | the JavaScript string primitives the source applies to input: `trim`, one-character `split`, ASCII `toLowerCase` and `toUpperCase` |
| `Lists` | `filter`, `map`, `find`, `some`, replace-by-predicate, and the last match of a `map` callback |
| `Sorting` | `Array.prototype.sort` with a numeric comparator, as a stable insertion sort |
| `Types` | the closed unions and records of `types.ts`, and well-formedness predicates |
| `Seed` | the default workflow, the seed apps, users and cases of `constants.ts` |
| `Engine` | step completion (a method proved against the function `Advance`), the manual step override, Kanban columns and new-case construction |
| `Editor` | the workflow builder |
| `CaseDetail` | the case detail view |
| `Board` | the Kanban board |
| `AppState` | `App.tsx` as a class `AppStore` with sequence fields |
| `Auth` | the user registry as a class `AuthStore` |
| `NewCase` | the new-case form |
| `Creator` | the app creator |
| `Submission` | a FILL submit composed with the store (see Findings) |
| `Scenarios` | facts about the default workflow run through the engine |

State-changing handlers are methods of two classes:

- `AppStore` in App.tsx: apps, cases, events, the selection;
- `AuthStore` in AuthContext.tsx: users and the current user.

Each method's `ensures` states the handler's whole new state. The source's loops are
methods with `while` loops, each proved against a specification function:

- `BuildInitialState` (the `forEach` that builds the initial form state) against `InitialState`;
- `CheckRequired` (the required-field loop with early return) against `FirstMissing`;
- `FieldChange` (the uniqueness scan over the field array, then the in-place write) against
  `EditedFields`.

`CompleteStep` models the completion handler, which has no loop. It is a straight-line method
that resolves `nextStepId` and `nextAssignee` in locals, step by step, as the handler does. Its
result is proved equal to the function `Advance`. The rest are functions with lemmas about them.

Ids and timestamps come from `Date.now()` and `toISOString()` in the source. Here they are
parameters: `id`, `stamp` and `now`. The acting user and the user list come from the
authentication context and are parameters too.

## Model

| member | source | states |
|---|---|---|
| Types.ParseNodeType | types.ts:69 | a node-type string is read back only as the type it names |
| Types.NodeTypeNamesRoundTrip | types.ts:69 | the six names are exactly the node-type union: each type's name parses back to it, and a string parses to a type only when it is that type's name |
| Types.ParseFieldType | types.ts:71 | a field-type string is read back only as the type it names |
| Types.FieldTypeNamesRoundTrip | types.ts:71 | the seven names are exactly the field-type union, and each parses back to its type |
| Types.CaseStatusNamesDistinct | types.ts:12-17 | the four status strings are pairwise distinct, so a status is exactly one of them |
| Types.AllFields | components/WorkflowBuilder.tsx:153-154 | a field is listed exactly when it belongs to the form of some node (nodes without a form contribute nothing) |
| Seed.DefaultHasOneStart | constants.ts:7 | the only Start node of the default workflow is `start` |
| Seed.DefaultWellFormed | constants.ts:5-59 | node ids are pairwise distinct, edge ids are pairwise distinct and every edge's ends name nodes |
| Seed.DefaultFields | constants.ts:16-46 | the workflow's fields are those of triage, approval and investigate, in that order |
| Seed.DefaultFieldIdsUnique | constants.ts:17-45 | field ids are unique across all nodes of the default workflow |
| Seed.DefaultFieldShapes | constants.ts:17-45 | every field carries `options` only if it is a select and `sourceFieldId` only if it is read-only |
| Seed.DefaultSourcesOnTriage | constants.ts:31-32 | exactly the third and fourth fields of the workflow (approval's two) are read-only; they take their values from triage's first and second fields; every read-only source names a field of the workflow |
| Scenarios.ApprovalBranches | constants.ts:22-35 | `approval` has an APPROVAL form and exactly two outgoing edges, to `investigate` and to `rejected`, in that order |
| Scenarios.SingleWayOn | constants.ts:52-58 | `start`, `triage` and `investigate` each have exactly one outgoing edge |
| Scenarios.EndsAreSinks | constants.ts:49-58 | `rejected` and `end` have no outgoing edge and are the only End nodes |
| Scenarios.ColumnsInOrder | components/CaseManagementApp.tsx:62-67 | a workflow whose nodes are all column nodes, already in x order, is its own column list |
| Scenarios.DefaultColumns | constants.ts:7-50 | the Kanban columns of the default workflow are start, triage, approval, investigate, rejected, end (the tie at x = 650 keeps array order) |
| Scenarios.DefaultLookup | constants.ts:7-50 | looking any default node up by its id finds that node |
| Scenarios.TriageNeedsNotes | components/CaseDetailView.tsx:35-63 | on `triage` the form starts as empty notes and an unticked box, and submitting it unchanged is refused naming "Triage Notes" |
| Scenarios.TriageAccepts | components/CaseDetailView.tsx:58-71 | filled-in notes let the triage form through, merged into the case's form data from `triage` |
| Scenarios.SingleEdgeAdvance | components/CaseManagementApp.tsx:113-135 | with a single outgoing edge, a completion moves to its target and appends one entry leaving `from` |
| Scenarios.TriageCompletes | constants.ts:54 | completing `triage` moves the case to `approval` and records leaving `triage` |
| Scenarios.DecisionForEnd | components/CaseManagementApp.tsx:115-137 | choosing an End target of a branching step moves the case there and closes it |
| Scenarios.RejectCloses | constants.ts:56 | choosing `rejected` at `approval` moves the case to `rejected` and closes it |
| Scenarios.SeedCaseSteps | constants.ts:74-168 | every seed case sits on `start`, `triage`, `approval` or `end` |
| Scenarios.SeedCaseApps | constants.ts:74-168 | every seed case belongs to `app-1`, `app-2` or `app-3` |
| Scenarios.UsedStepsResolve | constants.ts:7-50 | those four step ids name nodes of the default workflow |
| Scenarios.SeedCasesOnSteps | constants.ts:74-168 | every seed case has a step, and it names a node of the default workflow |
| Scenarios.SeedAppIds | constants.ts:62-66 | the seed apps are `app-1`, `app-2`, `app-3` |
| Scenarios.SeedOwnership | constants.ts:62-168 | every seed case's app is one of the seed apps |
| Engine.CaseById | components/CaseManagementApp.tsx:103 | none exactly when no case has the id; otherwise the first case with it |
| Engine.NodeById | components/CaseManagementApp.tsx:129 | none exactly when no node has the id; otherwise the first node with it |
| Engine.UserById | components/CaseManagementApp.tsx:140 | none exactly when no user has the id; otherwise the first user with it |
| Engine.NodeByIdDistinct | components/CaseManagementApp.tsx:129 | with distinct node ids the lookup finds each node by its own id |
| Engine.OutgoingEdges | components/CaseManagementApp.tsx:106 | exactly the edges whose source is the step, in workflow order |
| Engine.OutgoingEdgesCount | components/CaseManagementApp.tsx:106 | each edge leaving the step keeps its number of copies; any other edge has none |
| Engine.OutgoingTargets | components/CaseManagementApp.tsx:116 | some outgoing edge ends at `t` iff some workflow edge goes from the step to `t` |
| Engine.NextStep | components/CaseManagementApp.tsx:112-127 | the only edge's target; else the chosen id if truthy and some edge's target; else the first edge's target; an empty id gives no step |
| Engine.RoutedAssignee | components/CaseManagementApp.tsx:138-144 | when the node names a known user, the first user with that id; otherwise the case's current assignee unchanged |
| Engine.CompleteStep | components/CaseManagementApp.tsx:101-154 | the step-by-step resolution of `nextStepId` and `nextAssignee` issues exactly the update `Advance` defines |
| Engine.AdvanceNone | components/CaseManagementApp.tsx:103-127 | no update exactly when the case is unknown, no edge leaves the step, or the resolved id is empty |
| Engine.AdvanceMoves | components/CaseManagementApp.tsx:129-152 | an update goes along an edge of the step, appends exactly one entry (step left, actor, time) to the history, and leaves every other field as it was |
| Engine.AdvanceStatusAndAssignee | components/CaseManagementApp.tsx:137-150 | status becomes Closed iff the next node is an End node (else kept); the assignee is re-routed iff the next node names a known user |
| Engine.SingleEdgeIgnoresChoice | components/CaseManagementApp.tsx:113-114 | with one outgoing edge the choice passed in makes no difference |
| Engine.ChoiceRule | components/CaseManagementApp.tsx:115-125 | with several edges a truthy matching choice is taken; otherwise the first edge's target is used |
| Engine.DistinctChoicesDiverge | components/CaseManagementApp.tsx:115-120 | two different valid choices at a branching step lead to different updates |
| Engine.StepChange | components/CaseManagementApp.tsx:166-181 | nothing for an unknown case or node; otherwise only the step and the status change (New on Start, Closed on End, else In Progress), history untouched |
| Engine.KanbanColumnsSpec | components/CaseManagementApp.tsx:62-67 | the columns are exactly the Start, Task and End nodes (a permutation of them), sorted by x, with nodes sharing an x in workflow order |
| Engine.NewCase | components/CaseManagementApp.tsx:77-91 | the draft's fields are carried over with the given id, app and time; status New, no history, no form data; step is the first Start node, or none exactly when there is none |
| Editor.DefaultLabelIsTypeName | components/WorkflowBuilder.tsx:44 | the capitalised type name is the type name itself, for every node type |
| Editor.AddNode | components/WorkflowBuilder.tsx:40-49 | one node is appended, the others and the edges are kept; it has the type, position and label; it has an empty FILL form iff it is a Task |
| Editor.MoveNode | components/WorkflowBuilder.tsx:50-61 | only nodes with that id change, and only in x and y; node count and edges are kept |
| Editor.Drop | components/WorkflowBuilder.tsx:32-63 | a palette type adds a node; otherwise a non-empty dragged id moves that node; otherwise nothing happens |
| Editor.MoveKeepsGraph | components/WorkflowBuilder.tsx:50-61 | moving keeps every id and type, so distinct ids and resolving edges survive |
| Editor.Connect | components/WorkflowBuilder.tsx:83-102 | no change iff no connection was started, the target is the source, or the pair is already linked; otherwise exactly one edge from source to target is appended, nodes kept |
| Editor.ConnectTwice | components/WorkflowBuilder.tsx:85-89 | after a connection the pair has exactly one edge, and connecting it again issues no change |
| Editor.ConnectKeepsSimple | components/WorkflowBuilder.tsx:85-96 | connecting keeps every ordered pair linked at most once and adds no self-loop |
| Editor.ConnectKeepsResolved | components/WorkflowBuilder.tsx:89-96 | connecting two existing nodes keeps every edge resolvable |
| Editor.ConnectUnknownTarget | components/WorkflowBuilder.tsx:83-102 | a target that names no node is not refused: the edge is added and dangles |
| Editor.SaveNode | components/WorkflowBuilder.tsx:132-137 | only nodes with the saved node's id are replaced by it; node count and edges are kept |
| Editor.EditedNode | components/WorkflowBuilder.tsx:202-205 | the saved node keeps id, type, position and description, and takes the dialog's label, assignee and form |
| Editor.SaveKeepsGraph | components/WorkflowBuilder.tsx:132-137 | saving keeps every node id, so distinct ids and resolving edges survive |
| Editor.DeleteRemovesAll | components/WorkflowBuilder.tsx:139-145 | no node with the id and no edge touching it remains |
| Editor.DeleteKeepsRest | components/WorkflowBuilder.tsx:140-141 | every other node and every edge not touching it is kept, in the original order |
| Editor.DeleteKeepsResolved | components/WorkflowBuilder.tsx:139-142 | deleting leaves no dangling edge behind |
| Editor.KeptNodeId | components/WorkflowBuilder.tsx:140 | any other node id still names a node |
| Editor.AllWorkflowFields | components/WorkflowBuilder.tsx:153-155 | exactly the non-read-only fields of all node forms |
| Editor.FormModeChange | components/WorkflowBuilder.tsx:218-221 | no form stays none; otherwise only the mode changes |
| Editor.FormFieldsChange | components/WorkflowBuilder.tsx:213-216 | no form stays none; otherwise only the fields change |
| Editor.AddField | components/WorkflowBuilder.tsx:286-291 | one non-required text field `field_<stamp>` labelled "New Field" is appended, the others kept |
| Editor.DeleteField | components/WorkflowBuilder.tsx:309-311 | the field at the index is removed and the others keep their order; an index outside the list removes nothing |
| Editor.SanitizeIdSpec | components/WorkflowBuilder.tsx:297 | exactly the characters `[A-Za-z0-9_-]` are kept, in order; sanitising is idempotent and leaves clean ids alone |
| Editor.FieldChange | components/WorkflowBuilder.tsx:293-307 | the copy-then-assign edit returns exactly `EditedFields` |
| Editor.EditedFieldsSpec | components/WorkflowBuilder.tsx:293-307 | refused iff an id edit's sanitised id is held by another field of the same list; otherwise only the field at the index changes, and in it only the edited attribute, which takes the edit's value (the sanitised id for an id edit, the comma-split text for the options) |
| Editor.EditKeepsDistinctIds | components/WorkflowBuilder.tsx:298-301 | within one node's list an accepted edit keeps ids distinct |
| Editor.PerNodeUniquenessOnly | components/WorkflowBuilder.tsx:298 | an id held by another node's field is accepted, breaking workflow-wide uniqueness (types.ts:76) |
| CaseDetail.CurrentStep | components/CaseDetailView.tsx:33 | the node the case's step id names; none iff there is no step id or it names no node |
| CaseDetail.LandingOnEndLocks | components/CaseDetailView.tsx:45-46 | a completion that lands on an End node closes the case, and afterwards nobody, signed in or not, passes the completion gate |
| CaseDetail.RoutedAssigneeHoldsGate | components/CaseDetailView.tsx:45-49 | after a completion routes the case to a non-End node naming a known user, a user passes the gate iff their id is the new assignee's; nobody signed in does not pass |
| CaseDetail.UnassignedStepOpen | components/CaseDetailView.tsx:45-49 | a non-End step with no assignee passes the gate for anyone, signed in or not; a case on an End node or on no node never does |
| CaseDetail.ShownFormSubmits | components/CaseDetailView.tsx:157-172 | when the form is shown the step passes the gate, and a submit is never met with "no form": it goes through iff no required field is unfilled, and otherwise names the first unfilled one |
| CaseDetail.BuildInitialState | components/CaseDetailView.tsx:37-40 | the `forEach` writing starting values yields `InitialState` |
| CaseDetail.InitialStateKeys | components/CaseDetailView.tsx:37-40 | the state has a key for exactly the fields' ids |
| CaseDetail.InitialStateLastWins | components/CaseDetailView.tsx:38-40 | each key holds the starting value (stored value, else `false` for a checkbox, else "") of the last field with that id |
| CaseDetail.InitialStateDistinct | components/CaseDetailView.tsx:38-40 | with distinct ids every field gets its own starting value |
| CaseDetail.FirstMissing | components/CaseDetailView.tsx:58-63 | none iff every required field is truthy; otherwise the first required field that is falsy |
| CaseDetail.CheckRequired | components/CaseDetailView.tsx:58-63 | the loop with early return finds exactly `FirstMissing` |
| CaseDetail.FillSubmitSpec | components/CaseDetailView.tsx:55-73 | goes through iff every required field is truthy; a refusal names the first unfilled field; the merged data keeps unmentioned keys, takes the form's values, and nothing else changes |
| CaseDetail.ApprovalDecisionsSpec | components/CaseDetailView.tsx:174-182 | one decision per outgoing edge whose target node exists, in edge order, each naming that edge's target; hence every decision is such a target and every such edge's target is offered |
| CaseDetail.DecisionLandsOnTarget | components/CaseDetailView.tsx:76-78 | taking a decision moves the case to exactly that decision's node |
| CaseDetail.NodeProgress | components/CaseDetailView.tsx:80-84 | In Progress iff current; else Completed iff some history entry names it; else Pending |
| CaseDetail.AdvanceProgress | components/CaseDetailView.tsx:80-84 | after a completion the step left and every visited node are not Pending, and the new step is In Progress |
| CaseDetail.ReadonlyDisplay | components/CaseDetailView.tsx:109-111 | 'N/A' without a source; otherwise the source's value rendered: "Not provided" when absent or empty, Yes/No for a boolean, the text otherwise |
| CaseDetail.EdgeCompletedSpec | components/CaseDetailView.tsx:193-199 | drawn completed iff both nodes exist, the source was visited and the target is not Pending |
| Board.AppCases | components/CaseManagementApp.tsx:35 | exactly the cases of the app, in list order |
| Board.AppCasesCount | components/CaseManagementApp.tsx:35 | each case of the app keeps its number of copies; a case of another app has none |
| Board.BoardColumnsSpec | components/KanbanBoard.tsx:50-51 | one column per column node in order, holding exactly the cases on that node, in list order |
| Board.CaseInOneColumn | components/KanbanBoard.tsx:50-51 | a case on no column's node is in no column; with distinct column ids it is in at most one |
| Board.DropMovesToColumn | components/KanbanBoard.tsx:21-24 | a drop requests exactly the column's id, and the resulting case is in that column with history untouched |
| AppState.ReplaceCaseSpec | App.tsx:35-37 | same length; the updated case at every matching position, others unchanged; with no match nothing changes |
| AppState.ReplaceCaseTwice | App.tsx:35-37 | of two updates for the same id, the second wins |
| AppState.LookupAfterReplace | App.tsx:35-37 | after an update the case is found iff it was before, and it is the updated one |
| AppState.ReplaceAppSpec | App.tsx:54-56 | same length; the updated app at every matching position, others unchanged |
| AppState.DeleteAppSpec | App.tsx:58-61 | no app with the id and no case of it remains; all other apps and cases remain, in order |
| AppState.DeleteAppKeepsOwnership | App.tsx:58-61 | the cascade keeps every remaining case owned by a remaining app |
| AppState.AppendAppKeepsOwnership | App.tsx:48-52 | appending an app keeps every case owned |
| AppState.ReplaceAppKeepsOwnership | App.tsx:54-56 | replacing an app keeps every case owned |
| AppState.InsertEventSpec | App.tsx:45 | the list after adding is sorted by start, a permutation of old list plus the event, and ties keep insertion order |
| AppState.AppStore.constructor | App.tsx:15-19 | the seed apps and cases, the given events, nothing selected |
| AppState.AppStore.SelectApp | App.tsx:21-24 | the app is selected and the case to open is the given id when truthy, else none |
| AppState.AppStore.ExitApp | App.tsx:26-29 | selection and case to open are cleared |
| AppState.AppStore.AddCase | App.tsx:31-33 | the case is put in front of the others; ownership is kept when its app exists |
| AppState.AppStore.UpdateCase | App.tsx:35-37 | the cases become `ReplaceCase` of the old ones |
| AppState.AppStore.AddEvent | App.tsx:39-46 | the new event, with source `local`, is inserted in start order |
| AppState.AppStore.CreateApp | App.tsx:48-52 | one app with the new id is appended |
| AppState.AppStore.UpdateApp | App.tsx:54-56 | the apps become `ReplaceApp` of the old ones |
| AppState.AppStore.DeleteApp | App.tsx:58-61 | the app and its cases are filtered out, everything else kept |
| Auth.FindByEmail | contexts/AuthContext.tsx:55 | none iff no e-mail matches ignoring case; otherwise the first matching user |
| Auth.EmailTakenIffFound | contexts/AuthContext.tsx:129 | the duplicate check rejects exactly the addresses a login would find |
| Auth.LoginFindsTheUser | contexts/AuthContext.tsx:55 | with unique addresses, login by any case variant of a user's address finds that user |
| Auth.AppendFreshEmailKeepsUnique | contexts/AuthContext.tsx:139 | appending a user with an untaken address keeps addresses unique |
| Auth.DeleteKeepsEmailsUnique | contexts/AuthContext.tsx:181 | removing users keeps addresses unique |
| Auth.ApplyPatch | contexts/AuthContext.tsx:164 | id, e-mail and avatar kept; name and role taken from the patch where given |
| Auth.PatchedUser | contexts/AuthContext.tsx:160-174 | none iff no user has the id; otherwise the patched form of the last user with it, as stored in the list |
| Auth.PatchedUsersSpec | contexts/AuthContext.tsx:161-167 | same length; only users with the id change, in name and role; addresses stay unique |
| Auth.PatchIdempotent | contexts/AuthContext.tsx:161-167 | applying the same update twice equals applying it once |
| Auth.MergeSocialSpec | contexts/AuthContext.tsx:73-76 | the user is appended iff no user has its id; the list only grows by that one; merging again changes nothing |
| Auth.SocialMergeIgnoresEmail | contexts/AuthContext.tsx:74 | the merge checks ids only, so a new id with a known address (another case) breaks unique addresses |
| Auth.LocalPart | contexts/AuthContext.tsx:150 | the prefix of the address before the first `@` (the whole address without one) |
| Auth.AuthStore.constructor | contexts/AuthContext.tsx:50-51 | the seed users, nobody signed in |
| Auth.AuthStore.Login | contexts/AuthContext.tsx:53-61 | signs in the first user matching ignoring case; otherwise fails with "User not found." and changes nothing |
| Auth.AuthStore.SocialLogin | contexts/AuthContext.tsx:73-78 | the users become the id-deduplicated merge and the user is signed in |
| Auth.AuthStore.Logout | contexts/AuthContext.tsx:124-126 | nobody signed in, users unchanged |
| Auth.AuthStore.Signup | contexts/AuthContext.tsx:128-142 | a taken address fails and changes nothing; otherwise one Member is appended and signed in; unique addresses are kept |
| Auth.AuthStore.Invite | contexts/AuthContext.tsx:144-157 | a taken address fails; otherwise one user with the role and the local part as name is appended; the signed-in user is unchanged |
| Auth.AuthStore.UpdateUser | contexts/AuthContext.tsx:159-175 | users patched by id; fails with "User not found for update." for an unknown id; refreshes the signed-in user iff it is the one updated |
| Auth.AuthStore.DeleteUser | contexts/AuthContext.tsx:177-182 | deleting the signed-in user fails and changes nothing; otherwise exactly the users with the id are removed |
| Auth.DeleteUserSpec | contexts/AuthContext.tsx:181 | a user remains iff it was there with another id, in the original order, with as many copies as before |
| NewCase.ParseTagsClean | components/NewCaseForm.tsx:53 | every parsed tag is non-empty, comma-free, and neither starts nor ends with whitespace |
| NewCase.ParseTagsAppend | components/NewCaseForm.tsx:53 | tags from two comma-joined inputs are the first's tags followed by the second's: order is kept |
| NewCase.ParseTagsJoin | components/NewCaseForm.tsx:53 | joining clean tags with commas and parsing gives them back |
| NewCase.Submit | components/NewCaseForm.tsx:41-55 | refused iff title, description or client is empty (untrimmed); otherwise all fields pass through unchanged and the tags are parsed |
| NewCase.CanGenerateSpec | components/NewCaseForm.tsx:24-27 | generation is refused exactly for an all-whitespace title |
| NewCase.BlankTitleSubmits | components/NewCaseForm.tsx:43 | a title of blanks can be submitted but not used to generate a description |
| Creator.Submit | components/AppCreator.tsx:28-36 | refused iff the name is all whitespace; name, icon and colour pass through; the edited app's workflow is kept, else the default one |
| Creator.EditRoundTrip | components/AppCreator.tsx:34-35 | resubmitting an app unchanged reproduces it |
| Submission.AsWrittenKeepsStaleFormData | components/CaseDetailView.tsx:72-73 | as written, when the step moves on, every stored entry for the case ends with its form data from before the submit |
| Submission.AsWrittenLosesFilledField | components/CaseManagementApp.tsx:146-154 | a concrete one-field workflow where the filled value is in the merged case but not in the stored one |
| Submission.AdvanceKeepsForm | components/CaseManagementApp.tsx:146-152 | a completion keeps the case's id and form data and appends one history entry |
| Submission.SubmitFillAdvances | components/CaseDetailView.tsx:72-73 | with the submit applied first, the stored case has merged form data and one more history entry |
| Submission.SubmitFillKeepsForm | components/CaseDetailView.tsx:65-73 | with the submit applied first, whether or not the step moves, the case keeps the merged data, the others are untouched, and a refusal changes nothing |
| Text.TrimSlice | components/AppCreator.tsx:30 | `trim` keeps a middle slice with only whitespace cut either side, and the result neither starts nor ends with whitespace |
| Text.TrimIdempotent | components/NewCaseForm.tsx:53 | trimming twice is trimming once |
| Text.TrimEmptyIffAllSpace | components/AppCreator.tsx:30 | the trimmed string is empty iff the input is all whitespace |
| Text.JoinSplit | components/NewCaseForm.tsx:53 | joining the pieces of a split with the separator gives back the input |
| Text.SplitJoin | components/NewCaseForm.tsx:53 | splitting a join of separator-free pieces gives back the pieces |
| Text.SplitAppend | components/NewCaseForm.tsx:53 | splitting at a separator splits each side separately |
| Text.SplitHead | contexts/AuthContext.tsx:150 | the first piece is the longest separator-free prefix |
| Text.Capitalize | components/WorkflowBuilder.tsx:44 | first character upper-cased, the rest lower-cased, same length |
| Text.EqualsIgnoringCaseFacts | contexts/AuthContext.tsx:55 | comparing lower-cased strings is reflexive, symmetric and transitive |
| Sorting.SortBy | App.tsx:45 | the result is sorted by the key and a permutation of the input |
| Sorting.SortByStable | components/CaseManagementApp.tsx:62-67 | elements sharing a key come out in their input order |
| Sorting.SortBySorted | components/CaseManagementApp.tsx:62-67 | sorting a list already in order changes nothing |

## Left out

- Connector geometry, canvas bounds, drag offsets, click suppression and drag-over styling: floating-point and DOM behaviour with no bearing on the graph.
- Node positions and event start times are integers. The source's JavaScript numbers may be fractional, and the model does not cover fractional values.
- The AI description service, OAuth/JWT/MSAL token decoding, and the construction of a user from a provider profile: network and foreign code. A social login takes the finished user as a parameter.
- localStorage persistence and the simulated integrations: I/O.
- React scheduling: each handler is one atomic step on explicit state. `updateUser` reads the user its `setUsers` updater produced as if the updater ran at once.
- UI side effects: alerts, the selected case, open modals, the post-completion modal close and confirmation dialogs. A refused FILL submit is a `MissingField` outcome naming the field.
- Text.Lower and Text.Capitalize map only the ASCII letters A–Z and a–z. JavaScript's full Unicode case mapping is not modelled.
- Number and date inputs yield strings here. Form values are strings or booleans only.
- Text.Split: only the one-character separators the source uses.
- Seed.InitialCases: the long free-text descriptions of the seed cases are left empty. No property depends on them.
- `INITIAL_CALENDAR_EVENTS` is built from the current date. `AppStore`'s constructor takes the initial events as a parameter.
- The palette's drag payload is an optional node type. A payload naming no type is treated as no palette drop.
- Auth.ApplyPatch: a patch is an optional name and an optional role. A patch object whose key is present but explicitly `undefined` is not modelled.
- Unique e-mail addresses among the three seed users are not proved. Only that the operations preserve uniqueness is proved.
- Moving a case from triage through approval on the default workflow is not proved as one composite lemma. The single steps are proved separately (TriageCompletes, RejectCloses, DecisionForEnd).
- Behaviour of the code that the model keeps as written:
  - connect refuses a self-loop (components/WorkflowBuilder.tsx:85-89);
  - connect does not check that the target id names a node (components/WorkflowBuilder.tsx:83-102; Editor.ConnectUnknownTarget);
  - field-id uniqueness is checked only within one node's list (components/WorkflowBuilder.tsx:298), although the comment at types.ts:76 asks for uniqueness within the workflow (Editor.PerNodeUniquenessOnly);
  - read-only fields are not exempt from the required-field check (components/CaseDetailView.tsx:58-63);
  - a step completion does not re-check the assignee gate (components/CaseManagementApp.tsx:101-154).

## Findings

| source | as written | input that shows it | evidently intended | confidence | as-written member | corrected member |
|---|---|---|---|---|---|---|
| components/CaseDetailView.tsx:72-73 | A FILL submit first stores the case with the merged form data. Completion then rebuilds the case from the case list as it was before that update (components/CaseManagementApp.tsx:103, 146-154). The second replace wins (App.tsx:35-37), so the filled-in values are lost whenever the step moves on. | A workflow `a` (Task with FILL field `f`) → `b`, a case on `a` with empty form data, submitting `f = "x"`: the stored case is on `b` without `f` | the completion starts from the merged case, so the stored case has the merged form data and one more history entry | not executed | Submission.AsWrittenLosesFilledField | Submission.SubmitFillKeepsForm |
