# TodoMVC in Bevy UI — a Dafny model of its frame logic

This project models the frame logic of a TodoMVC demo written on the Bevy
engine's UI. The demo is a set of ECS systems that run once per frame:

- a click normaliser and a focus state machine (`Focusable` flags, focus and
  blur events);
- a button style rule;
- the todo row sync and the "complete" toggle;
- the remaining-count label, with its cached count;
- the body-spawn flag;
- the swap between the input node's placeholder and its add button on focus
  and blur, in the current and in the older generation of the input node;
- the domain constructors and the `Rect` side helpers.

The ECS world is written out as explicit tables:

- an entity is a `nat`;
- each component kind the model needs is a `map<Entity, T>`;
- the order in which a query visits its matches is a `seq<Entity>`;
- change detection (`Mutated`, `Changed`, `Added`) is an explicit set or
  sequence given to the system;
- event queues are sequences, and an `EventReader` is a cursor into one.

Spawning code appends to a command buffer (`NodeContext.cmds`).
`Scene.Apply` states what a buffer does, in order, to the child lists, the
text values and the marker components. The lemmas about the scene after a
buffer is applied use it.

Modules, one per source file plus two for the engine:

| module | file | models |
|---|---|---|
| `Ecs` | ecs.dfy | options, `Interaction`, query filtering, event-reader cursors |
| `Scene` | scene.dfy | applying a command buffer, recursive despawn |
| `Domain` | domain.dfy | `Filter`, `Todo`, `Todo::new`, the message list |
| `RectHelpers` | rect_helpers.dfy | the eight `Rect` constructors |
| `CommonNodes` | common_nodes.dfy | node descriptions, default selection, `NodeContext` and its spawn helpers |
| `Ui` | ui.dfy | node clicks, focus, button styling |
| `TodoInput` | todo_input.dfy | the current input node and the add-todo click |
| `LegacyTodoInput` | legacy_todo_input.dfy | the older input node |
| `TodoRow` | todo_row.dfy | row sync, the complete toggle, row spawning |
| `TodoFooter` | todo_footer.dfy | the count label and the footer's structure |
| `TodoBody` | todo_body.dfy | the body-spawn flag and the body's structure |

`NodeContext` allocates ids the way the source's `spawn_node` does: the
node's own id first, at the point where it calls `Entity::new()` (src/todomvc/ui.rs:420-424),
then whatever its children spawn. `BeginDiv` and `EndDiv` split `div_node`
around its children closure. Fresh ids are a counter (`next`), so
"`Bounded(s, next)`" means that every id from `next` on is unused.

## Model

| member | source | states |
|---|---|---|
| Ecs.DefaultInteraction | src/todomvc/todo_input.rs:111 | a new node's interaction is `None` (`Idle`) |
| Ecs.Select | src/todomvc/ui.rs:188-192 | keeps exactly the members of the query order that pass the filter, in order, and keeps them distinct |
| Ecs.EventReader.Read | src/todomvc/ui.rs:210 | returns exactly the events after the cursor and moves the cursor to the end of the queue |
| Ecs.ReadTwice | src/todomvc/ui/todo_input.rs:19-22 | a second read in the same pass returns nothing, so each event is handled once |
| Domain.DefaultFilter | src/todomvc/domain.rs:15-19 | the default filter is `All` |
| Domain.NewTodo | src/todomvc/domain.rs:28-34 | keeps the label, is not completed, and has ordinal 0, the "place me at the end" marker |
| Domain.RandomMessage | src/todomvc/domain.rs:36-63 | the chosen message is one of the list and is non-empty |
| Domain.EveryMessageCanBeDrawn | src/todomvc/domain.rs:37-62 | the list holds 22 messages and each one is the result of some choice, so the `unwrap` cannot fail |
| Domain.RandomTodoIsSample | src/todomvc/domain.rs:28-62 | a random todo has a listed text, is not completed and has ordinal 0 |
| RectHelpers.DefaultRect | src/todomvc/rect_helpers.rs:27 | every side of the default rect is `Val::default()` (`Undefined`) |
| RectHelpers.All | src/todomvc/rect_helpers.rs:14-21 | all four sides are `s` |
| RectHelpers.X | src/todomvc/rect_helpers.rs:23-29 | left and right are `x`; top and bottom are default |
| RectHelpers.Y | src/todomvc/rect_helpers.rs:31-37 | top and bottom are `y`; left and right are default |
| RectHelpers.XY | src/todomvc/rect_helpers.rs:39-46 | left = right = `x` and top = bottom = `y` |
| RectHelpers.Left | src/todomvc/rect_helpers.rs:48-53 | only the left side is set; the other three are default |
| RectHelpers.Right | src/todomvc/rect_helpers.rs:54-60 | only the right side is set; the other three are default |
| RectHelpers.Top | src/todomvc/rect_helpers.rs:61-67 | only the top side is set; the other three are default |
| RectHelpers.Bottom | src/todomvc/rect_helpers.rs:68-73 | only the bottom side is set; the other three are default |
| RectHelpers.XYDiagonalIsAll | src/todomvc/rect_helpers.rs:14-46 | `xy(v, v) == all(v)` |
| RectHelpers.PairsAreSides | src/todomvc/rect_helpers.rs:23-73 | `x` is `left` plus `right`, `y` is `top` plus `bottom`, `xy(v, v)` is `x(v)` with top and bottom set |
| CommonNodes.PlainText | src/todomvc/ui/common_nodes.rs:110-120 | a text node with only its text set: no font size, no colour |
| CommonNodes.DefaultBackground | src/todomvc/ui/common_nodes.rs:158-162 | the default background is the default colour |
| CommonNodes.BackgroundFrom | src/todomvc/ui/common_nodes.rs:152-156 | a material handle converts to the material background holding that handle |
| CommonNodes.HeadingStyle | src/todomvc/ui/common_nodes.rs:3-7 | keeps a given font size, else `FONT_H1`; keeps a given colour, else `HEADER_RED`; every other field passes through |
| CommonNodes.BehaviorFor | src/todomvc/ui/common_nodes.rs:43-50 | normal, hover and pressed are the node's colours or else `btn_dark`, `btn_dark_hovered`, `btn_dark_pressed`; `active` is copied; `is_active` starts false |
| CommonNodes.TextBundleFor | src/todomvc/ui/common_nodes.rs:95-102 | the text is the node's; the font size is the node's or `FONT_BODY`; the colour is the node's or `TEXT` |
| CommonNodes.NodeContext.NewEntity | src/todomvc/ui.rs:420-424 | returns the next id and advances the counter by one |
| CommonNodes.NodeContext.AddMaterial | src/todomvc/ui/common_nodes.rs:167 | adds exactly one asset and returns its handle |
| CommonNodes.NodeContext.GetMaterial | src/todomvc/ui/common_nodes.rs:165-170 | a material background returns its handle and adds nothing; a colour background adds exactly one material and returns it |
| CommonNodes.NodeContext.SpawnText | src/todomvc/ui/common_nodes.rs:85-108 | takes one fresh id and queues exactly one text spawn for it |
| CommonNodes.NodeContext.SpawnHeading | src/todomvc/ui/common_nodes.rs:3-7 | spawns the node with the heading defaults applied |
| CommonNodes.NodeContext.SpawnTextButton | src/todomvc/ui/common_nodes.rs:18-53 | the button takes the first id and its caption the second; it queues the caption, the button with `normal` as its material, the child link and the behaviour, in that order |
| CommonNodes.NodeContext.BeginDiv | src/todomvc/ui/common_nodes.rs:55-77 | takes the div's id before its children and resolves its material as `get_material` does |
| CommonNodes.NodeContext.EndDiv | src/todomvc/ui/common_nodes.rs:78-82 | queues the div's spawn and then attaches the children, in order |
| Ui.DefaultFocusable | src/todomvc/ui.rs:164-168 | a new `Focusable` has no focus |
| Ui.FocusTransition | src/todomvc/ui.rs:258-266 | a focus event exactly on false→true, a blur event exactly on true→false, never both, and nothing when the flag is unchanged |
| Ui.UiWorld.SetFocus | src/todomvc/ui.rs:251-269 | sets the flag to `is_focused` and appends the focus or blur event that `FocusTransition` selects |
| Ui.UiWorld.NodeClickEventSource | src/todomvc/ui.rs:184-193 | appends one click event per node whose changed interaction is `Clicked`, in query order, and none for the others |
| Ui.IsLeftPress | src/todomvc/ui.rs:211 | a mouse input counts as a click exactly when it is a press of the left button; a release or another button does not |
| Ui.MouseClicked | src/todomvc/ui.rs:209-214 | true iff some mouse input of the pass is a left-button press |
| Ui.ClickTarget | src/todomvc/ui.rs:216-224 | some node is chosen iff a focusable node was clicked, and it is the last such node |
| Ui.FocusableEntityClicked | src/todomvc/ui.rs:216-224 | returns `ClickTarget`, and its flag is true iff a focusable node was clicked |
| Ui.Sweep | src/todomvc/ui.rs:227-247 | visiting the focusable nodes in query order with `set_focus`; every node keeps its entry |
| Ui.UiWorld.SweepFocus | src/todomvc/ui.rs:227-235 | the flags and event queues become those of `Sweep` over the query order |
| Ui.FocusFrame | src/todomvc/ui.rs:226-248 | a focusable click sweeps to its target; otherwise a left press sweeps to none; otherwise nothing changes |
| Ui.UiWorld.FocusableClickSystem | src/todomvc/ui.rs:201-249 | reads both queues to the end; the flags and new events are those of `FocusFrame` for this pass's clicks and presses |
| Ui.SweepFlags | src/todomvc/ui.rs:227-235 | each visited node's flag becomes "is it the target"; the other nodes keep theirs |
| Ui.SweepFocused | src/todomvc/ui.rs:260-262 | a focus event is sent exactly for a visited target that lacked focus |
| Ui.SweepBlurred | src/todomvc/ui.rs:264-266 | a blur event is sent exactly for each visited non-target node that had focus, each node at most once |
| Ui.SweepEffect | src/todomvc/ui.rs:226-269 | combines the three sweep lemmas for a query that visits each node once |
| Ui.ClickFocusesTarget | src/todomvc/ui.rs:216-236 | after a focusable click, exactly the last such node has focus; it gets a focus event unless it had focus; every other node that had focus gets one blur event |
| Ui.ClickOnSoleFocusedIsQuiet | src/todomvc/ui.rs:226-236 | clicking the only focused node changes no flag and sends no event |
| Ui.PressBlursAll | src/todomvc/ui.rs:238-248 | a left press without a focusable click unfocuses every node, with one blur event per node that had focus and no focus event |
| Ui.NothingIsQuiet | src/todomvc/ui.rs:226-248 | no focusable click and no left press: no flag changes and no event is sent |
| Ui.FocusFrameKeepsAtMostOne | src/todomvc/ui.rs:226-248 | if at most one node had focus before a pass, at most one has it after; no node gets both events |
| Ui.StyleButton | src/todomvc/ui.rs:296-306 | an active button shows `active` if set, else `normal`; otherwise `Clicked`→`pressed`, `Hovered`→`hover`, `None`→`normal` |
| Ui.ActiveOverridesInteraction | src/todomvc/ui.rs:297-298 | an active button's material does not depend on the interaction |
| Ui.InitialMaterialIsNormal | src/todomvc/ui/common_nodes.rs:32-49 | a new button's material (`normal`) is what the style rule selects for it at rest |
| Ui.Restyle | src/todomvc/ui.rs:286-293 | restyling a set of buttons keeps every material entry |
| Ui.RestyleOneMore | src/todomvc/ui.rs:286-288 | restyling one more button overwrites only that button's material |
| Ui.RestyleIdempotent | src/todomvc/ui.rs:286-306 | restyling the same buttons twice gives the same materials as once |
| Ui.ButtonWorld.RestyleAll | src/todomvc/ui.rs:286-288 | after the loop, the materials are `Restyle` of the visited buttons |
| Ui.ButtonWorld.ButtonInteractionSystem | src/todomvc/ui.rs:271-294 | every button whose interaction or behaviour changed shows the style rule's material; every other button keeps its material |
| TodoInput.PlaceholderBundle | src/todomvc/ui/todo_input.rs:128-151 | the placeholder is a text "What needs to be done?" |
| TodoInput.ClickedCount | src/todomvc/ui/todo_input.rs:28-32 | bounded by the changed buttons; zero iff no changed button is `Clicked` |
| TodoInput.AddTodoCommands | src/todomvc/ui/todo_input.rs:28-32 | one spawn per clicked button, in order, on consecutive fresh ids |
| TodoInput.AddedTodosAreSamples | src/todomvc/ui/todo_input.rs:30 | every spawned todo is `Todo::new` of a listed message: not completed, ordinal 0 |
| TodoInput.OnAddButtonClicked | src/todomvc/ui/todo_input.rs:24-33 | the buffer gains exactly `AddTodoCommands` and one id is used per click |
| TodoInput.IsInputNode | src/todomvc/ui/todo_input.rs:63-77 | the focus and blur handlers act on an event's node only when it carries the input-node marker and has a child list, as the `inputs` query lookups require |
| TodoInput.TaggedWith | src/todomvc/ui/todo_input.rs:80-84 | exactly the entities that carry the marker |
| TodoInput.DespawnWhere | src/todomvc/ui/todo_input.rs:64-68 | only despawns of children that match, and a despawn for every matching child |
| TodoInput.QueueDespawns | src/todomvc/ui/todo_input.rs:64-68 | the buffer gains exactly `DespawnWhere` of the child list |
| TodoInput.FocusResponse | src/todomvc/ui/todo_input.rs:62-73 | nothing for a node that is not an input node; otherwise text-child despawns, the add button, then one push of the new button as the last command |
| TodoInput.BlurResponse | src/todomvc/ui/todo_input.rs:76-98 | nothing for a node that is not an input node; otherwise add-button despawns, then the placeholder spawn and its push as the last two commands |
| TodoInput.InputCount | src/todomvc/ui/todo_input.rs:63 | counts the events that name an input node; never more than the events |
| TodoInput.FocusFrame | src/todomvc/ui/todo_input.rs:62-73 | uses two ids per input-node event and emits nothing when no event names an input node |
| TodoInput.BlurFrame | src/todomvc/ui/todo_input.rs:76-99 | uses one id per input-node event and emits nothing when no event names an input node |
| TodoInput.SpawnAddButtonNode | src/todomvc/ui/todo_input.rs:153-192 | takes the button id and then its label's; queues exactly `ButtonCommands` |
| TodoInput.SpawnPlaceholderLabel | src/todomvc/ui/todo_input.rs:128-151 | takes one id and queues the placeholder text spawn |
| TodoInput.SpawnTodoInputNode | src/todomvc/ui/todo_input.rs:102-126 | takes the node's id, then the placeholder's; adds one white material; queues exactly `InputNodeCommands` |
| TodoInput.RespondToFocus | src/todomvc/ui/todo_input.rs:63-72 | the buffer gains exactly `FocusResponse`; two ids are used for an input node and none otherwise |
| TodoInput.RespondToBlur | src/todomvc/ui/todo_input.rs:77-98 | the buffer gains exactly `BlurResponse`; one id is used for an input node and none otherwise |
| TodoInput.RespondToFocusEvents | src/todomvc/ui/todo_input.rs:62-73 | the buffer and counter become those of `FocusFrame` over the events |
| TodoInput.RespondToBlurEvents | src/todomvc/ui/todo_input.rs:76-99 | the buffer and counter become those of `BlurFrame` over the events |
| TodoInput.OnTodoInputFocus | src/todomvc/ui/todo_input.rs:35-100 | both readers reach the end of their queues; the buffer gains the focus responses, then the blur responses |
| TodoInput.SwappedAllRemoved | src/todomvc/ui/todo_input.rs:62-98 | when every old child was removed, the only child left is the new one |
| TodoInput.SwappedByAppend | src/todomvc/ui/todo_input.rs:71 | keeping some old children and appending a fresh one is a swap |
| TodoInput.DespawnWhereEffect | src/todomvc/ui/todo_input.rs:64-68 | despawning matching children only removes things, and no matching child stays under the node |
| TodoInput.ApplyButtonCommands | src/todomvc/ui/todo_input.rs:153-192 | the new button is marked, holds exactly its label, and the label reads "Add a random todo" |
| TodoInput.FocusResponseEffect | src/todomvc/ui/todo_input.rs:62-73 | after a focus, no text child is left under the input node, the new button is appended as its last child, nothing else joins, and the button is marked and holds its label |
| TodoInput.FocusKeepsInputNode | src/todomvc/ui/todo_input.rs:63-71 | a focus leaves the focused node an input node |
| TodoInput.BlurResponseEffect | src/todomvc/ui/todo_input.rs:76-98 | after a blur, no add button is left under the input node, the new placeholder is appended as its last child and nothing else joins |
| TodoInput.InputNodeScene | src/todomvc/ui/todo_input.rs:116-123 | the scene after a new input node: the placeholder as its only child, the marker, and nothing else changed |
| TodoInput.ApplyInputNodeCommands | src/todomvc/ui/todo_input.rs:102-126 | a new input node is an input node whose only child is the placeholder text |
| TodoInput.FocusThenBlurFromPlaceholder | src/todomvc/ui/todo_input.rs:62-98 | from a placeholder child, a focus leaves the button as the only child and a blur leaves one new placeholder |
| TodoInput.FocusThenBlurRestoresPlaceholder | src/todomvc/ui/todo_input.rs:62-126 | from a freshly spawned input node, focus then blur leaves exactly one child, a placeholder |
| LegacyTodoInput.InputNodeLabelBundle | src/todomvc/todo_input.rs:77-88 | the older placeholder is "What needs to be done?" at size 24 in `TEXT_MUTED` |
| LegacyTodoInput.InsertTodoButtonNode | src/todomvc/todo_input.rs:116-154 | queues the button marked `InsertTodoButton` with its "Add a random todo" label |
| LegacyTodoInput.SpawnTodoInputNode | src/todomvc/todo_input.rs:90-114 | takes the node's id, then the label's; adds one white material; queues exactly `InputNodeCommands` |
| LegacyTodoInput.OnTodoInputFocus | src/todomvc/todo_input.rs:22-75 | both readers reach the end; the buffer gains the focus responses (insert button), then the blur responses (older placeholder) |
| LegacyTodoInput.InputNodeScene | src/todomvc/todo_input.rs:103-111 | the scene after a new older input node: its label as its only child, the marker, and nothing else changed |
| LegacyTodoInput.ApplyInputNodeCommands | src/todomvc/todo_input.rs:90-114 | a new older input node is an input node whose only child is the placeholder label |
| LegacyTodoInput.FocusThenBlurRestoresPlaceholder | src/todomvc/todo_input.rs:47-73 | from a freshly spawned older input node, focus leaves the insert button as its only child and blur then leaves one placeholder |
| TodoRow.CompleteMark | src/todomvc/ui/todo_row.rs:55 | `" X "` exactly when completed and `"   "` exactly when not |
| TodoRow.FirstLabel | src/todomvc/ui/todo_row.rs:43-48 | the first label in query order whose parent is the row, or none when no label belongs to it |
| TodoRow.RowWorld.SetRowLabel | src/todomvc/ui/todo_row.rs:43-48 | writes the todo's text into `FirstLabel` only; every other text is unchanged |
| TodoRow.RowWorld.SetButtonLabels | src/todomvc/ui/todo_row.rs:53-58 | writes the mark into every label whose parent is the button; every other text is unchanged |
| TodoRow.RowWorld.SyncRow | src/todomvc/ui/todo_row.rs:35-61 | the row's first label shows the todo's text; every label of the row's complete buttons shows the mark; nothing else changes |
| TodoRow.RowWorld.AllButtonsMarked | src/todomvc/ui/todo_row.rs:51-60 | after all buttons are visited, exactly the labels of the row's buttons hold the mark |
| TodoRow.RowWorld.LabelRow | src/todomvc/ui/todo_row.rs:43-48 | names the row of which `x` is the first label, if any |
| TodoRow.RowWorld.FirstLabelIsRowLabel | src/todomvc/ui/todo_row.rs:43-58 | a row's first label is not a button label, so the two writes never collide |
| TodoRow.RowWorld.SyncedRows | src/todomvc/ui/todo_row.rs:20-22 | exactly the rows bound to a changed todo |
| TodoRow.RowWorld.RowsOf | src/todomvc/ui/todo_row.rs:21-22 | exactly the rows bound to `t` |
| TodoRow.RowWorld.SyncedRowsSnoc | src/todomvc/ui/todo_row.rs:20-31 | one more changed todo adds exactly its rows |
| TodoRow.RowWorld.SyncStep | src/todomvc/ui/todo_row.rs:23-29 | syncing one more row moves every text to what is expected with that row synced |
| TodoRow.RowWorld.SyncOneMore | src/todomvc/ui/todo_row.rs:23-29 | syncing a live row keeps the tables valid and extends the synced rows by it |
| TodoRow.RowWorld.SyncTodoRows | src/todomvc/ui/todo_row.rs:21-31 | scanning the rows for one todo syncs exactly the rows bound to it |
| TodoRow.RowWorld.AllRowsVisited | src/todomvc/ui/todo_row.rs:21-31 | after the scan, the synced rows are the earlier ones plus the todo's rows |
| TodoRow.RowWorld.SyncRowSystem | src/todomvc/ui/todo_row.rs:11-33 | only rows bound to a changed todo are written: each shows its todo, and every text not under such a row is unchanged |
| TodoRow.BoundTodo | src/todomvc/ui/todo_row.rs:70-73 | the bound todo exists iff the button's parent is a row, and it is that row's binding |
| TodoRow.Toggle | src/todomvc/ui/todo_row.rs:72-76 | flips `completed` of exactly the target todo; text, ordinal and all other todos are unchanged; a missing target changes nothing |
| TodoRow.ToggleTwice | src/todomvc/ui/todo_row.rs:74 | flipping the same todo twice restores every todo |
| TodoRow.ToggleEach | src/todomvc/ui/todo_row.rs:68-91 | the click system's effect over the changed buttons keeps every todo entry |
| TodoRow.ClickTogglesBoundTodo | src/todomvc/ui/todo_row.rs:68-76 | one click flips exactly the bound todo; two clicks on the same button in one pass flip it back |
| TodoRow.RowWorld.FlipTodo | src/todomvc/ui/todo_row.rs:72-76 | the todo scan flips exactly `Toggle` of the target |
| TodoRow.RowWorld.ToggleFor | src/todomvc/ui/todo_row.rs:70-89 | handling one click toggles the todo bound to the button's row, if there is one |
| TodoRow.RowWorld.OnCompleteTodoClick | src/todomvc/ui/todo_row.rs:63-92 | the todos become `ToggleEach` of the clicks in query order |
| TodoRow.SpawnCompleteTodoButton | src/todomvc/ui/todo_row.rs:99-117 | queues a text button with a blank caption and marks it `CompleteTodoButton` |
| TodoRow.SpawnTodoRow | src/todomvc/ui/todo_row.rs:121-151 | queues the row's commands: the button, the label, the row with its two children, and the binding to `todo` |
| TodoRow.RowBindsItsTodo | src/todomvc/ui/todo_row.rs:148 | the only `TodoRow` binding a row's commands insert is on the row, to the given todo |
| TodoRow.ApplyButtonPart | src/todomvc/ui/todo_row.rs:99-117 | a new complete button holds exactly its blank caption and is marked |
| TodoRow.ApplyRowPart | src/todomvc/ui/todo_row.rs:130-148 | a new row has the button and then the label as children, and the label is marked and empty |
| TodoRow.ApplyRowCommands | src/todomvc/ui/todo_row.rs:121-151 | a new row's children are the button then the label; the button is marked and shows `"   "`; the label is marked and empty |
| TodoFooter.Digit | src/todomvc/ui/todo_footer.rs:24 | a decimal digit character |
| TodoFooter.NatToString | src/todomvc/ui/todo_footer.rs:24-26 | a non-empty string of decimal digits |
| TodoFooter.ParseNatToString | src/todomvc/ui/todo_footer.rs:24-26 | reading the rendered count back gives the count |
| TodoFooter.NatToStringInjective | src/todomvc/ui/todo_footer.rs:24-26 | different counts render differently |
| TodoFooter.ItemsLeft | src/todomvc/ui/todo_footer.rs:23-27 | the label text: the count in decimal followed by " item left" when the count is 1 and " items left" otherwise |
| TodoFooter.ItemsLeftReadsBack | src/todomvc/ui/todo_footer.rs:23-27 | the leading digits of the label text read back as the count |
| TodoFooter.ItemsLeftExamples | src/todomvc/ui/todo_footer.rs:23-27 | 0 gives "0 items left", 1 gives "1 item left", 2 gives "2 items left" |
| TodoFooter.ItemsLeftShape | src/todomvc/ui/todo_footer.rs:23-27 | the text is the count followed by " item left" exactly when the count is 1, and by " items left" otherwise |
| TodoFooter.ItemsLeftInjective | src/todomvc/ui/todo_footer.rs:23-27 | different counts never show the same text |
| TodoFooter.PlaceholderIsNoCount | src/todomvc/ui/todo_footer.rs:39 | "Some items left" is never a count text |
| TodoFooter.ShouldUpdate | src/todomvc/ui/todo_footer.rs:16-21 | a label is rewritten unless its cache already holds the current count; an empty cache always rewrites |
| TodoFooter.CountTexts | src/todomvc/ui/todo_footer.rs:15-31 | one pass keeps every text entry |
| TodoFooter.CountCache | src/todomvc/ui/todo_footer.rs:29 | one pass keeps every cache entry |
| TodoFooter.CountShowsCount | src/todomvc/ui/todo_footer.rs:16-29 | after a pass, every label shows the current count, when its cache was consistent |
| TodoFooter.CountSecondPassIsQuiet | src/todomvc/ui/todo_footer.rs:16-29 | a second pass with the same count changes no text and no cache |
| TodoFooter.FirstPassWrites | src/todomvc/ui/todo_footer.rs:16-22 | a freshly spawned label is rewritten on the first pass |
| TodoFooter.CountLabels.CountLabelSystem | src/todomvc/ui/todo_footer.rs:12-32 | the texts and caches become `CountTexts` and `CountCache` for the number of todos |
| TodoFooter.CountLabels.VisitLabel | src/todomvc/ui/todo_footer.rs:16-30 | one label is rewritten and caches the count unless its cache already holds it |
| TodoFooter.CountStep | src/todomvc/ui/todo_footer.rs:16-30 | visiting one more label extends the visited prefix |
| TodoFooter.CountedAll | src/todomvc/ui/todo_footer.rs:15-31 | once every label is visited, the state is that of one pass |
| TodoFooter.SpawnCountLabel | src/todomvc/ui/todo_footer.rs:35-47 | one id, the text "Some items left" and an empty cache |
| TodoFooter.TabMarginRight | src/todomvc/ui/todo_footer.rs:73-78 | the right margin is zero exactly for the last tab; the other sides are zero |
| TodoFooter.SpawnTabButton | src/todomvc/ui/todo_footer.rs:68-91 | a white container with a new material and one text child, the caption, and the tab's margin |
| TodoFooter.SpawnTabControls | src/todomvc/ui/todo_footer.rs:93-109 | the three tabs, then the row; seven ids and four white materials |
| TodoFooter.ApplyLabelledDiv | src/todomvc/ui/todo_footer.rs:68-91 | a new labelled container holds exactly its caption |
| TodoFooter.ApplyTabControls | src/todomvc/ui/todo_footer.rs:93-109 | the scene after the tab row: each tab holds its caption and the row holds the three tabs |
| TodoFooter.TabControlsLayout | src/todomvc/ui/todo_footer.rs:101-106 | the tabs are "All", "Active", "Completed", left to right |
| TodoFooter.TabMargins | src/todomvc/ui/todo_footer.rs:103-105 | only "Completed" is spawned with the last tab's margin |
| TodoFooter.SpawnClearButton | src/todomvc/ui/todo_footer.rs:49-66 | a white container holding the text "Clear Completed" |
| TodoFooter.FooterParts | src/todomvc/ui/todo_footer.rs:121-127 | the footer's children only build on ids after the footer's own |
| TodoFooter.SpawnTodoFooter | src/todomvc/ui/todo_footer.rs:111-129 | the count label, the tab row and the clear button, then the footer; eleven ids and six materials, all of the colour `WHITE` (the footer's `Color::WHITE` is `colors::WHITE`) |
| TodoFooter.FooterChildren | src/todomvc/ui/todo_footer.rs:121-127 | the footer's children are the count label, the tab row and the clear button, in that order |
| TodoBody.SpawnsBody | src/todomvc/ui/todo_body.rs:60-70 | a pass spawns a body exactly when the flag was down, some todo was added and some container exists |
| TodoBody.NextPrior | src/todomvc/ui/todo_body.rs:60-85 | after a pass the flag is up exactly when it was up or a todo was added, and some todo is left |
| TodoBody.SpawnTodoBody | src/todomvc/ui/todo_body.rs:88-96 | a default container whose only child is a new footer |
| TodoBody.FooterWithin | src/todomvc/ui/todo_body.rs:94 | a footer's commands only build on the footer and later ids |
| TodoBody.BodyHoldsOnlyFooter | src/todomvc/ui/todo_body.rs:88-96 | the body has exactly one child, the footer, and the footer holds its three parts |
| TodoBody.PriorTodos.constructor | src/todomvc/ui/todo_body.rs:30-34 | the flag starts as given |
| TodoBody.OnTodoAdded | src/todomvc/ui/todo_body.rs:36-86 | the flag becomes `NextPrior`; a body goes under the first container iff the flag was down, a todo was added and a container exists; otherwise nothing is queued |
| TodoBody.NoSecondBody | src/todomvc/ui/todo_body.rs:62-64 | once a body was spawned and todos remain, no later pass spawns another |
| TodoBody.FlagWithoutContainer | src/todomvc/ui/todo_body.rs:62-70 | an addition raises the flag even without a container, and then nothing is spawned |
| TodoBody.EmptyingAllowsNewBody | src/todomvc/ui/todo_body.rs:74-85 | when no todo is left the flag drops, so the next addition spawns another body |
| TodoBody.PassNeverDespawns | src/todomvc/ui/todo_body.rs:81-84 | a pass never queues a despawn |
| TodoBody.BodyAppendedToContainer | src/todomvc/ui/todo_body.rs:65-69 | the body becomes the container's last child and its earlier children are unchanged |
| Scene.Despawn | src/todomvc/ui/todo_input.rs:66 | a recursive despawn removes the node and its descendants from every table and every child list; everything else is unchanged |
| Scene.ApplyDespawns | src/todomvc/ui/todo_input.rs:64-68 | a buffer of recursive despawns only removes things, and each despawned node is gone afterwards |
| Scene.ApplyLeafDespawns | src/todomvc/ui/todo_input.rs:64-68 | despawning childless nodes keeps any other parent in place, with its markers |

## Left out

- I/O: loading fonts (`asset_server.get_handle`) and rendering. Font handles are not modelled.
- Logging: the `println!` calls are not modelled.
- Randomness: `Todo::random_message` takes the chosen index as a parameter (`choice < |Messages|`).
- Scheduling: app wiring, stages and the `build` functions are not modelled.
  - Change detection is not modelled; the `Mutated`/`Changed`/`Added` sets are inputs.
  - `Events` double-buffering is not modelled; each event queue is a sequence read through a cursor.
- Style and layout: `Style` fields, sizes, padding, flex settings and the RGB values of colours are left out. Colours are named (`Named("WHITE")`) and material handles are indices into an asset list. `colors::WHITE` is `Color::WHITE` (src/todomvc/ui.rs:53), so both are the named colour `WHITE`.
- `setup_ui`, `root_node` and `ColorMaterials::from_resources` build the page once, at start-up. They are not modelled.
- src/todomvc/ui/todo_list.rs is not part of this model. Its `build` is empty and it calls `spawn_todo_row` with the wrong number of arguments.
- The commented-out alternatives in the source are not modelled.
- The ordinal compactor, filtering by `Filter`, activating a filter tab, deleting todos, clearing completed todos and despawning the body do not exist in the source. Only the ordinal-0 marker of `Todo::new` is modelled.
- `TextButtonLabel` and `colors::TEXT_LIGHT` are used in src/todomvc/ui/todo_row.rs but defined nowhere.
  - No code in the source inserts `TextButtonLabel`, so the button-label table of `TodoRow.RowWorld` is state given to the sync. In the program as written that table would be empty.
  - `TEXT_LIGHT` is modelled as a named colour.
- `ButtonMaterials` and `ctx.materials` are used in src/todomvc/ui/todo_input.rs but are not fields of `NodeContext`. The add button's `normal` material is a parameter, and the input node's white material is one new asset.
- Entity ids: `Entity::new()` takes no argument, and the engine chooses every id, including those of children spawned inside `with_children`. The model replaces that choice with one counter (`next`) whose values are assumed fresh: a node's children get the ids right after its own, and `Bounded(s, next)` assumes no id from `next` on is in use. The engine's own id choice is not modelled.
- Query results are modelled as sequences. A query the source only tests for non-emptiness (`any_query` and `container_query` in `on_todo_added`) is a sequence whose contents are not used.
- TodoRow.RowWorld.Tables: assumes that no entity is both a row label and a complete-button label. The source does not check this, but every row it spawns satisfies it.
- Scene.Despawn: follows child lists to a depth of at most the number of parents in the scene. That covers every path in an acyclic hierarchy, which is the only kind the engine builds.
- Ordinal sentinel: `Todo::new` marks a not-yet-placed todo with ordinal 0 (src/todomvc/domain.rs:32), and `Domain.NewTodo` follows the code.
- The scene model tracks only child lists, texts and marker components. Other components inserted by commands (behaviours, `Focusable`, interactions, `TodoRow`, `CountLabel`) are kept in the command buffer and stated about there.
