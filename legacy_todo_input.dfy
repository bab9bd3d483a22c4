/**
 * The older generation of the todo input node. It swaps a placeholder for an
 * "insert" button on focus and back on blur, like the current one, but marks
 * its button `InsertTodoButton`, finds the buttons to remove by a direct
 * lookup, and uses a larger, muted placeholder. It has no click handler.
 */
module LegacyTodoInput {
  import opened Ecs
  import opened CommonNodes
  import opened RectHelpers
  import opened Scene
  import opened TodoInput

  /**
   * The older placeholder label: the placeholder text at the large font size
   * in the muted text colour (its margin does not reach the bundle's modelled
   * fields).
   */
  function InputNodeLabelBundle(): (b: Bundle)
    ensures b.TextBundle? && b.value == PlaceholderText
    ensures b.fontSize == FontLarge && b.color == TextMuted
  {
    TextBundleFor(TextNode(PlaceholderText, Some(24.0), Some(TextMuted), None, Some(XY(SpacerLg, SpacerSm)), None))
  }

  /** Spawns the insert button with its label and returns the button. */
  method InsertTodoButtonNode(ctx: NodeContext, normal: Material) returns (b: Entity)
    modifies ctx`next, ctx`cmds
    ensures b == old(ctx.next) && ctx.next == old(ctx.next) + 2
    ensures ctx.cmds == old(ctx.cmds) + ButtonCommands(b, normal, InsertTodoButtonTag)
  {
    b := SpawnAddButtonNode(ctx, normal, InsertTodoButtonTag);
  }

  /**
   * The commands that build the older input node `e` with material `m` and
   * placeholder child `l`: the node is spawned first, its label is spawned and
   * attached, then the marker, an unfocused `Focusable` and the default
   * interaction are added.
   */
  function InputNodeCommands(e: Entity, m: Material, l: Entity): seq<Command> {
    [Spawn(e, NodeBundle(m, DefaultRect())),
     Spawn(l, InputNodeLabelBundle()),
     PushChildren(e, [l]),
     Insert(e, Marker(TodoInputNodeTag)),
     Insert(e, Focusable(false)),
     Insert(e, InteractionState(DefaultInteraction()))]
  }

  /** Spawns the older input node: a new white material and the label as its only child. */
  method SpawnTodoInputNode(ctx: NodeContext) returns (e: Entity)
    modifies ctx
    ensures e == old(ctx.next) && ctx.next == old(ctx.next) + 2
    ensures ctx.assets == old(ctx.assets) + [White]
    ensures ctx.cmds == old(ctx.cmds) + InputNodeCommands(e, |old(ctx.assets)|, e + 1)
  {
    e := ctx.NewEntity();
    var m := ctx.AddMaterial(White);
    var l := ctx.NewEntity();
    ctx.cmds := ctx.cmds + [
      Spawn(e, NodeBundle(m, DefaultRect())),
      Spawn(l, InputNodeLabelBundle()),
      PushChildren(e, [l]),
      Insert(e, Marker(TodoInputNodeTag)),
      Insert(e, Focusable(false)),
      Insert(e, InteractionState(DefaultInteraction()))];
  }

  /**
   * The older input handler: the unread focus events, then the unread blur
   * events, against the scene `s` as it was when the pass began. Both cursors
   * end past every event.
   */
  method OnTodoInputFocus(readers: TodoInputReaderState, ctx: NodeContext, s: Scene,
                          focusEvents: seq<Entity>, blurEvents: seq<Entity>, normal: Material)
    requires readers.focusReader != readers.blurReader
    requires readers.focusReader.cursor <= |focusEvents| && readers.blurReader.cursor <= |blurEvents|
    modifies readers.focusReader, readers.blurReader, ctx`next, ctx`cmds
    ensures readers.focusReader.cursor == |focusEvents| && readers.blurReader.cursor == |blurEvents|
    ensures var f := FocusFrame(s, focusEvents[old(readers.focusReader.cursor)..], old(ctx.next), normal, InsertTodoButtonTag);
            var b := BlurFrame(s, blurEvents[old(readers.blurReader.cursor)..], f.1, InsertTodoButtonTag, InputNodeLabelBundle());
            ctx.cmds == old(ctx.cmds) + f.0 + b.0 && ctx.next == b.1
  {
    var focused := readers.focusReader.Read(focusEvents);
    RespondToFocusEvents(ctx, s, focused, normal, InsertTodoButtonTag);
    var blurred := readers.blurReader.Read(blurEvents);
    RespondToBlurEvents(ctx, s, blurred, InsertTodoButtonTag, InputNodeLabelBundle());
  }

  /** The scene right after the older input node `e` with label `e + 1` is spawned. */
  lemma ApplyInputNodeCommands(s0: Scene, e: Entity, m: Material)
    requires Bounded(s0, e)
    ensures var s1 := Apply(s0, InputNodeCommands(e, m, e + 1));
      && IsInputNode(s1, e) && s1.children[e] == [e + 1] && e + 1 !in s1.children
      && e + 1 in s1.texts && s1.texts[e + 1] == PlaceholderText
      && Bounded(s1, e + 2)
  {
    InputNodeScene(s0, e, m);
  }

  /** The scene right after the older input node `e` with label `e + 1` is spawned on fresh ids. */
  lemma InputNodeScene(s0: Scene, e: Entity, m: Material)
    requires e !in s0.children && e !in s0.tags
    ensures Apply(s0, InputNodeCommands(e, m, e + 1))
         == Scene(s0.children[e := [e + 1]], s0.texts[e + 1 := PlaceholderText], s0.tags[e := {TodoInputNodeTag}])
  {
    var a := [Spawn(e, NodeBundle(m, DefaultRect())), Spawn(e + 1, InputNodeLabelBundle()), PushChildren(e, [e + 1])];
    var b := [Insert(e, Marker(TodoInputNodeTag)), Insert(e, Focusable(false)), Insert(e, InteractionState(DefaultInteraction()))];
    assert InputNodeCommands(e, m, e + 1) == a + b;
    ApplyConcat(s0, a, b);
    ApplyThree(s0, a[0], a[1], a[2]);
    var t2 := ApplyOne(ApplyOne(s0, a[0]), a[1]);
    ApplyFreshChildren(t2, e, [e + 1]);
    var t3 := ApplyOne(t2, a[2]);
    ApplyThree(t3, b[0], b[1], b[2]);
    ApplyFreshMarker(t3, e, TodoInputNodeTag);
  }

  /**
   * Starting from a freshly spawned older input node `e` (label `e + 1`):
   * focusing it leaves the new insert button as its only child, and blurring
   * it afterwards leaves exactly one child again, a new placeholder label.
   */
  lemma FocusThenBlurRestoresPlaceholder(s0: Scene, e: Entity, m: Material, normal: Material)
    requires Bounded(s0, e)
    ensures var s1 := Apply(s0, InputNodeCommands(e, m, e + 1));
            var s2 := Apply(s1, FocusResponse(s1, e, e + 2, normal, InsertTodoButtonTag));
            var s3 := Apply(s2, BlurResponse(s2, e, e + 4, InsertTodoButtonTag, InputNodeLabelBundle()));
            && ChildrenOf(s1, e) == [e + 1] && e + 1 in s1.texts && s1.texts[e + 1] == PlaceholderText
            && ChildrenOf(s2, e) == [e + 2] && HasTag(s2, e + 2, InsertTodoButtonTag)
            && ChildrenOf(s3, e) == [e + 4] && e + 4 in s3.texts && s3.texts[e + 4] == PlaceholderText
  {
    ApplyInputNodeCommands(s0, e, m);
    var s1 := Apply(s0, InputNodeCommands(e, m, e + 1));
    FocusThenBlurFromPlaceholder(s1, e, normal, InsertTodoButtonTag, InputNodeLabelBundle());
  }
}
