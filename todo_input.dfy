/**
 * The todo input node: clicking an add button spawns a new todo; focusing the
 * input swaps its placeholder text for an add button, and blurring it swaps
 * the add button back for a placeholder.
 *
 * The systems read the scene as it was when the pass started and only queue
 * commands; the lemmas at the end say what the queued commands do to the
 * input's child list once applied.
 */
module TodoInput {
  import opened Ecs
  import opened Domain
  import opened CommonNodes
  import opened Scene

  const PlaceholderText: string := "What needs to be done?"
  const AddButtonText: string := "Add a random todo"

  /** The add button's label: the button text at size 16 in a light grey. */
  const AddButtonLabel: Bundle := TextBundle(AddButtonText, 16.0, Rgb(0.8, 0.8, 0.8))

  /** The placeholder: a plain text node with the builder's defaults. */
  function PlaceholderBundle(): (b: Bundle)
    ensures b.TextBundle? && b.value == PlaceholderText
  {
    TextBundleFor(PlainText(PlaceholderText))
  }

  // ---------------------------------------------------------------------------
  // Adding a todo

  /** How many of the add buttons whose interaction changed are now clicked. */
  function ClickedCount(changed: seq<Interaction>): (n: nat)
    ensures n <= |changed|
    ensures n == 0 <==> forall i :: 0 <= i < |changed| ==> changed[i] != Clicked
  {
    if changed == [] then 0
    else ClickedCount(changed[..|changed| - 1]) + (if changed[|changed| - 1] == Clicked then 1 else 0)
  }

  /**
   * The todos spawned for the add buttons whose interaction changed: one per
   * clicked button, each a new todo holding the sample message picked for it
   * (`choices[i]` is the random pick made for button `i`).
   */
  function AddTodoCommands(changed: seq<Interaction>, choices: seq<nat>, next: Entity): (r: seq<Command>)
    requires |choices| == |changed|
    requires forall i :: 0 <= i < |choices| ==> choices[i] < |Messages|
    ensures |r| == ClickedCount(changed)
    ensures forall k :: 0 <= k < |r| ==> r[k].Spawn? && r[k].entity == next + k
  {
    if changed == [] then []
    else
      var n := |changed| - 1;
      var prior := AddTodoCommands(changed[..n], choices[..n], next);
      prior + (if changed[n] == Clicked
               then [Spawn(next + ClickedCount(changed[..n]), TodoBundle(NewTodo(RandomMessage(choices[n]))))]
               else [])
  }

  /** Every todo spawned for the clicks is a new, incomplete, unplaced sample message. */
  lemma {:induction false} AddedTodosAreSamples(changed: seq<Interaction>, choices: seq<nat>, next: Entity)
    requires |choices| == |changed|
    requires forall i :: 0 <= i < |choices| ==> choices[i] < |Messages|
    ensures forall c :: c in AddTodoCommands(changed, choices, next) ==>
      && c.Spawn? && c.bundle.TodoBundle? && c.bundle.todo.text in Messages
      && !c.bundle.todo.completed && c.bundle.todo.ordinal == UnplacedOrdinal
  {
    if changed != [] {
      var n := |changed| - 1;
      AddedTodosAreSamples(changed[..n], choices[..n], next);
    }
  }

  /** One more button in the prefix adds its spawn, if it was clicked, at the next id. */
  lemma AddTodoStep(changed: seq<Interaction>, choices: seq<nat>, next: Entity, i: nat)
    requires |choices| == |changed| && i < |changed|
    requires forall i :: 0 <= i < |choices| ==> choices[i] < |Messages|
    ensures ClickedCount(changed[..i + 1]) == ClickedCount(changed[..i]) + (if changed[i] == Clicked then 1 else 0)
    ensures AddTodoCommands(changed[..i + 1], choices[..i + 1], next) ==
      AddTodoCommands(changed[..i], choices[..i], next) +
      (if changed[i] == Clicked
       then [Spawn(next + ClickedCount(changed[..i]), TodoBundle(NewTodo(RandomMessage(choices[i]))))]
       else [])
  {
    assert changed[..i + 1][..i] == changed[..i];
    assert choices[..i + 1][..i] == choices[..i];
  }

  /** Spawns one new todo for every add button whose changed interaction is a click. */
  method OnAddButtonClicked(ctx: NodeContext, changed: seq<Interaction>, choices: seq<nat>)
    requires |choices| == |changed|
    requires forall i :: 0 <= i < |choices| ==> choices[i] < |Messages|
    modifies ctx`next, ctx`cmds
    ensures ctx.cmds == old(ctx.cmds) + AddTodoCommands(changed, choices, old(ctx.next))
    ensures ctx.next == old(ctx.next) + ClickedCount(changed)
  {
    var i := 0;
    while i < |changed|
      invariant 0 <= i <= |changed|
      invariant ctx.cmds == old(ctx.cmds) + AddTodoCommands(changed[..i], choices[..i], old(ctx.next))
      invariant ctx.next == old(ctx.next) + ClickedCount(changed[..i])
    {
      AddForButton(ctx, changed, choices, i, old(ctx.cmds), old(ctx.next));
      i := i + 1;
    }
    assert changed[..i] == changed;
    assert choices[..i] == choices;
  }

  /** The loop body of the add-button system: a spawn for button `i` if it was clicked. */
  method AddForButton(ctx: NodeContext, changed: seq<Interaction>, choices: seq<nat>, i: nat,
                      ghost cmds0: seq<Command>, ghost next0: Entity)
    requires |choices| == |changed| && i < |changed|
    requires forall i :: 0 <= i < |choices| ==> choices[i] < |Messages|
    requires ctx.cmds == cmds0 + AddTodoCommands(changed[..i], choices[..i], next0)
    requires ctx.next == next0 + ClickedCount(changed[..i])
    modifies ctx`next, ctx`cmds
    ensures ctx.cmds == cmds0 + AddTodoCommands(changed[..i + 1], choices[..i + 1], next0)
    ensures ctx.next == next0 + ClickedCount(changed[..i + 1])
  {
    AddTodoStep(changed, choices, next0, i);
    if changed[i] == Clicked {
      var t := ctx.NewEntity();
      var spawn := [Spawn(t, TodoBundle(NewTodo(RandomMessage(choices[i]))))];
      AppendAssoc(cmds0, AddTodoCommands(changed[..i], choices[..i], next0), spawn);
      ctx.cmds := ctx.cmds + spawn;
    }
  }

  // ---------------------------------------------------------------------------
  // Focus and blur: what is queued

  /** An entity the focus/blur handlers act on: an input node that has a child list. */
  predicate IsInputNode(s: Scene, e: Entity) {
    HasTag(s, e, TodoInputNodeTag) && e in s.children
  }

  function TaggedWith(s: Scene, t: Tag): (r: set<Entity>)
    ensures forall x :: x in r <==> HasTag(s, x, t)
  {
    set x | x in s.tags && t in s.tags[x]
  }

  /** Recursive despawns of the entries of `kids` that lie in `hit`, in child order. */
  function DespawnWhere(kids: seq<Entity>, hit: set<Entity>): (r: seq<Command>)
    ensures forall c :: c in r ==> c.DespawnRecursive? && c.entity in kids && c.entity in hit
    ensures forall k :: k in kids && k in hit ==> DespawnRecursive(k) in r
  {
    if kids == [] then []
    else
      var last := kids[|kids| - 1];
      DespawnWhere(kids[..|kids| - 1], hit) + (if last in hit then [DespawnRecursive(last)] else [])
  }

  /**
   * The commands that build an add button with id `b` and its label with id
   * `b + 1`: the button starts with the `normal` material, carries the marker
   * `tag` and has the label as its child.
   */
  function ButtonCommands(b: Entity, normal: Material, tag: Tag): seq<Command> {
    [Spawn(b, ButtonBundle(normal)), Insert(b, Marker(tag)), Spawn(b + 1, AddButtonLabel), PushChildren(b, [b + 1])]
  }

  /**
   * What a focus event on `e` queues: nothing unless `e` is an input node;
   * otherwise a despawn of each direct text child, a new add button (id
   * `next`), and that button appended to `e`'s children.
   */
  function FocusResponse(s: Scene, e: Entity, next: Entity, normal: Material, tag: Tag): (r: seq<Command>)
    ensures !IsInputNode(s, e) ==> r == []
    ensures IsInputNode(s, e) ==> |r| > 0 && r[|r| - 1] == PushChildren(e, [next])
    ensures IsInputNode(s, e) ==>
      forall k :: k in s.children[e] ==> (DespawnRecursive(k) in r <==> k in s.texts)
  {
    if IsInputNode(s, e) then
      DespawnWhere(s.children[e], s.texts.Keys) + ButtonCommands(next, normal, tag) + [PushChildren(e, [next])]
    else []
  }

  /**
   * What a blur event on `e` queues: nothing unless `e` is an input node;
   * otherwise a despawn of each direct child carrying the button marker `tag`,
   * a new placeholder label (id `next`), and that label appended to `e`'s children.
   */
  function BlurResponse(s: Scene, e: Entity, next: Entity, tag: Tag, placeholder: Bundle): (r: seq<Command>)
    ensures !IsInputNode(s, e) ==> r == []
    ensures IsInputNode(s, e) ==> |r| >= 2 && r[|r| - 1] == PushChildren(e, [next])
    ensures IsInputNode(s, e) ==> r[|r| - 2] == Spawn(next, placeholder)
    ensures IsInputNode(s, e) ==>
      forall k :: k in s.children[e] ==> (DespawnRecursive(k) in r <==> HasTag(s, k, tag))
  {
    if IsInputNode(s, e) then
      DespawnWhere(s.children[e], TaggedWith(s, tag)) + [Spawn(next, placeholder), PushChildren(e, [next])]
    else []
  }

  /** How many of `events` target an input node. */
  function InputCount(s: Scene, events: seq<Entity>): (n: nat)
    ensures n <= |events|
  {
    if events == [] then 0
    else InputCount(s, events[..|events| - 1]) + (if IsInputNode(s, events[|events| - 1]) then 1 else 0)
  }

  /** The commands queued for a frame's unread focus events, and the next free id after them. */
  function FocusFrame(s: Scene, events: seq<Entity>, next: Entity, normal: Material, tag: Tag): (r: (seq<Command>, Entity))
    ensures r.1 == next + 2 * InputCount(s, events)
    ensures InputCount(s, events) == 0 ==> r.0 == []
  {
    if events == [] then ([], next)
    else
      var e := events[|events| - 1];
      var prior := FocusFrame(s, events[..|events| - 1], next, normal, tag);
      (prior.0 + FocusResponse(s, e, prior.1, normal, tag), prior.1 + (if IsInputNode(s, e) then 2 else 0))
  }

  /** The commands queued for a frame's unread blur events, and the next free id after them. */
  function BlurFrame(s: Scene, events: seq<Entity>, next: Entity, tag: Tag, placeholder: Bundle): (r: (seq<Command>, Entity))
    ensures r.1 == next + InputCount(s, events)
    ensures InputCount(s, events) == 0 ==> r.0 == []
  {
    if events == [] then ([], next)
    else
      var e := events[|events| - 1];
      var prior := BlurFrame(s, events[..|events| - 1], next, tag, placeholder);
      (prior.0 + BlurResponse(s, e, prior.1, tag, placeholder), prior.1 + (if IsInputNode(s, e) then 1 else 0))
  }

  // ---------------------------------------------------------------------------
  // Focus and blur: the systems

  /** The cursors of the input handler into the focus and blur event queues. */
  class TodoInputReaderState {
    const focusReader: EventReader
    const blurReader: EventReader

    constructor ()
      ensures fresh(focusReader) && fresh(blurReader)
      ensures focusReader.cursor == 0 && blurReader.cursor == 0
    {
      focusReader := new EventReader();
      blurReader := new EventReader();
    }
  }

  /**
   * Spawns an add button with its label and returns the button. The two
   * generations of the input handler build the same button and differ only in
   * its marker `tag`.
   */
  method SpawnAddButtonNode(ctx: NodeContext, normal: Material, tag: Tag) returns (b: Entity)
    modifies ctx`next, ctx`cmds
    ensures b == old(ctx.next) && ctx.next == old(ctx.next) + 2
    ensures ctx.cmds == old(ctx.cmds) + ButtonCommands(b, normal, tag)
  {
    b := ctx.NewEntity();
    var caption := ctx.NewEntity();
    ctx.cmds := ctx.cmds + [Spawn(b, ButtonBundle(normal)), Insert(b, Marker(tag)),
                            Spawn(caption, AddButtonLabel), PushChildren(b, [caption])];
  }

  method SpawnPlaceholderLabel(ctx: NodeContext) returns (p: Entity)
    modifies ctx`next, ctx`cmds
    ensures p == old(ctx.next) && ctx.next == old(ctx.next) + 1
    ensures ctx.cmds == old(ctx.cmds) + [Spawn(p, PlaceholderBundle())]
  {
    p := ctx.SpawnText(PlainText(PlaceholderText));
  }

  /** The commands that build an input node `e` with material `m` and placeholder child `p`. */
  function InputNodeCommands(e: Entity, m: Material, p: Entity): seq<Command> {
    [Spawn(p, PlaceholderBundle()),
     Spawn(e, NodeBundle(m, RectHelpers.DefaultRect())),
     Insert(e, Marker(TodoInputNodeTag)),
     Insert(e, Focusable(false)),
     Insert(e, InteractionState(DefaultInteraction())),
     PushChildren(e, [p])]
  }

  /**
   * Spawns the input node: a new white material, an unfocused focusable node
   * with the default interaction, and the placeholder as its only child.
   */
  method SpawnTodoInputNode(ctx: NodeContext) returns (e: Entity)
    modifies ctx
    ensures e == old(ctx.next) && ctx.next == old(ctx.next) + 2
    ensures ctx.assets == old(ctx.assets) + [White]
    ensures ctx.cmds == old(ctx.cmds) + InputNodeCommands(e, |old(ctx.assets)|, e + 1)
  {
    e := ctx.NewEntity();
    var m := ctx.AddMaterial(White);
    var p := SpawnPlaceholderLabel(ctx);
    ctx.cmds := ctx.cmds + [
      Spawn(e, NodeBundle(m, RectHelpers.DefaultRect())),
      Insert(e, Marker(TodoInputNodeTag)),
      Insert(e, Focusable(false)),
      Insert(e, InteractionState(DefaultInteraction())),
      PushChildren(e, [p])];
  }

  /** Queues a recursive despawn of each of `kids` that lies in `hit`, in child order. */
  method QueueDespawns(ctx: NodeContext, kids: seq<Entity>, hit: set<Entity>)
    modifies ctx`cmds
    ensures ctx.cmds == old(ctx.cmds) + DespawnWhere(kids, hit)
  {
    var j := 0;
    while j < |kids|
      invariant 0 <= j <= |kids|
      invariant ctx.cmds == old(ctx.cmds) + DespawnWhere(kids[..j], hit)
    {
      DespawnWhereStep(kids, hit, j);
      if kids[j] in hit {
        AppendAssoc(old(ctx.cmds), DespawnWhere(kids[..j], hit), [DespawnRecursive(kids[j])]);
        ctx.cmds := ctx.cmds + [DespawnRecursive(kids[j])];
      }
      j := j + 1;
    }
    assert kids[..j] == kids;
  }

  lemma DespawnWhereStep(kids: seq<Entity>, hit: set<Entity>, j: nat)
    requires j < |kids|
    ensures DespawnWhere(kids[..j + 1], hit) ==
      DespawnWhere(kids[..j], hit) + (if kids[j] in hit then [DespawnRecursive(kids[j])] else [])
  {
    assert kids[..j + 1][..j] == kids[..j];
  }

  /** Queues the response to one focus event. */
  method RespondToFocus(ctx: NodeContext, s: Scene, e: Entity, normal: Material, tag: Tag)
    modifies ctx`next, ctx`cmds
    ensures ctx.cmds == old(ctx.cmds) + FocusResponse(s, e, old(ctx.next), normal, tag)
    ensures ctx.next == old(ctx.next) + (if IsInputNode(s, e) then 2 else 0)
  {
    if IsInputNode(s, e) {
      ghost var D := DespawnWhere(s.children[e], s.texts.Keys);
      QueueDespawns(ctx, s.children[e], s.texts.Keys);
      var b := SpawnAddButtonNode(ctx, normal, tag);
      ctx.cmds := ctx.cmds + [PushChildren(e, [b])];
      AppendAssoc(old(ctx.cmds), D, ButtonCommands(b, normal, tag));
      AppendAssoc(old(ctx.cmds), D + ButtonCommands(b, normal, tag), [PushChildren(e, [b])]);
    }
  }

  /** Queues the response to one blur event. */
  method RespondToBlur(ctx: NodeContext, s: Scene, e: Entity, tag: Tag, placeholder: Bundle)
    modifies ctx`next, ctx`cmds
    ensures ctx.cmds == old(ctx.cmds) + BlurResponse(s, e, old(ctx.next), tag, placeholder)
    ensures ctx.next == old(ctx.next) + (if IsInputNode(s, e) then 1 else 0)
  {
    if IsInputNode(s, e) {
      ghost var D := DespawnWhere(s.children[e], TaggedWith(s, tag));
      QueueDespawns(ctx, s.children[e], TaggedWith(s, tag));
      var p := ctx.NewEntity();
      ctx.cmds := ctx.cmds + [Spawn(p, placeholder), PushChildren(e, [p])];
      AppendAssoc(old(ctx.cmds), D, [Spawn(p, placeholder), PushChildren(e, [p])]);
    }
  }

  /** One more focus event appends its response, built from the next free id so far. */
  lemma FocusFrameStep(s: Scene, events: seq<Entity>, next: Entity, normal: Material, tag: Tag, i: nat)
    requires i < |events|
    ensures FocusFrame(s, events[..i + 1], next, normal, tag).0 ==
      FocusFrame(s, events[..i], next, normal, tag).0 +
      FocusResponse(s, events[i], FocusFrame(s, events[..i], next, normal, tag).1, normal, tag)
    ensures FocusFrame(s, events[..i + 1], next, normal, tag).1 ==
      FocusFrame(s, events[..i], next, normal, tag).1 + (if IsInputNode(s, events[i]) then 2 else 0)
  {
    assert events[..i + 1][..i] == events[..i];
  }

  /** One more blur event appends its response, built from the next free id so far. */
  lemma BlurFrameStep(s: Scene, events: seq<Entity>, next: Entity, tag: Tag, placeholder: Bundle, i: nat)
    requires i < |events|
    ensures BlurFrame(s, events[..i + 1], next, tag, placeholder).0 ==
      BlurFrame(s, events[..i], next, tag, placeholder).0 +
      BlurResponse(s, events[i], BlurFrame(s, events[..i], next, tag, placeholder).1, tag, placeholder)
    ensures BlurFrame(s, events[..i + 1], next, tag, placeholder).1 ==
      BlurFrame(s, events[..i], next, tag, placeholder).1 + (if IsInputNode(s, events[i]) then 1 else 0)
  {
    assert events[..i + 1][..i] == events[..i];
  }

  /** Queues the responses to a frame's unread focus events, in order. */
  method RespondToFocusEvents(ctx: NodeContext, s: Scene, events: seq<Entity>, normal: Material, tag: Tag)
    modifies ctx`next, ctx`cmds
    ensures var f := FocusFrame(s, events, old(ctx.next), normal, tag);
            ctx.cmds == old(ctx.cmds) + f.0 && ctx.next == f.1
  {
    var i := 0;
    while i < |events|
      invariant 0 <= i <= |events|
      invariant ctx.cmds == old(ctx.cmds) + FocusFrame(s, events[..i], old(ctx.next), normal, tag).0
      invariant ctx.next == FocusFrame(s, events[..i], old(ctx.next), normal, tag).1
    {
      ghost var p := FocusFrame(s, events[..i], old(ctx.next), normal, tag);
      FocusFrameStep(s, events, old(ctx.next), normal, tag, i);
      RespondToFocus(ctx, s, events[i], normal, tag);
      AppendAssoc(old(ctx.cmds), p.0, FocusResponse(s, events[i], p.1, normal, tag));
      i := i + 1;
    }
    assert events[..i] == events;
  }

  /** Queues the responses to a frame's unread blur events, in order. */
  method RespondToBlurEvents(ctx: NodeContext, s: Scene, events: seq<Entity>, tag: Tag, placeholder: Bundle)
    modifies ctx`next, ctx`cmds
    ensures var b := BlurFrame(s, events, old(ctx.next), tag, placeholder);
            ctx.cmds == old(ctx.cmds) + b.0 && ctx.next == b.1
  {
    var i := 0;
    while i < |events|
      invariant 0 <= i <= |events|
      invariant ctx.cmds == old(ctx.cmds) + BlurFrame(s, events[..i], old(ctx.next), tag, placeholder).0
      invariant ctx.next == BlurFrame(s, events[..i], old(ctx.next), tag, placeholder).1
    {
      ghost var p := BlurFrame(s, events[..i], old(ctx.next), tag, placeholder);
      BlurFrameStep(s, events, old(ctx.next), tag, placeholder, i);
      RespondToBlur(ctx, s, events[i], tag, placeholder);
      AppendAssoc(old(ctx.cmds), p.0, BlurResponse(s, events[i], p.1, tag, placeholder));
      i := i + 1;
    }
    assert events[..i] == events;
  }

  /**
   * Handles the unread focus events, then the unread blur events, against the
   * scene `s` as it was when the pass began. `normal` is the add button's
   * starting material. Both cursors end past every event, so each event is
   * handled by exactly one run.
   */
  method OnTodoInputFocus(readers: TodoInputReaderState, ctx: NodeContext, s: Scene,
                          focusEvents: seq<Entity>, blurEvents: seq<Entity>, normal: Material)
    requires readers.focusReader != readers.blurReader
    requires readers.focusReader.cursor <= |focusEvents| && readers.blurReader.cursor <= |blurEvents|
    modifies readers.focusReader, readers.blurReader, ctx`next, ctx`cmds
    ensures readers.focusReader.cursor == |focusEvents| && readers.blurReader.cursor == |blurEvents|
    ensures var f := FocusFrame(s, focusEvents[old(readers.focusReader.cursor)..], old(ctx.next), normal, AddTodoButtonTag);
            var b := BlurFrame(s, blurEvents[old(readers.blurReader.cursor)..], f.1, AddTodoButtonTag, PlaceholderBundle());
            ctx.cmds == old(ctx.cmds) + f.0 + b.0 && ctx.next == b.1
  {
    var focused := readers.focusReader.Read(focusEvents);
    RespondToFocusEvents(ctx, s, focused, normal, AddTodoButtonTag);
    var blurred := readers.blurReader.Read(blurEvents);
    RespondToBlurEvents(ctx, s, blurred, AddTodoButtonTag, PlaceholderBundle());
  }

  // ---------------------------------------------------------------------------
  // Focus and blur: what the queued commands do to the input's children

  /**
   * `after` is `before` with the entries in `removed` dropped and `added`
   * appended exactly once: the last entry is `added`, every other entry is a
   * surviving entry of `before`.
   */
  ghost predicate Swapped(before: seq<Entity>, after: seq<Entity>, removed: set<Entity>, added: Entity) {
    && |after| > 0 && after[|after| - 1] == added
    && forall i :: 0 <= i < |after| - 1 ==> after[i] in before && after[i] !in removed && after[i] != added
  }

  /** When every old child is removed, only the added child is left. */
  lemma SwappedAllRemoved(before: seq<Entity>, after: seq<Entity>, removed: set<Entity>, added: Entity)
    requires Swapped(before, after, removed, added)
    requires forall x :: x in before ==> x in removed
    ensures after == [added]
  {
    if |after| > 1 {
      HeadIn(after);
      assert false;
    }
  }

  /** Keeping survivors of `before` and appending a larger id is a swap. */
  lemma SwappedByAppend(before: seq<Entity>, kept: seq<Entity>, removed: set<Entity>, added: Entity)
    requires forall x :: x in kept ==> x in before && x !in removed
    requires forall x :: x in before ==> x < added
    ensures Swapped(before, kept + [added], removed, added)
  {
    var after := kept + [added];
    forall i | 0 <= i < |after| - 1
      ensures after[i] in before && after[i] !in removed && after[i] != added
    {
      assert after[i] == kept[i];
    }
  }

  /**
   * Despawning the children of `e` that lie in `hit` only removes things, and
   * what is left of `e`'s child list are old children outside `hit`.
   */
  lemma DespawnWhereEffect(s: Scene, e: Entity, hit: set<Entity>)
    requires e in s.children
    ensures Shrunk(s, Apply(s, DespawnWhere(s.children[e], hit)))
    ensures forall x :: x in ChildrenOf(Apply(s, DespawnWhere(s.children[e], hit)), e) ==>
      x in s.children[e] && x !in hit
  {
    var D := DespawnWhere(s.children[e], hit);
    var r := Apply(s, D);
    ApplyDespawns(s, D);
    forall x | x in ChildrenOf(r, e)
      ensures x in s.children[e] && x !in hit
    {
      assert e in r.children;
    }
  }

  /** Applying the add button's commands to a scene where the ids are fresh. */
  lemma ApplyButtonCommands(s: Scene, b: Entity, normal: Material, tag: Tag)
    requires b !in s.children
    ensures var r := Apply(s, ButtonCommands(b, normal, tag));
      && r.children == s.children[b := [b + 1]]
      && r.texts == s.texts[b + 1 := AddButtonText]
      && r.tags == s.tags[b := TagsOf(s, b) + {tag}]
  {
    var cs := ButtonCommands(b, normal, tag);
    var s1 := ApplyOne(s, cs[0]);
    assert s1 == s;
    var s2 := ApplyOne(s1, cs[1]);
    assert s2 == s.(tags := s.tags[b := TagsOf(s, b) + {tag}]);
    var s3 := ApplyOne(s2, cs[2]);
    assert s3 == s2.(texts := s.texts[b + 1 := AddButtonText]);
    assert ChildrenOf(s3, b) == [];
    assert cs[3] == PushChildren(b, [b + 1]);
    assert ChildrenOf(s3, b) + [b + 1] == [b + 1];
    var s4 := ApplyOne(s3, cs[3]);
    assert s4 == s3.(children := s.children[b := [b + 1]]);
    ApplyCons(s, cs[0], cs[1..]);
    ApplyCons(s1, cs[1], cs[2..]);
    ApplyCons(s2, cs[2], cs[3..]);
    ApplyCons(s3, cs[3], []);
    assert cs[1..] == [cs[1]] + cs[2..];
    assert cs[2..] == [cs[2]] + cs[3..];
    assert cs[3..] == [cs[3]] + [];
    assert Apply(s, cs) == s4;
  }

  /** A focus response is the despawns, then the button, then the button joining the input's children. */
  lemma FocusSplit(s: Scene, e: Entity, next: Entity, normal: Material, tag: Tag)
    requires IsInputNode(s, e)
    ensures Apply(s, FocusResponse(s, e, next, normal, tag)) ==
      ApplyOne(Apply(Apply(s, DespawnWhere(s.children[e], s.texts.Keys)), ButtonCommands(next, normal, tag)),
               PushChildren(e, [next]))
  {
    var D := DespawnWhere(s.children[e], s.texts.Keys);
    var A := ButtonCommands(next, normal, tag);
    var P := [PushChildren(e, [next])];
    assert FocusResponse(s, e, next, normal, tag) == D + A + P;
    ApplyConcat(s, D + A, P);
    ApplyConcat(s, D, A);
    ApplySingle(Apply(Apply(s, D), A), P[0]);
  }

  /** The add button's commands, on a scene below `b`, leave it below `b + 2`. */
  lemma ButtonCommandsBounded(s: Scene, b: Entity, normal: Material, tag: Tag)
    requires Bounded(s, b)
    ensures var r := Apply(s, ButtonCommands(b, normal, tag));
      && r.children == s.children[b := [b + 1]]
      && r.texts == s.texts[b + 1 := AddButtonText]
      && r.tags == s.tags[b := TagsOf(s, b) + {tag}]
      && Bounded(r, b + 2)
  {
    ApplyButtonCommands(s, b, normal, tag);
  }

  /**
   * A focus event on an input node, once its commands are applied: every
   * direct text child is gone from the input's child list, exactly one new add
   * button (carrying `tag`, with its label as child) is appended, and nothing
   * else joins the list.
   */
  lemma FocusResponseEffect(s: Scene, e: Entity, next: Entity, normal: Material, tag: Tag)
    requires IsInputNode(s, e) && Bounded(s, next)
    ensures var r := Apply(s, FocusResponse(s, e, next, normal, tag));
      && Swapped(s.children[e], ChildrenOf(r, e), s.texts.Keys, next)
      && HasTag(r, next, tag) && ChildrenOf(r, next) == [next + 1]
      && next + 1 in r.texts && r.texts[next + 1] == AddButtonText
      && Bounded(r, next + 2)
  {
    FocusSplit(s, e, next, normal, tag);
    var r1 := Apply(s, DespawnWhere(s.children[e], s.texts.Keys));
    DespawnWhereEffect(s, e, s.texts.Keys);
    ShrunkBounded(s, r1, next);
    ButtonCommandsBounded(r1, next, normal, tag);
    var r2 := Apply(r1, ButtonCommands(next, normal, tag));
    PushBounded(r2, e, [next], next + 2);
    var r := ApplyOne(r2, PushChildren(e, [next]));
    assert ChildrenOf(r, e) == ChildrenOf(r1, e) + [next];
    SwappedByAppend(s.children[e], ChildrenOf(r1, e), s.texts.Keys, next);
  }

  /** If the input's text children have no children of their own, a focus response keeps the input node. */
  lemma FocusKeepsInputNode(s: Scene, e: Entity, next: Entity, normal: Material, tag: Tag)
    requires IsInputNode(s, e) && Bounded(s, next)
    requires forall k :: k in s.children[e] && k in s.texts ==> k !in s.children
    ensures IsInputNode(Apply(s, FocusResponse(s, e, next, normal, tag)), e)
  {
    FocusSplit(s, e, next, normal, tag);
    var D := DespawnWhere(s.children[e], s.texts.Keys);
    ApplyLeafDespawns(s, D, e);
    var r1 := Apply(s, D);
    DespawnWhereEffect(s, e, s.texts.Keys);
    ShrunkBounded(s, r1, next);
    ApplyButtonCommands(r1, next, normal, tag);
  }

  /**
   * A blur event on an input node, once its commands are applied: every
   * direct child carrying the button marker `tag` is gone from the input's
   * child list, exactly one new placeholder is appended, and nothing else
   * joins the list.
   */
  lemma BlurResponseEffect(s: Scene, e: Entity, next: Entity, tag: Tag, placeholder: Bundle)
    requires IsInputNode(s, e) && Bounded(s, next) && placeholder.TextBundle?
    ensures var r := Apply(s, BlurResponse(s, e, next, tag, placeholder));
      && Swapped(s.children[e], ChildrenOf(r, e), TaggedWith(s, tag), next)
      && next in r.texts && r.texts[next] == placeholder.value
      && Bounded(r, next + 1)
  {
    var D := DespawnWhere(s.children[e], TaggedWith(s, tag));
    var P := [Spawn(next, placeholder), PushChildren(e, [next])];
    assert BlurResponse(s, e, next, tag, placeholder) == D + P;
    ApplyConcat(s, D, P);
    var r1 := Apply(s, D);
    DespawnWhereEffect(s, e, TaggedWith(s, tag));
    ShrunkBounded(s, r1, next);
    var r2 := ApplyOne(r1, P[0]);
    PushBounded(r2, e, [next], next + 1);
    var r := ApplyOne(r2, P[1]);
    ApplyCons(r1, P[0], [P[1]]);
    ApplySingle(r2, P[1]);
    assert P == [P[0]] + [P[1]];
    assert ChildrenOf(r, e) == ChildrenOf(r1, e) + [next];
    SwappedByAppend(s.children[e], ChildrenOf(r1, e), TaggedWith(s, tag), next);
  }

  /** The scene right after a new input node `e` with placeholder `e + 1` is spawned on fresh ids. */
  lemma InputNodeScene(s0: Scene, e: Entity, m: Material)
    requires e !in s0.children && e !in s0.tags
    ensures Apply(s0, InputNodeCommands(e, m, e + 1))
         == Scene(s0.children[e := [e + 1]], s0.texts[e + 1 := PlaceholderText], s0.tags[e := {TodoInputNodeTag}])
  {
    var a := [Spawn(e + 1, PlaceholderBundle()), Spawn(e, NodeBundle(m, RectHelpers.DefaultRect())),
              Insert(e, Marker(TodoInputNodeTag))];
    var b := [Insert(e, Focusable(false)), Insert(e, InteractionState(DefaultInteraction())), PushChildren(e, [e + 1])];
    assert InputNodeCommands(e, m, e + 1) == a + b;
    ApplyConcat(s0, a, b);
    ApplyThree(s0, a[0], a[1], a[2]);
    var t1 := ApplyOne(ApplyOne(s0, a[0]), a[1]);
    ApplyFreshMarker(t1, e, TodoInputNodeTag);
    var t3 := ApplyOne(t1, a[2]);
    ApplyThree(t3, b[0], b[1], b[2]);
    ApplyFreshChildren(t3, e, [e + 1]);
  }

  /** The scene right after a new input node `e` with placeholder `e + 1` is spawned. */
  lemma ApplyInputNodeCommands(s0: Scene, e: Entity, m: Material)
    requires Bounded(s0, e)
    ensures var s1 := Apply(s0, InputNodeCommands(e, m, e + 1));
      && IsInputNode(s1, e) && s1.children[e] == [e + 1] && e + 1 !in s1.children
      && e + 1 in s1.texts && s1.texts[e + 1] == PlaceholderText
      && Bounded(s1, e + 2)
  {
    InputNodeScene(s0, e, m);
  }

  /**
   * From an input node `e` whose only child is a placeholder `e + 1` without
   * children of its own: focusing it leaves the new button (marked `tag`) as
   * its only child, and blurring it afterwards leaves exactly one child again,
   * a new placeholder.
   */
  lemma FocusThenBlurFromPlaceholder(s1: Scene, e: Entity, normal: Material, tag: Tag, placeholder: Bundle)
    requires IsInputNode(s1, e) && s1.children[e] == [e + 1] && e + 1 !in s1.children
    requires e + 1 in s1.texts && Bounded(s1, e + 2) && placeholder.TextBundle?
    ensures var s2 := Apply(s1, FocusResponse(s1, e, e + 2, normal, tag));
            var s3 := Apply(s2, BlurResponse(s2, e, e + 4, tag, placeholder));
            && ChildrenOf(s2, e) == [e + 2] && HasTag(s2, e + 2, tag)
            && ChildrenOf(s3, e) == [e + 4] && e + 4 in s3.texts && s3.texts[e + 4] == placeholder.value
  {
    FocusResponseEffect(s1, e, e + 2, normal, tag);
    FocusKeepsInputNode(s1, e, e + 2, normal, tag);
    var s2 := Apply(s1, FocusResponse(s1, e, e + 2, normal, tag));
    SwappedAllRemoved(s1.children[e], ChildrenOf(s2, e), s1.texts.Keys, e + 2);

    BlurResponseEffect(s2, e, e + 4, tag, placeholder);
    var s3 := Apply(s2, BlurResponse(s2, e, e + 4, tag, placeholder));
    SwappedAllRemoved(s2.children[e], ChildrenOf(s3, e), TaggedWith(s2, tag), e + 4);
  }

  /**
   * Starting from a freshly spawned input node `e` (placeholder `e + 1`):
   * focusing it leaves the new add button as its only child, and blurring it
   * afterwards leaves exactly one child again, a new placeholder.
   */
  lemma FocusThenBlurRestoresPlaceholder(s0: Scene, e: Entity, m: Material, normal: Material)
    requires Bounded(s0, e)
    ensures var s1 := Apply(s0, InputNodeCommands(e, m, e + 1));
            var s2 := Apply(s1, FocusResponse(s1, e, e + 2, normal, AddTodoButtonTag));
            var s3 := Apply(s2, BlurResponse(s2, e, e + 4, AddTodoButtonTag, PlaceholderBundle()));
            && ChildrenOf(s1, e) == [e + 1] && e + 1 in s1.texts && s1.texts[e + 1] == PlaceholderText
            && ChildrenOf(s2, e) == [e + 2] && HasTag(s2, e + 2, AddTodoButtonTag)
            && ChildrenOf(s3, e) == [e + 4] && e + 4 in s3.texts && s3.texts[e + 4] == PlaceholderText
  {
    ApplyInputNodeCommands(s0, e, m);
    var s1 := Apply(s0, InputNodeCommands(e, m, e + 1));
    FocusThenBlurFromPlaceholder(s1, e, normal, AddTodoButtonTag, PlaceholderBundle());
  }
}
