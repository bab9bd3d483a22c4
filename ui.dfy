/**
 * The interaction core of the user interface: turning changed pointer states
 * into node-click events, the focus state machine over `Focusable` nodes that
 * emits focus and blur events, and the rule that picks a button's material
 * from its behaviour and interaction.
 */
module Ui {
  import opened Ecs
  import opened CommonNodes

  // ---------------------------------------------------------------------------
  // Raw mouse input

  datatype MouseButton = Left | Right | Middle | OtherButton(code: nat)

  datatype ElementState = Pressed | Released

  datatype MouseButtonInput = MouseButtonInput(button: MouseButton, state: ElementState)

  predicate IsLeftPress(m: MouseButtonInput) {
    m.button == Left && m.state == Pressed
  }

  /** A node starts without focus. */
  function DefaultFocusable(): (c: Component)
    ensures c.Focusable? && !c.hasFocus
  {
    Focusable(false)
  }

  // ---------------------------------------------------------------------------
  // The focus state machine: specification

  /**
   * What setting a node's focus flag from `had` to `want` sends:
   * (a focus event?, a blur event?).
   */
  function FocusTransition(had: bool, want: bool): (r: (bool, bool))
    ensures r.0 <==> !had && want
    ensures r.1 <==> had && !want
    ensures !(r.0 && r.1)
    ensures had == want ==> !r.0 && !r.1
  {
    (want != had && want, want != had && !want)
  }

  /** The focus flags after a pass, and the focus and blur events it sent, in order. */
  datatype FocusOutcome = FocusOutcome(flags: map<Entity, bool>, focused: seq<Entity>, blurred: seq<Entity>)

  /**
   * Visiting the focusable nodes in query order and setting each one's flag
   * to "is it the target": `Some(t)` focuses `t` and unfocuses the rest,
   * `None` unfocuses every node.
   */
  function Sweep(flags: map<Entity, bool>, order: seq<Entity>, target: Option<Entity>): (r: FocusOutcome)
    requires forall e :: e in order ==> e in flags
    ensures r.flags.Keys == flags.Keys
    decreases |order|
  {
    if order == [] then FocusOutcome(flags, [], [])
    else
      var n := |order| - 1;
      var prior := Sweep(flags, order[..n], target);
      var e := order[n];
      var want := target == Some(e);
      var t := FocusTransition(prior.flags[e], want);
      FocusOutcome(prior.flags[e := want],
                   prior.focused + (if t.0 then [e] else []),
                   prior.blurred + (if t.1 then [e] else []))
  }

  /** One more node in the sweep: its flag set, and its event appended after the earlier ones. */
  lemma SweepStep(flags: map<Entity, bool>, order: seq<Entity>, target: Option<Entity>, i: nat)
    requires forall e :: e in order ==> e in flags
    requires i < |order|
    ensures var prior := Sweep(flags, order[..i], target);
            var e := order[i];
            var t := FocusTransition(prior.flags[e], target == Some(e));
            Sweep(flags, order[..i + 1], target) ==
              FocusOutcome(prior.flags[e := target == Some(e)],
                           prior.focused + (if t.0 then [e] else []),
                           prior.blurred + (if t.1 then [e] else []))
  {
    assert order[..i + 1][..i] == order[..i];
  }

  /**
   * The focusable node a pass's clicks select: the last clicked node that is
   * focusable, if any.
   */
  function ClickTarget(clicks: seq<Entity>, focusables: set<Entity>): (r: Option<Entity>)
    ensures r.Some? <==> exists i :: 0 <= i < |clicks| && clicks[i] in focusables
    ensures r.Some? ==> r.value in focusables
    ensures r.Some? ==> exists i :: 0 <= i < |clicks| && clicks[i] == r.value &&
                          forall j :: i < j < |clicks| ==> clicks[j] !in focusables
  {
    if clicks == [] then None
    else
      var n := |clicks| - 1;
      if clicks[n] in focusables then Some(clicks[n])
      else
        var prior := ClickTarget(clicks[..n], focusables);
        assert forall i :: 0 <= i < n ==> clicks[..n][i] == clicks[i];
        prior
  }

  /**
   * One pass of the click-to-focus system: a click on a focusable node focuses
   * it and unfocuses the others; otherwise a left press anywhere unfocuses
   * every node; otherwise nothing happens.
   */
  function FocusFrame(flags: map<Entity, bool>, order: seq<Entity>, target: Option<Entity>, press: bool): (r: FocusOutcome)
    requires forall e :: e in order ==> e in flags
    ensures r.flags.Keys == flags.Keys
  {
    if target.Some? then Sweep(flags, order, target)
    else if press then Sweep(flags, order, None)
    else FocusOutcome(flags, [], [])
  }

  /** At most one node has focus. */
  predicate AtMostOneFocused(flags: map<Entity, bool>) {
    forall a, b :: a in flags && b in flags && flags[a] && flags[b] ==> a == b
  }

  // ---------------------------------------------------------------------------
  // The focus state machine: properties

  /** A sweep sets each visited node's flag to "is it the target" and leaves the rest. */
  lemma {:induction false} SweepFlags(flags: map<Entity, bool>, order: seq<Entity>, target: Option<Entity>)
    requires forall e :: e in order ==> e in flags
    ensures var r := Sweep(flags, order, target);
      forall e :: e in flags ==> r.flags[e] == (if e in order then target == Some(e) else flags[e])
    decreases |order|
  {
    if order != [] {
      var n := |order| - 1;
      assert forall x :: x in order <==> x in order[..n] || x == order[n];
      SweepFlags(flags, order[..n], target);
    }
  }

  /**
   * Over distinct nodes, a sweep sends one focus event, exactly for a target
   * that lacked focus.
   */
  lemma {:induction false} SweepFocused(flags: map<Entity, bool>, order: seq<Entity>, target: Option<Entity>)
    requires forall e :: e in order ==> e in flags
    requires Distinct(order)
    ensures var r := Sweep(flags, order, target);
      && (forall e :: e in r.focused <==> e in order && !flags[e] && target == Some(e))
      && Distinct(r.focused)
    decreases |order|
  {
    if order != [] {
      var n := |order| - 1;
      var e := order[n];
      assert forall x :: x in order <==> x in order[..n] || x == e;
      assert e !in order[..n];
      SweepFocused(flags, order[..n], target);
      SweepFlags(flags, order[..n], target);
      var prior := Sweep(flags, order[..n], target);
      if !prior.flags[e] && target == Some(e) {
        DistinctSnoc(prior.focused, e);
      }
    }
  }

  /**
   * Over distinct nodes, a sweep sends one blur event for each node other
   * than the target that had focus, and no other.
   */
  lemma {:induction false} SweepBlurred(flags: map<Entity, bool>, order: seq<Entity>, target: Option<Entity>)
    requires forall e :: e in order ==> e in flags
    requires Distinct(order)
    ensures var r := Sweep(flags, order, target);
      && (forall e :: e in r.blurred <==> e in order && flags[e] && target != Some(e))
      && Distinct(r.blurred)
    decreases |order|
  {
    if order != [] {
      var n := |order| - 1;
      var e := order[n];
      assert forall x :: x in order <==> x in order[..n] || x == e;
      assert e !in order[..n];
      SweepBlurred(flags, order[..n], target);
      SweepFlags(flags, order[..n], target);
      var prior := Sweep(flags, order[..n], target);
      if prior.flags[e] && target != Some(e) {
        DistinctSnoc(prior.blurred, e);
      }
    }
  }

  /**
   * A sweep over distinct nodes leaves exactly the target focused among them,
   * sends a focus event exactly for a target that lacked focus, and a blur
   * event exactly for each other node that had it; no event is sent twice.
   */
  lemma SweepEffect(flags: map<Entity, bool>, order: seq<Entity>, target: Option<Entity>)
    requires forall e :: e in order ==> e in flags
    requires Distinct(order)
    ensures var r := Sweep(flags, order, target);
      && (forall e :: e in flags ==> r.flags[e] == (if e in order then target == Some(e) else flags[e]))
      && (forall e :: e in r.focused <==> e in order && !flags[e] && target == Some(e))
      && (forall e :: e in r.blurred <==> e in order && flags[e] && target != Some(e))
      && Distinct(r.focused) && Distinct(r.blurred)
  {
    SweepFlags(flags, order, target);
    SweepFocused(flags, order, target);
    SweepBlurred(flags, order, target);
  }

  /**
   * A click on a focusable node: afterwards exactly that node has focus among
   * the focusable nodes, it gets a focus event unless it already had focus,
   * and every other node that had focus gets one blur event.
   */
  lemma ClickFocusesTarget(flags: map<Entity, bool>, order: seq<Entity>, t: Entity, press: bool)
    requires Distinct(order) && forall e :: e in flags <==> e in order
    requires t in flags
    ensures var r := FocusFrame(flags, order, Some(t), press);
      && (forall e :: e in flags ==> r.flags[e] == (e == t))
      && (forall e :: e in r.focused <==> e == t && !flags[t])
      && (forall e :: e in r.blurred <==> e in flags && flags[e] && e != t)
      && Distinct(r.blurred)
  {
    SweepEffect(flags, order, Some(t));
  }

  /**
   * Clicking the node that is already the only focused one changes no flag
   * and sends no event.
   */
  lemma ClickOnSoleFocusedIsQuiet(flags: map<Entity, bool>, order: seq<Entity>, t: Entity, press: bool)
    requires Distinct(order) && forall e :: e in flags <==> e in order
    requires t in flags && flags[t]
    requires forall e :: e in flags && e != t ==> !flags[e]
    ensures FocusFrame(flags, order, Some(t), press) == FocusOutcome(flags, [], [])
  {
    SweepEffect(flags, order, Some(t));
    var r := FocusFrame(flags, order, Some(t), press);
    assert r.flags == flags;
    NoMemberEmpty(r.focused);
    NoMemberEmpty(r.blurred);
  }

  /**
   * A left press with no focusable node clicked: every node ends unfocused,
   * with exactly one blur event per node that had focus and no focus event.
   */
  lemma PressBlursAll(flags: map<Entity, bool>, order: seq<Entity>)
    requires Distinct(order) && forall e :: e in flags <==> e in order
    ensures var r := FocusFrame(flags, order, None, true);
      && (forall e :: e in flags ==> !r.flags[e])
      && r.focused == []
      && (forall e :: e in r.blurred <==> e in flags && flags[e])
      && Distinct(r.blurred)
  {
    SweepEffect(flags, order, None);
    NoMemberEmpty(FocusFrame(flags, order, None, true).focused);
  }

  /** No focusable click and no left press: nothing changes, nothing is sent. */
  lemma NothingIsQuiet(flags: map<Entity, bool>, order: seq<Entity>)
    requires forall e :: e in order ==> e in flags
    ensures FocusFrame(flags, order, None, false) == FocusOutcome(flags, [], [])
  {
  }

  /**
   * Whatever happens in a pass, at most one node has focus afterwards if at
   * most one had it before, and no node gets both a focus and a blur event.
   */
  lemma FocusFrameKeepsAtMostOne(flags: map<Entity, bool>, order: seq<Entity>, target: Option<Entity>, press: bool)
    requires Distinct(order) && forall e :: e in flags <==> e in order
    requires AtMostOneFocused(flags)
    ensures var r := FocusFrame(flags, order, target, press);
      && AtMostOneFocused(r.flags)
      && (forall e :: !(e in r.focused && e in r.blurred))
  {
    if target.Some? || press {
      SweepEffect(flags, order, if target.Some? then target else None);
    }
  }

  // ---------------------------------------------------------------------------
  // The systems

  /** The cursors of the click-to-focus system into the node-click and mouse queues. */
  class FocusableClickedState {
    const nodeClickReader: EventReader
    const mouseClickReader: EventReader

    constructor ()
      ensures fresh(nodeClickReader) && fresh(mouseClickReader)
      ensures nodeClickReader.cursor == 0 && mouseClickReader.cursor == 0
    {
      nodeClickReader := new EventReader();
      mouseClickReader := new EventReader();
    }
  }

  /**
   * The state the interaction systems share: the node-click, focus and blur
   * event queues, the `Focusable` table (its focus flags) and the order in
   * which the focusable query visits the nodes.
   */
  class UiWorld {
    var nodeClicks: seq<Entity>
    var focusEvents: seq<Entity>
    var blurEvents: seq<Entity>
    var hasFocus: map<Entity, bool>
    var focusOrder: seq<Entity>

    /** The query visits every focusable node exactly once. */
    ghost predicate Valid()
      reads this
    {
      Distinct(focusOrder) && forall e :: e in hasFocus <==> e in focusOrder
    }

    constructor (hasFocus: map<Entity, bool>, focusOrder: seq<Entity>)
      ensures this.hasFocus == hasFocus && this.focusOrder == focusOrder
      ensures nodeClicks == [] && focusEvents == [] && blurEvents == []
    {
      this.hasFocus := hasFocus;
      this.focusOrder := focusOrder;
      nodeClicks := [];
      focusEvents := [];
      blurEvents := [];
    }

    /**
     * Sends one node-click event per node, in query order, whose interaction
     * changed this pass and is now `Clicked`. `order` is the order in which
     * the interaction query visits its nodes and `mutated` the nodes whose
     * interaction changed.
     */
    method NodeClickEventSource(order: seq<Entity>, interaction: map<Entity, Interaction>, mutated: set<Entity>)
      modifies this`nodeClicks
      ensures nodeClicks == old(nodeClicks) + Select(order, set e | e in mutated && e in interaction && interaction[e] == Clicked)
    {
      var clicked := set e | e in mutated && e in interaction && interaction[e] == Clicked;
      var i := 0;
      while i < |order|
        invariant 0 <= i <= |order|
        invariant nodeClicks == old(nodeClicks) + Select(order[..i], clicked)
      {
        var e := order[i];
        SelectSnoc(order[..i], e, clicked);
        assert order[..i + 1] == order[..i] + [e];
        if e in mutated && e in interaction && interaction[e] == Clicked {
          AppendAssoc(old(nodeClicks), Select(order[..i], clicked), [e]);
          nodeClicks := nodeClicks + [e];
        }
        i := i + 1;
      }
      assert order[..i] == order;
    }

    /**
     * Sets one node's focus flag, sending a focus event when it turns on and a
     * blur event when it turns off.
     */
    method SetFocus(e: Entity, isFocused: bool)
      requires e in hasFocus
      modifies this`hasFocus, this`focusEvents, this`blurEvents
      ensures hasFocus == old(hasFocus)[e := isFocused]
      ensures var t := FocusTransition(old(hasFocus[e]), isFocused);
        && focusEvents == old(focusEvents) + (if t.0 then [e] else [])
        && blurEvents == old(blurEvents) + (if t.1 then [e] else [])
    {
      var hadFocus := hasFocus[e];
      if isFocused != hadFocus && isFocused {
        focusEvents := focusEvents + [e];
      }
      if isFocused != hadFocus && !isFocused {
        blurEvents := blurEvents + [e];
      }
      hasFocus := hasFocus[e := isFocused];
    }

    /** Visits every focusable node in query order and sets its flag to "is it `target`". */
    method SweepFocus(target: Option<Entity>)
      requires Valid()
      modifies this`hasFocus, this`focusEvents, this`blurEvents
      ensures var r := Sweep(old(hasFocus), focusOrder, target);
        && hasFocus == r.flags
        && focusEvents == old(focusEvents) + r.focused
        && blurEvents == old(blurEvents) + r.blurred
    {
      var i := 0;
      while i < |focusOrder|
        invariant 0 <= i <= |focusOrder|
        invariant var r := Sweep(old(hasFocus), focusOrder[..i], target);
          && hasFocus == r.flags
          && focusEvents == old(focusEvents) + r.focused
          && blurEvents == old(blurEvents) + r.blurred
      {
        var e := focusOrder[i];
        ghost var prior := Sweep(old(hasFocus), focusOrder[..i], target);
        ghost var t := FocusTransition(prior.flags[e], target == Some(e));
        SweepStep(old(hasFocus), focusOrder, target, i);
        SetFocus(e, target == Some(e));
        AppendAssoc(old(focusEvents), prior.focused, if t.0 then [e] else []);
        AppendAssoc(old(blurEvents), prior.blurred, if t.1 then [e] else []);
        i := i + 1;
      }
      assert focusOrder[..i] == focusOrder;
    }

    /**
     * The click-to-focus system: reads this pass's mouse input and node
     * clicks; a click on a focusable node moves focus to the last such node,
     * otherwise a left press removes focus from every node.
     */
    method FocusableClickSystem(state: FocusableClickedState, nodeClickQueue: seq<Entity>, mouseQueue: seq<MouseButtonInput>)
      requires Valid()
      requires state.nodeClickReader != state.mouseClickReader
      requires state.nodeClickReader.cursor <= |nodeClickQueue| && state.mouseClickReader.cursor <= |mouseQueue|
      modifies state.nodeClickReader, state.mouseClickReader, this`hasFocus, this`focusEvents, this`blurEvents
      ensures state.nodeClickReader.cursor == |nodeClickQueue| && state.mouseClickReader.cursor == |mouseQueue|
      ensures var target := ClickTarget(nodeClickQueue[old(state.nodeClickReader.cursor)..], old(hasFocus).Keys);
              var press := exists m :: m in mouseQueue[old(state.mouseClickReader.cursor)..] && IsLeftPress(m);
              var r := FocusFrame(old(hasFocus), focusOrder, target, press);
        && hasFocus == r.flags
        && focusEvents == old(focusEvents) + r.focused
        && blurEvents == old(blurEvents) + r.blurred
    {
      var mouse := state.mouseClickReader.Read(mouseQueue);
      var mouseClicked := MouseClicked(mouse);
      var clicks := state.nodeClickReader.Read(nodeClickQueue);
      var focusableEntityClicked, focusableClicked := FocusableEntityClicked(clicks, hasFocus.Keys);
      if focusableEntityClicked.Some? {
        SweepFocus(focusableEntityClicked);
      }
      if !focusableClicked && mouseClicked {
        SweepFocus(None);
      }
    }
  }

  /** Whether some mouse input of the pass is a left-button press. */
  method MouseClicked(events: seq<MouseButtonInput>) returns (clicked: bool)
    ensures clicked <==> exists m :: m in events && IsLeftPress(m)
  {
    clicked := false;
    var i := 0;
    while i < |events|
      invariant 0 <= i <= |events|
      invariant clicked <==> exists j :: 0 <= j < i && IsLeftPress(events[j])
    {
      if events[i].button == Left && events[i].state == Pressed {
        clicked := true;
      }
      i := i + 1;
    }
  }

  /**
   * Scans the pass's node clicks, remembering the last one that hit a
   * focusable node; the flag says whether there was one.
   */
  method FocusableEntityClicked(clicks: seq<Entity>, focusables: set<Entity>) returns (target: Option<Entity>, any: bool)
    ensures target == ClickTarget(clicks, focusables)
    ensures any <==> target.Some?
  {
    target := None;
    any := false;
    var i := 0;
    while i < |clicks|
      invariant 0 <= i <= |clicks|
      invariant target == ClickTarget(clicks[..i], focusables)
      invariant any <==> target.Some?
    {
      assert clicks[..i + 1][..i] == clicks[..i];
      if clicks[i] in focusables {
        target := Some(clicks[i]);
        any := true;
      }
      i := i + 1;
    }
    assert clicks[..i] == clicks;
  }

  // ---------------------------------------------------------------------------
  // Button styling

  /**
   * The material a button shows: an active button shows its active material
   * (its normal one when it has none) whatever the pointer does; otherwise
   * the material for its interaction.
   */
  function StyleButton(b: ButtonBehavior, i: Interaction): (m: Material)
    ensures m == b.normal || m == b.pressed || m == b.hover || b.active == Some(m)
    ensures b.isActive ==> (if b.active.Some? then m == b.active.value else m == b.normal)
    ensures !b.isActive ==> m == (match i case Clicked => b.pressed case Hovered => b.hover case Idle => b.normal)
  {
    if b.isActive then b.active.GetOr(b.normal)
    else match i
      case Clicked => b.pressed
      case Hovered => b.hover
      case Idle => b.normal
  }

  /** An active button's material does not depend on the interaction. */
  lemma ActiveOverridesInteraction(b: ButtonBehavior, i: Interaction, j: Interaction)
    requires b.isActive
    ensures StyleButton(b, i) == StyleButton(b, j)
  {
  }

  /**
   * A freshly built text button, not yet touched by the pointer, is styled
   * with the material it was spawned with.
   */
  lemma InitialMaterialIsNormal(node: TextButtonNode, colors: ColorMaterials)
    ensures StyleButton(BehaviorFor(node, colors), DefaultInteraction()) == BehaviorFor(node, colors).normal
  {
  }

  /** The material table with every button in `es` restyled. */
  function Restyle(material: map<Entity, Material>, behavior: map<Entity, ButtonBehavior>,
                   interaction: map<Entity, Interaction>, es: set<Entity>): (r: map<Entity, Material>)
    ensures r.Keys == material.Keys
  {
    map e | e in material :: if e in es && e in behavior && e in interaction
                             then StyleButton(behavior[e], interaction[e]) else material[e]
  }

  /** Restyling one more button overwrites just its material. */
  lemma RestyleOneMore(material: map<Entity, Material>, behavior: map<Entity, ButtonBehavior>,
                       interaction: map<Entity, Interaction>, es: set<Entity>, e: Entity)
    requires e in material && e in behavior && e in interaction
    ensures Restyle(material, behavior, interaction, es + {e})
         == Restyle(material, behavior, interaction, es)[e := StyleButton(behavior[e], interaction[e])]
  {
  }

  /** Restyling the same buttons twice is the same as once. */
  lemma RestyleIdempotent(material: map<Entity, Material>, behavior: map<Entity, ButtonBehavior>,
                          interaction: map<Entity, Interaction>, es: set<Entity>)
    ensures Restyle(Restyle(material, behavior, interaction, es), behavior, interaction, es)
         == Restyle(material, behavior, interaction, es)
  {
  }

  /**
   * The button material table and the two queries of the styling system:
   * buttons whose interaction changed, then buttons whose behaviour changed,
   * each in query order.
   */
  class ButtonWorld {
    var material: map<Entity, Material>
    const behavior: map<Entity, ButtonBehavior>
    const interaction: map<Entity, Interaction>

    constructor (material: map<Entity, Material>, behavior: map<Entity, ButtonBehavior>, interaction: map<Entity, Interaction>)
      ensures this.material == material && this.behavior == behavior && this.interaction == interaction
    {
      this.material := material;
      this.behavior := behavior;
      this.interaction := interaction;
    }

    /** Restyles every button in `es`, in order. */
    method RestyleAll(es: seq<Entity>)
      requires forall e :: e in es ==> e in material && e in behavior && e in interaction
      modifies this`material
      ensures material == Restyle(old(material), behavior, interaction, set e | e in es)
    {
      var i := 0;
      ghost var seen: set<Entity> := {};
      while i < |es|
        invariant 0 <= i <= |es|
        invariant forall x :: x in seen <==> x in es[..i]
        invariant material == Restyle(old(material), behavior, interaction, seen)
      {
        var e := es[i];
        assert forall x :: x in es[..i + 1] <==> x in es[..i] || x == e;
        RestyleOneMore(old(material), behavior, interaction, seen, e);
        material := material[e := StyleButton(behavior[e], interaction[e])];
        seen := seen + {e};
        i := i + 1;
      }
      assert es[..i] == es;
      assert seen == set e | e in es;
    }

    /**
     * The styling system: every button whose interaction or behaviour changed
     * shows the material its behaviour selects for its interaction; every
     * other button keeps its material.
     */
    method ButtonInteractionSystem(interactionChanged: seq<Entity>, behaviorChanged: seq<Entity>)
      requires forall e :: e in interactionChanged ==> e in material && e in behavior && e in interaction
      requires forall e :: e in behaviorChanged ==> e in material && e in behavior && e in interaction
      modifies this`material
      ensures material.Keys == old(material).Keys
      ensures forall e :: e in material ==>
        material[e] == (if e in interactionChanged || e in behaviorChanged
                        then StyleButton(behavior[e], interaction[e]) else old(material)[e])
    {
      RestyleAll(interactionChanged);
      RestyleAll(behaviorChanged);
    }
  }
}
