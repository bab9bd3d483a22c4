/**
 * Node builders shared by the todo-list screens: text nodes, headings, text
 * buttons with their `ButtonBehavior`, and container ("div") nodes. Builders do
 * not touch the scene directly; they allocate entity ids and append requests
 * to the frame's command buffer, which the engine applies after the pass.
 */
module CommonNodes {
  import opened Ecs
  import opened Domain
  import opened RectHelpers

  /** Colours are named by the constant they come from (their RGB values are left out), or given inline. */
  datatype Color = DefaultColor | Named(name: string) | Rgb(r: real, g: real, b: real)

  const HeaderRed: Color := Named("HEADER_RED")
  const TextColor: Color := Named("TEXT")
  const TextMuted: Color := Named("TEXT_MUTED")
  const White: Color := Named("WHITE")

  const FontH1: real := 100.0
  const FontLarge: real := 24.0
  const FontBody: real := 16.0

  const Zero: Val := Px(0.0)
  const SpacerXs: Val := Px(5.0)
  const SpacerSm: Val := Px(10.0)
  const SpacerMd: Val := Px(20.0)
  const SpacerLg: Val := Px(40.0)
  const Spacer: Val := SpacerMd

  /** The material handles created once at start-up for the standard colours. */
  datatype ColorMaterials = ColorMaterials(
    pageBackground: Material,
    white: Material,
    btnDark: Material,
    btnDarkHovered: Material,
    btnDarkPressed: Material,
    btnLight: Material,
    btnLightHovered: Material,
    btnLightPressed: Material)

  /** What a caller asks of a text node; absent options take the builder's defaults. */
  datatype TextNode = TextNode(
    text: string,
    fontSize: Option<real>,
    color: Option<Color>,
    padding: Option<Rect>,
    margin: Option<Rect>,
    flexGrow: Option<real>)

  /** A text node description with only its text set (`..Default::default()`). */
  function PlainText(text: string): (n: TextNode)
    ensures n.text == text && n.fontSize.None? && n.color.None?
  {
    TextNode(text, None, None, None, None, None)
  }

  datatype TextButtonNode = TextButtonNode(
    caption: TextNode,
    margin: Option<Rect>,
    padding: Option<Rect>,
    flexGrow: Option<real>,
    colorNormal: Option<Material>,
    colorPressed: Option<Material>,
    colorHover: Option<Material>,
    colorActive: Option<Material>)

  /** The materials a button shows per interaction, and an optional "active" override. */
  datatype ButtonBehavior = ButtonBehavior(
    normal: Material,
    pressed: Material,
    hover: Material,
    active: Option<Material>,
    isActive: bool)

  /** A container's background: a colour (turned into a new material) or a material. */
  datatype Background = ColorBackground(color: Color) | MaterialBackground(material: Material)

  function DefaultBackground(): (b: Background)
    ensures b == ColorBackground(DefaultColor)
  {
    ColorBackground(DefaultColor)
  }

  /** Converting a material handle into a background keeps the handle. */
  function BackgroundFrom(m: Material): (b: Background)
    ensures b.MaterialBackground? && b.material == m
  {
    MaterialBackground(m)
  }

  /** What a caller asks of a container node (the layout fields are left out). */
  datatype DivNode = DivNode(background: Background, margin: Option<Rect>)

  /**
   * The heading adjustment: a caller's font size and colour win, otherwise the
   * heading size and the header red are used; everything else passes through.
   */
  function HeadingStyle(node: TextNode): (r: TextNode)
    ensures node.fontSize.Some? ==> r.fontSize == node.fontSize
    ensures node.fontSize.None? ==> r.fontSize == Some(FontH1)
    ensures node.color.Some? ==> r.color == node.color
    ensures node.color.None? ==> r.color == Some(HeaderRed)
    ensures r.text == node.text && r.padding == node.padding
    ensures r.margin == node.margin && r.flexGrow == node.flexGrow
  {
    node.(fontSize := node.fontSize.Or(Some(FontH1)), color := node.color.Or(Some(HeaderRed)))
  }

  /**
   * The behaviour a text button starts with: the caller's colours where given,
   * the dark button colours otherwise, the caller's active colour as given
   * (possibly none) and not active.
   */
  function BehaviorFor(node: TextButtonNode, colors: ColorMaterials): (b: ButtonBehavior)
    ensures b.normal == (if node.colorNormal.Some? then node.colorNormal.value else colors.btnDark)
    ensures b.hover == (if node.colorHover.Some? then node.colorHover.value else colors.btnDarkHovered)
    ensures b.pressed == (if node.colorPressed.Some? then node.colorPressed.value else colors.btnDarkPressed)
    ensures b.active == node.colorActive
    ensures !b.isActive
  {
    ButtonBehavior(
      node.colorNormal.GetOr(colors.btnDark),
      node.colorPressed.GetOr(colors.btnDarkPressed),
      node.colorHover.GetOr(colors.btnDarkHovered),
      node.colorActive,
      false)
  }

  /** Marker components: they carry no data, only presence. */
  datatype Tag =
    | TodoInputNodeTag
    | AddTodoButtonTag
    | InsertTodoButtonTag
    | RowLabelTag
    | CompleteTodoButtonTag
    | TodoContainerTag

  /** Components a system attaches to an existing entity. */
  datatype Component =
    | Marker(tag: Tag)
    | Behavior(behavior: ButtonBehavior)
    | TodoRow(todo: Entity)
    | CountLabel(lastCount: Option<nat>)
    | Focusable(hasFocus: bool)
    | InteractionState(interaction: Interaction)

  /** The initial component bundle of a spawned entity (style fields are left out). */
  datatype Bundle =
    | TextBundle(value: string, fontSize: real, color: Color)
    | ButtonBundle(material: Material)
    | NodeBundle(material: Material, margin: Rect)
    | TodoBundle(todo: Todo)

  /** A deferred request to the engine, applied after the current pass. */
  datatype Command =
    | Spawn(entity: Entity, bundle: Bundle)
    | Insert(entity: Entity, component: Component)
    | PushChildren(parent: Entity, children: seq<Entity>)
    | DespawnRecursive(entity: Entity)

  /** The text bundle a text node description turns into. */
  function TextBundleFor(node: TextNode): (b: Bundle)
    ensures b.TextBundle? && b.value == node.text
    ensures b.fontSize == (if node.fontSize.Some? then node.fontSize.value else FontBody)
    ensures b.color == (if node.color.Some? then node.color.value else TextColor)
  {
    TextBundle(node.text, node.fontSize.GetOr(FontBody), node.color.GetOr(TextColor))
  }

  /**
   * The builder context: the frame's command buffer, the allocator of fresh
   * entity ids, the material asset store (a handle is a position in it) and
   * the standard colour materials.
   */
  class NodeContext {
    var cmds: seq<Command>
    var next: Entity
    var assets: seq<Color>
    const colors: ColorMaterials

    constructor (colors: ColorMaterials, next: Entity, assets: seq<Color>)
      ensures this.colors == colors && this.next == next && this.assets == assets
      ensures cmds == []
    {
      this.colors := colors;
      this.next := next;
      this.assets := assets;
      cmds := [];
    }

    /** A fresh entity id, larger than every id handed out before. */
    method NewEntity() returns (e: Entity)
      modifies this`next
      ensures e == old(next) && next == old(next) + 1
    {
      e := next;
      next := next + 1;
    }

    /** Adds a colour to the asset store and returns the new material's handle. */
    method AddMaterial(c: Color) returns (m: Material)
      modifies this`assets
      ensures m == |old(assets)| && assets == old(assets) + [c]
    {
      m := |assets|;
      assets := assets + [c];
    }

    /** A background's material: a given material as is, a colour as one new material. */
    method GetMaterial(bg: Background) returns (m: Material)
      modifies this`assets
      ensures bg.MaterialBackground? ==> m == bg.material && assets == old(assets)
      ensures bg.ColorBackground? ==> assets == old(assets) + [bg.color] && m == |old(assets)|
    {
      match bg
      case ColorBackground(c) =>
        m := AddMaterial(c);
      case MaterialBackground(mat) =>
        m := mat;
    }

    /** Spawns a text node. */
    method SpawnText(node: TextNode) returns (e: Entity)
      modifies this`next, this`cmds
      ensures e == old(next) && next == old(next) + 1
      ensures cmds == old(cmds) + [Spawn(e, TextBundleFor(node))]
    {
      e := NewEntity();
      cmds := cmds + [Spawn(e, TextBundleFor(node))];
    }

    /** Spawns a heading: a text node with the heading defaults filled in. */
    method SpawnHeading(node: TextNode) returns (e: Entity)
      modifies this`next, this`cmds
      ensures e == old(next) && next == old(next) + 1
      ensures cmds == old(cmds) + [Spawn(e, TextBundleFor(HeadingStyle(node)))]
    {
      e := SpawnText(HeadingStyle(node));
    }

    /**
     * Spawns a text button: the button entity is allocated first, then its
     * label text; the button starts with its normal material and gets the
     * label as its only child and its `ButtonBehavior`.
     */
    method SpawnTextButton(node: TextButtonNode) returns (e: Entity, caption: Entity)
      modifies this`next, this`cmds
      ensures e == old(next) && caption == old(next) + 1 && next == old(next) + 2
      ensures cmds == old(cmds) + [
        Spawn(caption, TextBundleFor(node.caption)),
        Spawn(e, ButtonBundle(BehaviorFor(node, colors).normal)),
        PushChildren(e, [caption]),
        Insert(e, Behavior(BehaviorFor(node, colors)))]
    {
      e := NewEntity();
      var material := node.colorNormal.GetOr(colors.btnDark);
      caption := SpawnText(node.caption);
      cmds := cmds + [
        Spawn(e, ButtonBundle(material)),
        PushChildren(e, [caption]),
        Insert(e, Behavior(BehaviorFor(node, colors)))];
    }

    /**
     * First half of spawning a container: allocate its id and its material.
     * The caller then spawns the children and finishes with `EndDiv`.
     */
    method BeginDiv(node: DivNode) returns (e: Entity, m: Material)
      modifies this`next, this`assets
      ensures e == old(next) && next == old(next) + 1
      ensures node.background.MaterialBackground? ==> m == node.background.material && assets == old(assets)
      ensures node.background.ColorBackground? ==> assets == old(assets) + [node.background.color] && m == |old(assets)|
    {
      e := NewEntity();
      m := GetMaterial(node.background);
    }

    /** Second half of spawning a container: spawn it and attach its children in order. */
    method EndDiv(e: Entity, m: Material, node: DivNode, children: seq<Entity>)
      modifies this`cmds
      ensures cmds == old(cmds) + [Spawn(e, NodeBundle(m, node.margin.GetOr(DefaultRect()))), PushChildren(e, children)]
    {
      cmds := cmds + [Spawn(e, NodeBundle(m, node.margin.GetOr(DefaultRect()))), PushChildren(e, children)];
    }
  }
}
