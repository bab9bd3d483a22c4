/**
 * The footer under the todo list: a label with the number of todos left,
 * the three filter tabs and a "Clear Completed" button. The label keeps the
 * count it last showed and is rewritten only when the count changes.
 */
module TodoFooter {
  import opened Ecs
  import opened RectHelpers
  import opened CommonNodes
  import opened Scene

  // ---------------------------------------------------------------------------
  // Decimal rendering of a count

  /** The decimal digit character for `d`. */
  function Digit(d: nat): (c: char)
    requires d < 10
    ensures '0' <= c <= '9'
  {
    (48 + d) as char
  }

  function DigitValue(c: char): nat
    requires '0' <= c <= '9'
  {
    c as int - 48
  }

  predicate AllDigits(s: string) {
    forall i :: 0 <= i < |s| ==> '0' <= s[i] <= '9'
  }

  /** A count in decimal, most significant digit first, as `{}` formats an unsigned integer. */
  function NatToString(n: nat): (s: string)
    ensures |s| >= 1 && AllDigits(s)
    decreases n
  {
    if n < 10 then [Digit(n)] else NatToString(n / 10) + [Digit(n % 10)]
  }

  /** The value of a string of decimal digits. */
  function ParseNat(s: string): nat
    requires AllDigits(s)
  {
    if s == [] then 0 else ParseNat(s[..|s| - 1]) * 10 + DigitValue(s[|s| - 1])
  }

  /** Reading the rendered count back gives the count. */
  lemma {:induction false} ParseNatToString(n: nat)
    ensures ParseNat(NatToString(n)) == n
    decreases n
  {
    var s := NatToString(n);
    if n < 10 {
      assert s[..0] == [];
    } else {
      ParseNatToString(n / 10);
      assert s[..|s| - 1] == NatToString(n / 10);
      assert s[|s| - 1] == Digit(n % 10);
    }
  }

  /** Different counts render differently. */
  lemma NatToStringInjective(a: nat, b: nat)
    ensures NatToString(a) == NatToString(b) ==> a == b
  {
    ParseNatToString(a);
    ParseNatToString(b);
  }

  // ---------------------------------------------------------------------------
  // The count label

  /** The text a fresh count label shows before the count system first runs. */
  const CountPlaceholder: string := "Some items left"

  /** The label text for `count` todos: singular for exactly one, plural otherwise. */
  function ItemsLeft(count: nat): string {
    if count != 1 then NatToString(count) + " items left" else NatToString(count) + " item left"
  }

  /** The texts the label shows for no, one and two todos. */
  lemma ItemsLeftExamples()
    ensures ItemsLeft(0) == "0 items left"
    ensures ItemsLeft(1) == "1 item left"
    ensures ItemsLeft(2) == "2 items left"
  {
  }

  /** The label uses the singular exactly when one todo is left, and always starts with the count. */
  lemma ItemsLeftShape(count: nat)
    ensures var s := ItemsLeft(count); var d := NatToString(count);
      && |s| > |d| && s[..|d|] == d
      && (count == 1 <==> s[|d|..] == " item left")
      && (count != 1 <==> s[|d|..] == " items left")
  {
    var s := ItemsLeft(count);
    var d := NatToString(count);
    if count == 1 {
      assert s[|d|..] == " item left";
    } else {
      assert s[|d|..] == " items left";
    }
  }

  /** The position of the first non-digit character of `s` (its length if there is none). */
  function DigitRun(s: string): nat {
    if s == [] || !('0' <= s[0] <= '9') then 0 else 1 + DigitRun(s[1..])
  }

  /** Digits followed by a space: the digit run is exactly the digits. */
  lemma {:induction false} DigitRunOfDigits(s: string, d: string)
    requires AllDigits(d) && |s| > |d| && s[..|d|] == d && s[|d|] == ' '
    ensures DigitRun(s) == |d|
    decreases |d|
  {
    if d != [] {
      assert s[0] == d[0];
      assert s[1..][..|d| - 1] == d[1..];
      DigitRunOfDigits(s[1..], d[1..]);
    }
  }

  /** Reading the leading digits of the label text back gives the count. */
  lemma ItemsLeftReadsBack(count: nat)
    ensures var s := ItemsLeft(count);
      && DigitRun(s) <= |s| && AllDigits(s[..DigitRun(s)])
      && ParseNat(s[..DigitRun(s)]) == count
  {
    var s := ItemsLeft(count);
    var d := NatToString(count);
    ItemsLeftShape(count);
    assert s[|d|] == s[|d|..][0] == ' ';
    DigitRunOfDigits(s, d);
    ParseNatToString(count);
  }

  /** The label text determines the count: different counts never show the same text. */
  lemma ItemsLeftInjective(a: nat, b: nat)
    ensures ItemsLeft(a) == ItemsLeft(b) ==> a == b
  {
    if ItemsLeft(a) == ItemsLeft(b) {
      var s := ItemsLeft(a);
      var da, db := NatToString(a), NatToString(b);
      ItemsLeftShape(a);
      ItemsLeftShape(b);
      assert s[|da|] == s[|da|..][0] == ' ';
      assert s[|db|] == s[|db|..][0] == ' ';
      DigitRunOfDigits(s, da);
      DigitRunOfDigits(s, db);
      assert da == s[..|da|] == db;
      NatToStringInjective(a, b);
    }
  }

  /** The placeholder never matches a count text, so the first write is visible. */
  lemma PlaceholderIsNoCount(count: nat)
    ensures ItemsLeft(count) != CountPlaceholder
  {
    ItemsLeftShape(count);
    assert ItemsLeft(count)[0] == NatToString(count)[0];
  }

  /** Whether a label with cache `cached` must be rewritten for `count`: only a cache that already holds the count is skipped. */
  predicate ShouldUpdate(cached: Option<nat>, count: nat)
    ensures ShouldUpdate(cached, count) <==> cached != Some(count)
  {
    cached.None? || cached.value != count
  }

  /** The label texts after one pass of the count system over `labels` with `count` todos. */
  function CountTexts(texts: map<Entity, string>, cache: map<Entity, Option<nat>>, labels: seq<Entity>, count: nat): (r: map<Entity, string>)
    requires forall l :: l in labels ==> l in cache
    ensures r.Keys == texts.Keys
  {
    map x | x in texts :: if x in labels && ShouldUpdate(cache[x], count) then ItemsLeft(count) else texts[x]
  }

  /** The label caches after one pass of the count system: every label remembers `count`. */
  function CountCache(cache: map<Entity, Option<nat>>, labels: seq<Entity>, count: nat): (r: map<Entity, Option<nat>>)
    ensures r.Keys == cache.Keys
  {
    map x | x in cache :: if x in labels then Some(count) else cache[x]
  }

  /** A label's cache, when set, names the count its text shows. */
  ghost predicate Consistent(texts: map<Entity, string>, cache: map<Entity, Option<nat>>, labels: seq<Entity>) {
    forall l :: l in labels ==> l in texts && l in cache && (cache[l].Some? ==> texts[l] == ItemsLeft(cache[l].value))
  }

  /**
   * From consistent labels, one pass leaves every label showing the current
   * count, and the labels stay consistent.
   */
  lemma CountShowsCount(texts: map<Entity, string>, cache: map<Entity, Option<nat>>, labels: seq<Entity>, count: nat)
    requires Consistent(texts, cache, labels)
    ensures var t := CountTexts(texts, cache, labels, count);
            var c := CountCache(cache, labels, count);
            && (forall l :: l in labels ==> t[l] == ItemsLeft(count))
            && Consistent(t, c, labels)
  {
  }

  /** A second pass with the same count writes nothing. */
  lemma CountSecondPassIsQuiet(texts: map<Entity, string>, cache: map<Entity, Option<nat>>, labels: seq<Entity>, count: nat)
    requires forall l :: l in labels ==> l in cache
    ensures var t := CountTexts(texts, cache, labels, count);
            var c := CountCache(cache, labels, count);
            CountTexts(t, c, labels, count) == t && CountCache(c, labels, count) == c
  {
  }

  /** A freshly spawned label (no cache, the placeholder text) is rewritten on the first pass. */
  lemma FirstPassWrites(texts: map<Entity, string>, cache: map<Entity, Option<nat>>, labels: seq<Entity>, count: nat, l: Entity)
    requires forall x :: x in labels ==> x in cache
    requires l in labels && l in texts && cache[l].None? && texts[l] == CountPlaceholder
    ensures CountTexts(texts, cache, labels, count)[l] != texts[l]
  {
    PlaceholderIsNoCount(count);
  }

  /** The count labels: their query order, their texts and their cached counts. */
  class CountLabels {
    var labels: seq<Entity>
    var texts: map<Entity, string>
    var cache: map<Entity, Option<nat>>

    ghost predicate Valid()
      reads this
    {
      Distinct(labels) && forall l :: l in labels ==> l in texts && l in cache
    }

    /**
     * The count system: the count is the number of todos; each label whose
     * cache is empty or holds another count gets the new text and caches
     * the count.
     */
    method CountLabelSystem(todos: seq<Entity>)
      requires Valid()
      modifies this`texts, this`cache
      ensures Valid()
      ensures texts == CountTexts(old(texts), old(cache), labels, |todos|)
      ensures cache == CountCache(old(cache), labels, |todos|)
    {
      var count := |todos|;
      var text := ItemsLeft(count);
      var i := 0;
      assert labels[..0] == [];
      while i < |labels|
        invariant 0 <= i <= |labels|
        invariant texts.Keys == old(texts).Keys && cache.Keys == old(cache).Keys
        invariant CountedSoFar(texts, cache, old(texts), old(cache), labels[..i], count, text)
      {
        VisitLabel(i, count, text, old(texts), old(cache));
        i := i + 1;
      }
      assert labels[..i] == labels;
      CountedAll(texts, cache, old(texts), old(cache), labels, count);
    }

    /** The loop body of the count system: label `i` gets `text` and caches `count` unless it already holds `count`. */
    method VisitLabel(i: nat, count: nat, text: string, ghost t0: map<Entity, string>, ghost c0: map<Entity, Option<nat>>)
      requires Valid() && i < |labels|
      requires forall l :: l in labels ==> l in t0 && l in c0
      requires texts.Keys == t0.Keys && cache.Keys == c0.Keys
      requires CountedSoFar(texts, cache, t0, c0, labels[..i], count, text)
      modifies this`texts, this`cache
      ensures texts.Keys == t0.Keys && cache.Keys == c0.Keys
      ensures CountedSoFar(texts, cache, t0, c0, labels[..i + 1], count, text)
    {
      var l := labels[i];
      CountStep(texts, cache, t0, c0, labels, i, count, text);
      var shouldUpdate := if cache[l].Some? then cache[l].value != count else true;
      if shouldUpdate {
        texts := texts[l := text];
        cache := cache[l := Some(count)];
      }
    }
  }

  /** The count system has visited the labels in `done`: those are rewritten where needed and cache `count`. */
  ghost predicate CountedSoFar(t: map<Entity, string>, c: map<Entity, Option<nat>>,
                               t0: map<Entity, string>, c0: map<Entity, Option<nat>>,
                               done: seq<Entity>, count: nat, text: string)
  {
    && (forall x :: x in t ==> x in t0 && t[x] == (if x in done && x in c0 && ShouldUpdate(c0[x], count) then text else t0[x]))
    && (forall x :: x in c ==> x in c0 && c[x] == (if x in done then Some(count) else c0[x]))
  }

  /** One more label visited by the count system. */
  lemma CountStep(t: map<Entity, string>, c: map<Entity, Option<nat>>,
                  t0: map<Entity, string>, c0: map<Entity, Option<nat>>,
                  labels: seq<Entity>, i: nat, count: nat, text: string)
    requires i < |labels| && Distinct(labels)
    requires forall l :: l in labels ==> l in t0 && l in c0
    requires t.Keys == t0.Keys && c.Keys == c0.Keys
    requires CountedSoFar(t, c, t0, c0, labels[..i], count, text)
    ensures var l := labels[i];
            var update := ShouldUpdate(c[l], count);
            CountedSoFar(if update then t[l := text] else t, if update then c[l := Some(count)] else c,
                         t0, c0, labels[..i + 1], count, text)
  {
    var l := labels[i];
    assert forall x :: x in labels[..i + 1] <==> x in labels[..i] || x == l;
    assert l !in labels[..i];
  }

  /** All labels visited: the texts and caches are those of one pass. */
  lemma CountedAll(t: map<Entity, string>, c: map<Entity, Option<nat>>,
                   t0: map<Entity, string>, c0: map<Entity, Option<nat>>, labels: seq<Entity>, count: nat)
    requires forall l :: l in labels ==> l in c0
    requires t.Keys == t0.Keys && c.Keys == c0.Keys
    requires CountedSoFar(t, c, t0, c0, labels, count, ItemsLeft(count))
    ensures t == CountTexts(t0, c0, labels, count) && c == CountCache(c0, labels, count)
  {
  }

  /** Spawns a count label: the placeholder text and an empty cache. */
  method SpawnCountLabel(ctx: NodeContext) returns (e: Entity)
    modifies ctx`next, ctx`cmds
    ensures e == old(ctx.next) && ctx.next == old(ctx.next) + 1
    ensures ctx.cmds == old(ctx.cmds) + [Spawn(e, TextBundleFor(PlainText(CountPlaceholder))), Insert(e, CountLabel(None))]
  {
    e := ctx.SpawnText(PlainText(CountPlaceholder));
    ctx.cmds := ctx.cmds + [Insert(e, CountLabel(None))];
  }

  // ---------------------------------------------------------------------------
  // Tabs, the clear button and the footer

  /** A tab's margin: zero on three sides, and a spacer on the right unless it is the last tab. */
  function TabMargin(last: bool): Rect {
    Rect(Px(0.0), if last then Zero else Spacer, Px(0.0), Px(0.0))
  }

  /** Only the last tab has no space to its right. */
  lemma TabMarginRight(last: bool)
    ensures TabMargin(last).right == Zero <==> last
    ensures TabMargin(last).left == TabMargin(last).top == TabMargin(last).bottom == Px(0.0)
  {
  }

  /** A white container `e` with material `m` and one text child `e + 1`. */
  function LabelledDivCommands(e: Entity, m: Material, margin: Rect, caption: string): seq<Command> {
    [Spawn(e + 1, TextBundleFor(PlainText(caption))),
     Spawn(e, NodeBundle(m, margin)),
     PushChildren(e, [e + 1])]
  }

  /** Spawns a white container with a fresh material and a single text child. */
  method SpawnLabelledDiv(ctx: NodeContext, margin: Option<Rect>, caption: string) returns (e: Entity)
    modifies ctx`next, ctx`cmds, ctx`assets
    ensures e == old(ctx.next) && ctx.next == old(ctx.next) + 2
    ensures ctx.assets == old(ctx.assets) + [White]
    ensures ctx.cmds == old(ctx.cmds) + LabelledDivCommands(e, |old(ctx.assets)|, margin.GetOr(DefaultRect()), caption)
  {
    var node := DivNode(ColorBackground(White), margin);
    var m;
    e, m := ctx.BeginDiv(node);
    var txt := ctx.SpawnText(PlainText(caption));
    ctx.EndDiv(e, m, node, [txt]);
  }

  /** Spawns one tab, labelled `caption`; `last` says whether it is the rightmost tab. */
  method SpawnTabButton(ctx: NodeContext, caption: string, last: bool) returns (e: Entity)
    modifies ctx`next, ctx`cmds, ctx`assets
    ensures e == old(ctx.next) && ctx.next == old(ctx.next) + 2
    ensures ctx.assets == old(ctx.assets) + [White]
    ensures ctx.cmds == old(ctx.cmds) + LabelledDivCommands(e, |old(ctx.assets)|, TabMargin(last), caption)
  {
    e := SpawnLabelledDiv(ctx, Some(TabMargin(last)), caption);
  }

  /** The tab captions, left to right. */
  const TabLabels: seq<string> := ["All", "Active", "Completed"]

  /** The commands that build the tab row `e` (material `m`): three tabs, then the row itself. */
  function TabControlsCommands(e: Entity, m: Material): seq<Command> {
    LabelledDivCommands(e + 1, m + 1, TabMargin(false), TabLabels[0])
    + LabelledDivCommands(e + 3, m + 2, TabMargin(false), TabLabels[1])
    + LabelledDivCommands(e + 5, m + 3, TabMargin(true), TabLabels[2])
    + [Spawn(e, NodeBundle(m, DefaultRect())), PushChildren(e, [e + 1, e + 3, e + 5])]
  }

  /** Spawns the tab row: "All", "Active", "Completed", only the last one marked last. */
  method SpawnTabControls(ctx: NodeContext) returns (e: Entity)
    modifies ctx`next, ctx`cmds, ctx`assets
    ensures e == old(ctx.next) && ctx.next == old(ctx.next) + 7
    ensures ctx.assets == old(ctx.assets) + [White, White, White, White]
    ensures ctx.cmds == old(ctx.cmds) + TabControlsCommands(e, |old(ctx.assets)|)
  {
    var node := DivNode(ColorBackground(White), None);
    var m;
    e, m := ctx.BeginDiv(node);
    var all := SpawnTabButton(ctx, "All", false);
    var active := SpawnTabButton(ctx, "Active", false);
    var completed := SpawnTabButton(ctx, "Completed", true);
    ctx.EndDiv(e, m, node, [all, active, completed]);
  }

  /** The scene effect of a labelled container on a fresh id: one child holding the caption. */
  lemma ApplyLabelledDiv(s: Scene, e: Entity, m: Material, margin: Rect, caption: string)
    requires e !in s.children
    ensures Apply(s, LabelledDivCommands(e, m, margin, caption))
         == s.(children := s.children[e := [e + 1]], texts := s.texts[e + 1 := caption])
  {
    var cs := LabelledDivCommands(e, m, margin, caption);
    var t1 := ApplyOne(s, cs[0]);
    var t2 := ApplyOne(t1, cs[1]);
    ApplyFreshChildren(t2, e, [e + 1]);
    ApplyCons(s, cs[0], cs[1..]);
    ApplyCons(t1, cs[1], cs[2..]);
    ApplyCons(t2, cs[2], []);
    assert cs[1..] == [cs[1]] + cs[2..];
    assert cs[2..] == [cs[2]] + [];
  }

  /** The scene effect of the tab row's commands on fresh ids. */
  lemma ApplyTabControls(s0: Scene, e: Entity, m: Material)
    requires forall p :: p in s0.children ==> p < e
    ensures Apply(s0, TabControlsCommands(e, m))
         == s0.(children := s0.children[e + 1 := [e + 2]][e + 3 := [e + 4]][e + 5 := [e + 6]][e := [e + 1, e + 3, e + 5]],
                texts := s0.texts[e + 2 := TabLabels[0]][e + 4 := TabLabels[1]][e + 6 := TabLabels[2]])
  {
    var a := LabelledDivCommands(e + 1, m + 1, TabMargin(false), TabLabels[0]);
    var b := LabelledDivCommands(e + 3, m + 2, TabMargin(false), TabLabels[1]);
    var c := LabelledDivCommands(e + 5, m + 3, TabMargin(true), TabLabels[2]);
    var tail := [Spawn(e, NodeBundle(m, DefaultRect())), PushChildren(e, [e + 1, e + 3, e + 5])];
    ApplyConcat(s0, a + b + c, tail);
    ApplyConcat(s0, a + b, c);
    ApplyConcat(s0, a, b);
    ApplyLabelledDiv(s0, e + 1, m + 1, TabMargin(false), TabLabels[0]);
    var s1 := Apply(s0, a);
    ApplyLabelledDiv(s1, e + 3, m + 2, TabMargin(false), TabLabels[1]);
    var s2 := Apply(s1, b);
    ApplyLabelledDiv(s2, e + 5, m + 3, TabMargin(true), TabLabels[2]);
    var s3 := Apply(s2, c);
    assert e !in s3.children;
    ApplyTwo(s3, tail[0], tail[1]);
    ApplyFreshChildren(ApplyOne(s3, tail[0]), e, [e + 1, e + 3, e + 5]);
  }

  /**
   * The tab row in the scene: its children are the three tabs, left to
   * right "All", "Active", "Completed", each holding one text, its caption.
   */
  lemma TabControlsLayout(s0: Scene, e: Entity, m: Material)
    requires Bounded(s0, e)
    ensures var s := Apply(s0, TabControlsCommands(e, m));
      && ChildrenOf(s, e) == [e + 1, e + 3, e + 5]
      && ChildrenOf(s, e + 1) == [e + 2] && ChildrenOf(s, e + 3) == [e + 4] && ChildrenOf(s, e + 5) == [e + 6]
      && e + 2 in s.texts && s.texts[e + 2] == "All"
      && e + 4 in s.texts && s.texts[e + 4] == "Active"
      && e + 6 in s.texts && s.texts[e + 6] == "Completed"
  {
    ApplyTabControls(s0, e, m);
  }

  /**
   * The tabs' containers, in order, are spawned with the margins for "not
   * last", "not last" and "last": only "Completed" has no right spacer.
   */
  lemma TabMargins(e: Entity, m: Material)
    ensures var cs := TabControlsCommands(e, m);
      && Spawn(e + 1, NodeBundle(m + 1, TabMargin(false))) in cs
      && Spawn(e + 3, NodeBundle(m + 2, TabMargin(false))) in cs
      && Spawn(e + 5, NodeBundle(m + 3, TabMargin(true))) in cs
      && TabMargin(false).right == Spacer && TabMargin(true).right == Zero
  {
    var cs := TabControlsCommands(e, m);
    assert cs[1] == Spawn(e + 1, NodeBundle(m + 1, TabMargin(false)));
    assert cs[4] == Spawn(e + 3, NodeBundle(m + 2, TabMargin(false)));
    assert cs[7] == Spawn(e + 5, NodeBundle(m + 3, TabMargin(true)));
  }

  /** The caption of the clear button. */
  const ClearLabel: string := "Clear Completed"

  /** Spawns the clear button: a white container holding its caption. */
  method SpawnClearButton(ctx: NodeContext) returns (e: Entity)
    modifies ctx`next, ctx`cmds, ctx`assets
    ensures e == old(ctx.next) && ctx.next == old(ctx.next) + 2
    ensures ctx.assets == old(ctx.assets) + [White]
    ensures ctx.cmds == old(ctx.cmds) + LabelledDivCommands(e, |old(ctx.assets)|, DefaultRect(), ClearLabel)
  {
    e := SpawnLabelledDiv(ctx, None, ClearLabel);
  }

  /**
   * The commands that build the footer's children: the count label `e + 1`,
   * the tab row `e + 2` (with ids up to `e + 8`) and the clear button `e + 9`
   * (caption `e + 10`). None of them touches `e` or an older entity.
   */
  function FooterParts(e: Entity, m: Material): (r: seq<Command>)
    ensures Within(r, e + 1)
  {
    [Spawn(e + 1, TextBundleFor(PlainText(CountPlaceholder))), Insert(e + 1, CountLabel(None))]
    + TabControlsCommands(e + 2, m + 1)
    + LabelledDivCommands(e + 9, m + 5, DefaultRect(), ClearLabel)
  }

  /** The commands that build footer `e` (material `m`): its children, then the footer itself. */
  function FooterCommands(e: Entity, m: Material): seq<Command> {
    FooterParts(e, m) + [Spawn(e, NodeBundle(m, DefaultRect())), PushChildren(e, [e + 1, e + 2, e + 9])]
  }

  /** The materials a footer creates, in order: the footer's own white, then the tabs' and the clear button's. */
  const FooterColors: seq<Color> := [White, White, White, White, White, White]

  /** Spawns the footer: count caption, tab row and clear button, left to right. */
  method SpawnTodoFooter(ctx: NodeContext) returns (e: Entity)
    modifies ctx`next, ctx`cmds, ctx`assets
    ensures e == old(ctx.next) && ctx.next == old(ctx.next) + 11
    ensures ctx.assets == old(ctx.assets) + FooterColors
    ensures ctx.cmds == old(ctx.cmds) + FooterCommands(e, |old(ctx.assets)|)
  {
    var node := DivNode(ColorBackground(White), None);
    var m;
    e, m := ctx.BeginDiv(node);
    var count := SpawnCountLabel(ctx);
    var tabs := SpawnTabControls(ctx);
    var clear := SpawnClearButton(ctx);
    ctx.EndDiv(e, m, node, [count, tabs, clear]);
  }

  /** In the scene, the footer's children are the count label, the tab row and the clear button. */
  lemma FooterChildren(s0: Scene, e: Entity, m: Material)
    requires e !in s0.children
    ensures ChildrenOf(Apply(s0, FooterCommands(e, m)), e) == [e + 1, e + 2, e + 9]
  {
    var tail := [Spawn(e, NodeBundle(m, DefaultRect())), PushChildren(e, [e + 1, e + 2, e + 9])];
    ApplyConcat(s0, FooterParts(e, m), tail);
    ApplyWithinKeeps(s0, FooterParts(e, m), e + 1, e);
    var s1 := Apply(s0, FooterParts(e, m));
    var t1 := ApplyOne(s1, tail[0]);
    ApplyFreshChildren(t1, e, [e + 1, e + 2, e + 9]);
    ApplyCons(s1, tail[0], tail[1..]);
    ApplyCons(t1, tail[1], []);
    assert tail[1..] == [tail[1]] + [];
  }
}
