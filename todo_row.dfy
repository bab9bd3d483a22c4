/**
 * A todo row: a container bound to one todo entity, holding a "complete"
 * button and a label. The sync system copies a changed todo into its rows'
 * label and button texts; the click system flips the bound todo's
 * `completed` flag when the row's button is clicked.
 */
module TodoRow {
  import opened Ecs
  import opened Domain
  import opened RectHelpers
  import opened CommonNodes
  import opened Scene

  /** The button caption for a todo's completion state. */
  function CompleteMark(completed: bool): (s: string)
    ensures |s| == 3
    ensures completed <==> s == " X "
    ensures !completed <==> s == "   "
  {
    if completed then " X " else "   "
  }

  /** `order` lists the keys of a table, each once (the order a query visits them). */
  ghost predicate Enumerates(order: seq<Entity>, keys: set<Entity>) {
    Distinct(order) && forall e :: e in order <==> e in keys
  }

  /**
   * The first entry of `order` whose parent is `row`: the label the sync
   * writes before it stops looking.
   */
  function FirstLabel(order: seq<Entity>, parent: map<Entity, Entity>, row: Entity): (r: Option<Entity>)
    requires forall l :: l in order ==> l in parent
    ensures r.Some? ==> r.value in order && parent[r.value] == row
    ensures r.None? <==> forall l :: l in order ==> parent[l] != row
    ensures r.Some? ==> exists i :: 0 <= i < |order| && order[i] == r.value &&
                          forall j :: 0 <= j < i ==> parent[order[j]] != row
  {
    if order == [] then None
    else if parent[order[0]] == row then Some(order[0])
    else FirstLabel(order[1..], parent, row)
  }

  /** The todo bound to the row that is the parent of `btn`, if that parent is a row. */
  function BoundTodo(rows: map<Entity, Entity>, buttonParent: map<Entity, Entity>, btn: Entity): (r: Option<Entity>)
    ensures r.Some? <==> btn in buttonParent && buttonParent[btn] in rows
    ensures r.Some? ==> r.value == rows[buttonParent[btn]]
  {
    if btn in buttonParent && buttonParent[btn] in rows then Some(rows[buttonParent[btn]]) else None
  }

  /**
   * Flipping the completion flag of the `target` todo, when there is one and
   * it still exists; every other todo, and every other field, is unchanged.
   */
  function Toggle(todos: map<Entity, Todo>, target: Option<Entity>): (r: map<Entity, Todo>)
    ensures r.Keys == todos.Keys
    ensures forall t :: t in todos ==> r[t].text == todos[t].text && r[t].ordinal == todos[t].ordinal
    ensures forall t :: t in todos ==> (r[t].completed <==> (todos[t].completed != (target == Some(t))))
    ensures target.None? || target.value !in todos ==> r == todos
  {
    if target.Some? && target.value in todos then
      todos[target.value := todos[target.value].(completed := !todos[target.value].completed)]
    else todos
  }

  /** Flipping the same todo twice restores every todo. */
  lemma ToggleTwice(todos: map<Entity, Todo>, target: Option<Entity>)
    ensures Toggle(Toggle(todos, target), target) == todos
  {
    var once := Toggle(todos, target);
    var twice := Toggle(once, target);
    assert twice.Keys == todos.Keys;
    forall t | t in todos
      ensures twice[t] == todos[t]
    {
      assert twice[t].completed == todos[t].completed;
    }
  }

  /** The todos after the click system handles `clicks` (buttons whose interaction changed), in order. */
  function ToggleEach(todos: map<Entity, Todo>, rows: map<Entity, Entity>, buttonParent: map<Entity, Entity>,
                      clicks: seq<Entity>, interaction: map<Entity, Interaction>): (r: map<Entity, Todo>)
    requires forall b :: b in clicks ==> b in interaction
    ensures r.Keys == todos.Keys
  {
    if clicks == [] then todos
    else
      var n := |clicks| - 1;
      var prior := ToggleEach(todos, rows, buttonParent, clicks[..n], interaction);
      if interaction[clicks[n]] == Clicked then Toggle(prior, BoundTodo(rows, buttonParent, clicks[n])) else prior
  }

  /**
   * One click on a complete button flips exactly the todo bound to its row;
   * a second click on it in the same pass flips it back.
   */
  lemma ClickTogglesBoundTodo(todos: map<Entity, Todo>, rows: map<Entity, Entity>, buttonParent: map<Entity, Entity>,
                              btn: Entity, interaction: map<Entity, Interaction>)
    requires btn in interaction && interaction[btn] == Clicked
    ensures ToggleEach(todos, rows, buttonParent, [btn], interaction) == Toggle(todos, BoundTodo(rows, buttonParent, btn))
    ensures ToggleEach(todos, rows, buttonParent, [btn, btn], interaction) == todos
  {
    assert [btn][..0] == [];
    assert [btn, btn][..1] == [btn];
    ToggleTwice(todos, BoundTodo(rows, buttonParent, btn));
  }

  /**
   * The tables the row systems read and write: todos, row bindings, the row
   * labels, complete buttons and button labels with their parents, and texts.
   * Each `...Order` is the order in which a query visits that table.
   */
  class RowWorld {
    var todos: map<Entity, Todo>
    var todoOrder: seq<Entity>
    var rows: map<Entity, Entity>
    var rowOrder: seq<Entity>
    var labelParent: map<Entity, Entity>
    var labelOrder: seq<Entity>
    var buttonParent: map<Entity, Entity>
    var buttonOrder: seq<Entity>
    var buttonLabelParent: map<Entity, Entity>
    var buttonLabelOrder: seq<Entity>
    var texts: map<Entity, string>

    /**
     * Each query visits its table once, and no entity is both a row label and
     * a button label.
     */
    ghost predicate Tables()
      reads this`todos, this`todoOrder, this`rows, this`rowOrder, this`labelParent, this`labelOrder
      reads this`buttonParent, this`buttonOrder, this`buttonLabelParent, this`buttonLabelOrder
    {
      && Enumerates(todoOrder, todos.Keys)
      && Enumerates(rowOrder, rows.Keys)
      && Enumerates(labelOrder, labelParent.Keys)
      && Enumerates(buttonOrder, buttonParent.Keys)
      && Enumerates(buttonLabelOrder, buttonLabelParent.Keys)
      && (forall x :: x in labelParent ==> x !in buttonLabelParent)
    }

    /** Every label has a text. */
    ghost predicate TextsCover()
      reads this`labelParent, this`buttonLabelParent, this`texts
    {
      && (forall l :: l in labelParent ==> l in texts)
      && (forall l :: l in buttonLabelParent ==> l in texts)
    }

    ghost predicate Valid()
      reads this
    {
      Tables() && TextsCover()
    }

    /** The row that `x` labels a complete button of, if it is such a label. */
    ghost function ButtonLabelRow(x: Entity): Option<Entity>
      reads this`buttonParent, this`buttonLabelParent
    {
      if x in buttonLabelParent && buttonLabelParent[x] in buttonParent
      then Some(buttonParent[buttonLabelParent[x]]) else None
    }

    /** Writes `text` into the first label whose parent is `row`, and stops there. */
    method SetRowLabel(row: Entity, text: string)
      requires forall l :: l in labelOrder ==> l in labelParent
      requires forall l :: l in labelParent ==> l in texts
      modifies this`texts
      ensures texts.Keys == old(texts).Keys
      ensures var f := FirstLabel(labelOrder, labelParent, row);
        texts == if f.Some? then old(texts)[f.value := text] else old(texts)
    {
      var i := 0;
      while i < |labelOrder|
        invariant 0 <= i <= |labelOrder|
        invariant FirstLabel(labelOrder, labelParent, row) == FirstLabel(labelOrder[i..], labelParent, row)
        invariant texts == old(texts)
      {
        var l := labelOrder[i];
        if labelParent[l] == row {
          texts := texts[l := text];
          return;
        }
        assert labelOrder[i..][1..] == labelOrder[i + 1..];
        i := i + 1;
      }
    }

    /** Writes `mark` into every button label whose parent is `btn`. */
    method SetButtonLabels(btn: Entity, mark: string)
      requires forall l :: l in buttonLabelOrder <==> l in buttonLabelParent
      requires forall l :: l in buttonLabelParent ==> l in texts
      modifies this`texts
      ensures texts.Keys == old(texts).Keys
      ensures forall x :: x in texts ==>
        texts[x] == (if x in buttonLabelParent && buttonLabelParent[x] == btn then mark else old(texts)[x])
    {
      var order, parent := buttonLabelOrder, buttonLabelParent;
      var j := 0;
      ghost var seen: set<Entity> := {};
      while j < |order|
        invariant 0 <= j <= |order|
        invariant texts.Keys == old(texts).Keys
        invariant forall x :: x in order[..j] ==> x in seen
        invariant forall x :: x in texts ==>
          texts[x] == (if x in seen && x in parent && parent[x] == btn then mark else old(texts)[x])
      {
        var bl := order[j];
        if parent[bl] == btn {
          texts := texts[bl := mark];
        }
        seen := seen + {bl};
        assert order[..j + 1] == order[..j] + [bl];
        j := j + 1;
      }
      assert order[..j] == order;
    }

    /**
     * Syncs one row with its todo: the row's first label shows the todo's
     * text and every label of the row's complete buttons shows the
     * completion mark; no other text changes.
     */
    method SyncRow(row: Entity, todo: Todo)
      requires Valid()
      modifies this`texts
      ensures texts.Keys == old(texts).Keys
      ensures forall x :: x in texts ==>
        texts[x] == (if ButtonLabelRow(x) == Some(row) then CompleteMark(todo.completed)
                     else if FirstLabel(labelOrder, labelParent, row) == Some(x) then todo.text
                     else old(texts)[x])
    {
      SetRowLabel(row, todo.text);
      ghost var mid := texts;
      var mark := CompleteMark(todo.completed);
      var k := 0;
      while k < |buttonOrder|
        invariant 0 <= k <= |buttonOrder|
        invariant forall l :: l in buttonLabelParent ==> l in texts
        invariant MarkedSoFar(texts, mid, buttonOrder[..k], row, mark)
      {
        var b := buttonOrder[k];
        ghost var before := texts;
        if buttonParent[b] == row {
          SetButtonLabels(b, mark);
        }
        MarkStep(before, texts, mid, k, row, mark);
        k := k + 1;
      }
      assert buttonOrder[..k] == buttonOrder;
      AllButtonsMarked(texts, mid, old(texts), row, todo);
    }

    /**
     * `t` is `mid` with `mark` written into every label of a complete button
     * in `bs` that belongs to `row`.
     */
    ghost predicate MarkedSoFar(t: map<Entity, string>, mid: map<Entity, string>, bs: seq<Entity>, row: Entity, mark: string)
      reads this`buttonParent, this`buttonLabelParent
    {
      && t.Keys == mid.Keys
      && forall x :: x in t ==>
        t[x] == (if x in buttonLabelParent && buttonLabelParent[x] in bs && buttonLabelParent[x] in buttonParent
                    && buttonParent[buttonLabelParent[x]] == row
                 then mark else mid[x])
    }

    /** Visiting button `k` of the query keeps the marking up to date. */
    lemma MarkStep(before: map<Entity, string>, after: map<Entity, string>, mid: map<Entity, string>,
                   k: nat, row: Entity, mark: string)
      requires Tables() && k < |buttonOrder|
      requires MarkedSoFar(before, mid, buttonOrder[..k], row, mark)
      requires buttonParent[buttonOrder[k]] != row ==> after == before
      requires buttonParent[buttonOrder[k]] == row ==> after.Keys == before.Keys
      requires buttonParent[buttonOrder[k]] == row ==> forall x :: x in after ==>
        after[x] == (if x in buttonLabelParent && buttonLabelParent[x] == buttonOrder[k] then mark else before[x])
      ensures MarkedSoFar(after, mid, buttonOrder[..k + 1], row, mark)
    {
      assert forall y :: y in buttonOrder[..k + 1] <==> y in buttonOrder[..k] || y == buttonOrder[k];
    }

    /**
     * Once every button was visited, on top of the row label written first,
     * the marked labels are those of `row`'s complete buttons.
     */
    lemma AllButtonsMarked(t: map<Entity, string>, mid: map<Entity, string>, t0: map<Entity, string>,
                           row: Entity, todo: Todo)
      requires Tables() && MarkedSoFar(t, mid, buttonOrder, row, CompleteMark(todo.completed))
      requires var f := FirstLabel(labelOrder, labelParent, row);
        mid == if f.Some? then t0[f.value := todo.text] else t0
      ensures forall x :: x in t ==>
        t[x] == (if ButtonLabelRow(x) == Some(row) then CompleteMark(todo.completed)
                 else if FirstLabel(labelOrder, labelParent, row) == Some(x) then todo.text
                 else t0[x])
    {
    }

    /** Row `r` is bound to a todo that exists. */
    ghost predicate Live(r: Entity)
      reads this`rows, this`todos
    {
      r in rows && rows[r] in todos
    }

    /** The rows bound to a todo in `ts` that still exists. */
    ghost function SyncedRows(ts: set<Entity>): (r: set<Entity>)
      reads this`rows, this`todos
      ensures forall q :: q in r <==> Live(q) && rows[q] in ts
    {
      set q | q in rows && rows[q] in ts && rows[q] in todos
    }

    /** The row whose first label is `x`, if `x` is one. */
    ghost function LabelRow(x: Entity): (r: Option<Entity>)
      reads this`labelParent, this`labelOrder
      requires forall l :: l in labelOrder ==> l in labelParent
      ensures r.Some? <==> x in labelParent && FirstLabel(labelOrder, labelParent, labelParent[x]) == Some(x)
      ensures r.Some? ==> r.value == labelParent[x]
    {
      if x in labelParent && FirstLabel(labelOrder, labelParent, labelParent[x]) == Some(x)
      then Some(labelParent[x]) else None
    }

    /**
     * The text of `x` once the rows in `synced` have been synced with their
     * todos, starting from the texts `t0`: a complete-button label of a synced
     * row shows its todo's mark, the first label of a synced row shows its
     * todo's text, every other text is as in `t0`.
     */
    ghost function Expected(t0: map<Entity, string>, x: Entity, synced: set<Entity>): string
      reads this`todos, this`todoOrder, this`rows, this`rowOrder, this`labelParent, this`labelOrder
      reads this`buttonParent, this`buttonOrder, this`buttonLabelParent, this`buttonLabelOrder
      requires Tables() && x in t0
    {
      var br := ButtonLabelRow(x);
      var lr := LabelRow(x);
      if br.Some? && br.value in synced && Live(br.value)
      then CompleteMark(todos[rows[br.value]].completed)
      else if lr.Some? && lr.value in synced && Live(lr.value)
      then todos[rows[lr.value]].text
      else t0[x]
    }

    /** The first label of `row` is not a button label. */
    lemma FirstLabelIsRowLabel(row: Entity, x: Entity)
      requires Tables() && FirstLabel(labelOrder, labelParent, row) == Some(x)
      ensures LabelRow(x) == Some(row) && ButtonLabelRow(x).None?
    {
    }

    /** Syncing one more row `row` moves the text of `x` from `synced` to `synced + {row}`. */
    lemma SyncStepAt(t0: map<Entity, string>, old_x: string, new_x: string, x: Entity, synced: set<Entity>, row: Entity)
      requires Tables() && Live(row) && x in t0
      requires old_x == Expected(t0, x, synced)
      requires new_x == (if ButtonLabelRow(x) == Some(row) then CompleteMark(todos[rows[row]].completed)
                         else if FirstLabel(labelOrder, labelParent, row) == Some(x) then todos[rows[row]].text
                         else old_x)
      ensures new_x == Expected(t0, x, synced + {row})
    {
      if ButtonLabelRow(x) != Some(row) && FirstLabel(labelOrder, labelParent, row) == Some(x) {
        FirstLabelIsRowLabel(row, x);
      }
    }

    /** Syncing one more row `row` moves every text from `synced` to `synced + {row}`. */
    lemma SyncStep(t0: map<Entity, string>, before: map<Entity, string>, after: map<Entity, string>,
                   synced: set<Entity>, row: Entity)
      requires Live(row) && ReflectsMap(before, t0, synced) && after.Keys == t0.Keys
      requires forall x :: x in after ==>
        after[x] == (if ButtonLabelRow(x) == Some(row) then CompleteMark(todos[rows[row]].completed)
                     else if FirstLabel(labelOrder, labelParent, row) == Some(x) then todos[rows[row]].text
                     else before[x])
      ensures ReflectsMap(after, t0, synced + {row})
    {
      forall x | x in after
        ensures after[x] == Expected(t0, x, synced + {row})
      {
        SyncStepAt(t0, before[x], after[x], x, synced, row);
      }
    }

    /** The rows bound to `t`, when `t` exists. */
    ghost function RowsOf(t: Entity): (r: set<Entity>)
      reads this`rows, this`todos
      ensures forall q :: q in r <==> Live(q) && rows[q] == t
    {
      set q | q in rows && rows[q] == t && t in todos
    }

    /** The changed todos so far, one more: their rows are the old ones and the rows of `t`. */
    lemma SyncedRowsSnoc(done: seq<Entity>, t: Entity)
      ensures SyncedRows(set u | u in done + [t]) == SyncedRows(set u | u in done) + RowsOf(t)
    {
    }

    /**
     * Syncs every row bound to `t`, scanning the row query; from texts that
     * reflect the rows in `base`, it reaches texts that reflect those and the
     * rows of `t`.
     */
    method SyncTodoRows(t: Entity, ghost t0: map<Entity, string>, ghost base: set<Entity>)
      requires Valid() && Reflects(t0, base)
      modifies this`texts
      ensures Valid() && Reflects(t0, base + RowsOf(t))
    {
      var j := 0;
      ghost var synced := base;
      while j < |rowOrder|
        invariant 0 <= j <= |rowOrder|
        invariant Valid() && Reflects(t0, synced)
        invariant forall q :: q in synced <==> q in base || (q in rowOrder[..j] && q in RowsOf(t))
      {
        var r := rowOrder[j];
        assert forall q :: q in rowOrder[..j + 1] <==> q in rowOrder[..j] || q == r;
        if rows[r] == t && t in todos {
          SyncOneMore(r, t0, synced);
          synced := synced + {r};
        }
        j := j + 1;
      }
      assert rowOrder[..j] == rowOrder;
      AllRowsVisited(t, base, synced);
    }

    /** The texts are those expected from `t0` once the rows in `synced` are synced. */
    ghost predicate Reflects(t0: map<Entity, string>, synced: set<Entity>)
      reads this
    {
      ReflectsMap(texts, t0, synced)
    }

    /** `m` holds the texts expected from `t0` once the rows in `synced` are synced. */
    ghost predicate ReflectsMap(m: map<Entity, string>, t0: map<Entity, string>, synced: set<Entity>)
      reads this`todos, this`todoOrder, this`rows, this`rowOrder, this`labelParent, this`labelOrder
      reads this`buttonParent, this`buttonOrder, this`buttonLabelParent, this`buttonLabelOrder
    {
      && Tables() && m.Keys == t0.Keys
      && forall x :: x in m ==> m[x] == Expected(t0, x, synced)
    }

    /** Syncs live row `r`, taking the texts from the rows in `synced` to those and `r`. */
    method SyncOneMore(r: Entity, ghost t0: map<Entity, string>, ghost synced: set<Entity>)
      requires Valid() && Live(r) && Reflects(t0, synced)
      modifies this`texts
      ensures Valid() && Reflects(t0, synced + {r})
    {
      ghost var before := texts;
      SyncRow(r, todos[rows[r]]);
      SyncStep(t0, before, texts, synced, r);
    }

    lemma AllRowsVisited(t: Entity, base: set<Entity>, synced: set<Entity>)
      requires Tables()
      requires forall q :: q in synced <==> q in base || (q in rowOrder && q in RowsOf(t))
      ensures synced == base + RowsOf(t)
    {
    }

    /**
     * The sync system: for each changed todo, in order, every row bound to it
     * is synced. Afterwards each row bound to a changed todo shows that todo,
     * and every text not under such a row is unchanged.
     */
    method SyncRowSystem(changed: seq<Entity>)
      requires Valid()
      modifies this`texts
      ensures texts.Keys == old(texts).Keys
      ensures forall x :: x in texts ==> texts[x] == Expected(old(texts), x, SyncedRows(set t | t in changed))
    {
      var i := 0;
      ghost var synced := {};
      assert SyncedRows(set u | u in changed[..0]) == {};
      while i < |changed|
        invariant 0 <= i <= |changed|
        invariant synced == SyncedRows(set u | u in changed[..i])
        invariant Valid() && Reflects(old(texts), synced)
      {
        SyncTodoRows(changed[i], old(texts), synced);
        SyncedRowsSnoc(changed[..i], changed[i]);
        assert changed[..i + 1] == changed[..i] + [changed[i]];
        synced := synced + RowsOf(changed[i]);
        i := i + 1;
      }
      assert changed[..i] == changed;
    }

    /** Flips the completion flag of todo `t`, found by scanning the todo table. */
    method FlipTodo(t: Entity)
      requires Tables()
      modifies this`todos
      ensures Tables()
      ensures todos == Toggle(old(todos), Some(t))
    {
      var k := 0;
      while k < |todoOrder|
        invariant 0 <= k <= |todoOrder|
        invariant todos == if t in todoOrder[..k] then Toggle(old(todos), Some(t)) else old(todos)
      {
        var e := todoOrder[k];
        assert forall x :: x in todoOrder[..k + 1] <==> x in todoOrder[..k] || x == e;
        if e == t {
          todos := todos[e := todos[e].(completed := !todos[e].completed)];
        }
        k := k + 1;
      }
      assert todoOrder[..k] == todoOrder;
    }

    /**
     * Handles a click on complete button `btn`: scans the rows for the
     * button's parent and, there, the todos for the row's bound todo.
     */
    method ToggleFor(btn: Entity)
      requires Tables() && btn in buttonParent
      modifies this`todos
      ensures Tables()
      ensures todos == Toggle(old(todos), BoundTodo(rows, buttonParent, btn))
    {
      var p := buttonParent[btn];
      var j := 0;
      while j < |rowOrder|
        invariant 0 <= j <= |rowOrder|
        invariant Tables()
        invariant todos == if p in rowOrder[..j] then Toggle(old(todos), Some(rows[p])) else old(todos)
      {
        var r := rowOrder[j];
        assert forall x :: x in rowOrder[..j + 1] <==> x in rowOrder[..j] || x == r;
        if r == p {
          FlipTodo(rows[r]);
        }
        j := j + 1;
      }
      assert rowOrder[..j] == rowOrder;
    }

    /**
     * The click system: every complete button whose interaction changed to
     * `Clicked` flips the todo bound to its row, in query order.
     */
    method OnCompleteTodoClick(clicks: seq<Entity>, interaction: map<Entity, Interaction>)
      requires Tables()
      requires forall b :: b in clicks ==> b in buttonParent && b in interaction
      modifies this`todos
      ensures Tables()
      ensures todos == ToggleEach(old(todos), rows, buttonParent, clicks, interaction)
    {
      var i := 0;
      while i < |clicks|
        invariant 0 <= i <= |clicks|
        invariant Tables()
        invariant todos == ToggleEach(old(todos), rows, buttonParent, clicks[..i], interaction)
      {
        assert clicks[..i + 1][..i] == clicks[..i];
        if interaction[clicks[i]] == Clicked {
          ToggleFor(clicks[i]);
        }
        i := i + 1;
      }
      assert clicks[..i] == clicks;
    }
  }

  // ---------------------------------------------------------------------------
  // Spawning a row

  /** The light text colour of the complete button's caption (named, not defined, in the source). */
  const TextLight: Color := Named("TEXT_LIGHT")

  /** The complete button: a blank three-space caption in the light colour, small padding. */
  function CompleteButtonNode(): TextButtonNode {
    TextButtonNode(TextNode("   ", None, Some(TextLight), None, None, None),
                   None, Some(RectHelpers.All(SpacerXs)), None, None, None, None, None)
  }

  /** The row label: empty until the first sync, large font, a left margin. */
  function RowLabelNode(): TextNode {
    TextNode("", Some(FontLarge), None, None, Some(Left(SpacerLg)), None)
  }

  /** The commands that build complete button `e` with its caption `e + 1`, styled from `colors`. */
  function CompleteButtonCommands(e: Entity, colors: ColorMaterials): seq<Command> {
    var b := CompleteButtonNode();
    [Spawn(e + 1, TextBundleFor(b.caption)),
     Spawn(e, ButtonBundle(BehaviorFor(b, colors).normal)),
     PushChildren(e, [e + 1]),
     Insert(e, Behavior(BehaviorFor(b, colors))),
     Insert(e, Marker(CompleteTodoButtonTag))]
  }

  /** Spawns a complete button (with its caption) and marks it. */
  method SpawnCompleteTodoButton(ctx: NodeContext) returns (e: Entity)
    modifies ctx`next, ctx`cmds
    ensures e == old(ctx.next) && ctx.next == old(ctx.next) + 2
    ensures ctx.cmds == old(ctx.cmds) + CompleteButtonCommands(e, ctx.colors)
  {
    var caption;
    e, caption := ctx.SpawnTextButton(CompleteButtonNode());
    ctx.cmds := ctx.cmds + [Insert(e, Marker(CompleteTodoButtonTag))];
  }

  /** The commands that finish row `e` bound to `todo`: label `e + 3`, then the row itself. */
  function RowPartCommands(e: Entity, colors: ColorMaterials, todo: Entity): seq<Command> {
    [Spawn(e + 3, TextBundleFor(RowLabelNode())),
     Insert(e + 3, Marker(RowLabelTag)),
     Spawn(e, NodeBundle(colors.white, DefaultRect())),
     PushChildren(e, [e + 1, e + 3]),
     Insert(e, TodoRow(todo))]
  }

  /** The commands that build row `e` bound to `todo`: button `e + 1` with caption `e + 2`, label `e + 3`. */
  function RowCommands(e: Entity, colors: ColorMaterials, todo: Entity): seq<Command> {
    CompleteButtonCommands(e + 1, colors) + RowPartCommands(e, colors, todo)
  }

  /**
   * Spawns a row bound to `todo`: a white container whose children are the
   * complete button and then the label.
   */
  method SpawnTodoRow(ctx: NodeContext, todo: Entity) returns (e: Entity)
    modifies ctx`next, ctx`cmds, ctx`assets
    ensures e == old(ctx.next) && ctx.next == old(ctx.next) + 4
    ensures ctx.assets == old(ctx.assets)
    ensures ctx.cmds == old(ctx.cmds) + RowCommands(e, ctx.colors, todo)
  {
    var node := DivNode(BackgroundFrom(ctx.colors.white), None);
    var m;
    e, m := ctx.BeginDiv(node);
    var btn := SpawnCompleteTodoButton(ctx);
    var txt := ctx.SpawnText(RowLabelNode());
    ctx.cmds := ctx.cmds + [Insert(txt, Marker(RowLabelTag))];
    ctx.EndDiv(e, m, node, [btn, txt]);
    ctx.cmds := ctx.cmds + [Insert(e, TodoRow(todo))];
  }

  /** A row's commands bind only the row itself, and only to the given todo. */
  lemma RowBindsItsTodo(e: Entity, colors: ColorMaterials, todo: Entity)
    ensures forall c :: c in RowCommands(e, colors, todo) && c.Insert? && c.component.TodoRow? ==>
      c == Insert(e, TodoRow(todo))
  {
  }

  /**
   * The scene right after row `e` is spawned: its children are the button and
   * the label, in that order; the button is marked and holds the blank
   * caption; the label is marked and empty.
   */
  lemma ApplyRowCommands(s0: Scene, e: Entity, colors: ColorMaterials, todo: Entity)
    requires Bounded(s0, e)
    ensures var s := Apply(s0, RowCommands(e, colors, todo));
      && ChildrenOf(s, e) == [e + 1, e + 3] && ChildrenOf(s, e + 1) == [e + 2]
      && HasTag(s, e + 1, CompleteTodoButtonTag) && HasTag(s, e + 3, RowLabelTag)
      && e + 2 in s.texts && s.texts[e + 2] == "   "
      && e + 3 in s.texts && s.texts[e + 3] == ""
  {
    var a := CompleteButtonCommands(e + 1, colors);
    ApplyConcat(s0, a, RowPartCommands(e, colors, todo));
    ApplyButtonPart(s0, e + 1, colors);
    ApplyRowPart(Apply(s0, a), e, colors, todo);
  }

  /** Building a complete button on fresh entities adds exactly its caption, children and marker. */
  lemma ApplyButtonPart(s0: Scene, e: Entity, colors: ColorMaterials)
    requires e !in s0.children && e !in s0.tags
    ensures var s := Apply(s0, CompleteButtonCommands(e, colors));
      && s.children == s0.children[e := [e + 1]]
      && s.texts == s0.texts[e + 1 := "   "]
      && s.tags == s0.tags[e := {CompleteTodoButtonTag}]
  {
    var n := CompleteButtonNode();
    var a := [Spawn(e + 1, TextBundleFor(n.caption)), Spawn(e, ButtonBundle(BehaviorFor(n, colors).normal)),
              PushChildren(e, [e + 1])];
    var b := [Insert(e, Behavior(BehaviorFor(n, colors))), Insert(e, Marker(CompleteTodoButtonTag))];
    assert CompleteButtonCommands(e, colors) == a + b;
    ApplyConcat(s0, a, b);
    ApplyThree(s0, a[0], a[1], a[2]);
    var t2 := ApplyOne(ApplyOne(s0, a[0]), a[1]);
    ApplyFreshChildren(t2, e, [e + 1]);
    var t3 := ApplyOne(t2, a[2]);
    ApplyTwo(t3, b[0], b[1]);
    ApplyFreshMarker(ApplyOne(t3, b[0]), e, CompleteTodoButtonTag);
  }

  /** Finishing a row on fresh entities adds exactly its label, children and marker. */
  lemma ApplyRowPart(s1: Scene, e: Entity, colors: ColorMaterials, todo: Entity)
    requires e !in s1.children && e + 3 !in s1.tags
    ensures var s := Apply(s1, RowPartCommands(e, colors, todo));
      && s.children == s1.children[e := [e + 1, e + 3]]
      && s.texts == s1.texts[e + 3 := ""]
      && s.tags == s1.tags[e + 3 := {RowLabelTag}]
  {
    var a := [Spawn(e + 3, TextBundleFor(RowLabelNode())), Insert(e + 3, Marker(RowLabelTag)),
              Spawn(e, NodeBundle(colors.white, DefaultRect()))];
    var b := [PushChildren(e, [e + 1, e + 3]), Insert(e, TodoRow(todo))];
    assert RowPartCommands(e, colors, todo) == a + b;
    ApplyConcat(s1, a, b);
    ApplyThree(s1, a[0], a[1], a[2]);
    var t1 := ApplyOne(s1, a[0]);
    ApplyFreshMarker(t1, e + 3, RowLabelTag);
    var t3 := ApplyOne(ApplyOne(t1, a[1]), a[2]);
    ApplyTwo(t3, b[0], b[1]);
    ApplyFreshChildren(t3, e, [e + 1, e + 3]);
  }
}
