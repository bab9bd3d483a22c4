/**
 * The todo body: the part of the page under the input that holds the
 * footer. It is spawned under the todo container when the first todo is
 * added; a flag remembers that todos exist, so later additions spawn
 * nothing, and is cleared when no todo is left.
 */
module TodoBody {
  import opened Ecs
  import opened CommonNodes
  import opened RectHelpers
  import opened Scene
  import opened TodoFooter

  /** The commands that build body `e` (material `m`): the footer `e + 1`, then the body itself. */
  function BodyCommands(e: Entity, m: Material): seq<Command> {
    FooterCommands(e + 1, m + 1) + [Spawn(e, NodeBundle(m, DefaultRect())), PushChildren(e, [e + 1])]
  }

  /** Spawns the body: a default container whose only child is the footer. */
  method SpawnTodoBody(ctx: NodeContext) returns (e: Entity)
    modifies ctx`next, ctx`cmds, ctx`assets
    ensures e == old(ctx.next) && ctx.next == old(ctx.next) + 12
    ensures ctx.assets == old(ctx.assets) + [DefaultColor] + FooterColors
    ensures ctx.cmds == old(ctx.cmds) + BodyCommands(e, |old(ctx.assets)|)
  {
    var node := DivNode(DefaultBackground(), None);
    var m;
    e, m := ctx.BeginDiv(node);
    var footer := SpawnTodoFooter(ctx);
    ctx.EndDiv(e, m, node, [footer]);
  }

  /** A footer's commands only build on the footer and newer entities. */
  lemma FooterWithin(e: Entity, m: Material)
    ensures Within(FooterCommands(e, m), e)
  {
  }

  /**
   * In the scene, the body has exactly one child, the footer, and the
   * footer's children are the count label, the tab row and the clear button.
   */
  lemma BodyHoldsOnlyFooter(s0: Scene, e: Entity, m: Material)
    requires Bounded(s0, e)
    ensures var s := Apply(s0, BodyCommands(e, m));
      && ChildrenOf(s, e) == [e + 1]
      && ChildrenOf(s, e + 1) == [e + 2, e + 3, e + 10]
  {
    var f := FooterCommands(e + 1, m + 1);
    var tail := [Spawn(e, NodeBundle(m, DefaultRect())), PushChildren(e, [e + 1])];
    ApplyConcat(s0, f, tail);
    FooterChildren(s0, e + 1, m + 1);
    FooterWithin(e + 1, m + 1);
    ApplyWithinKeeps(s0, f, e + 1, e);
    var s1 := Apply(s0, f);
    var t1 := ApplyOne(s1, tail[0]);
    ApplyFreshChildren(t1, e, [e + 1]);
    ApplyCons(s1, tail[0], tail[1..]);
    ApplyCons(t1, tail[1], []);
    assert tail[1..] == [tail[1]] + [];
  }

  /** Whether this pass spawns a body: no todos were known, one was added, and a container exists. */
  predicate SpawnsBody(prior: bool, added: seq<Entity>, containers: seq<Entity>) {
    !prior && |added| > 0 && |containers| > 0
  }

  /** The flag after a pass: todos were known or added, and some todo is left. */
  predicate NextPrior(prior: bool, added: seq<Entity>, todos: seq<Entity>) {
    (prior || |added| > 0) && |todos| > 0
  }

  /** The commands of one pass when it spawns: the body, attached under the first container. */
  function SpawnBodyCommands(e: Entity, m: Material, container: Entity): seq<Command> {
    BodyCommands(e, m) + [PushChildren(container, [e])]
  }

  /** Whether todos exist: the flag the system keeps. */
  class PriorTodos {
    var prior: bool

    constructor(prior: bool)
      ensures this.prior == prior
    {
      this.prior := prior;
    }
  }

  /**
   * The body system. For each added todo, while the flag is down, it raises
   * the flag and spawns a body under the first container, if there is one.
   * Then, if the flag is up and no todo is left, it lowers the flag (the
   * body stays where it is).
   */
  method OnTodoAdded(state: PriorTodos, ctx: NodeContext, added: seq<Entity>, todos: seq<Entity>, containers: seq<Entity>)
    modifies state, ctx`next, ctx`cmds, ctx`assets
    ensures state.prior == NextPrior(old(state.prior), added, todos)
    ensures SpawnsBody(old(state.prior), added, containers) ==>
      && ctx.cmds == old(ctx.cmds) + SpawnBodyCommands(old(ctx.next), |old(ctx.assets)|, containers[0])
      && ctx.next == old(ctx.next) + 12
      && ctx.assets == old(ctx.assets) + [DefaultColor] + FooterColors
    ensures !SpawnsBody(old(state.prior), added, containers) ==>
      ctx.cmds == old(ctx.cmds) && ctx.next == old(ctx.next) && ctx.assets == old(ctx.assets)
  {
    var i := 0;
    while i < |added|
      invariant 0 <= i <= |added|
      invariant state.prior == (old(state.prior) || i > 0)
      invariant SpawnsBody(old(state.prior), added[..i], containers) ==>
        && ctx.cmds == old(ctx.cmds) + SpawnBodyCommands(old(ctx.next), |old(ctx.assets)|, containers[0])
        && ctx.next == old(ctx.next) + 12
        && ctx.assets == old(ctx.assets) + [DefaultColor] + FooterColors
      invariant !SpawnsBody(old(state.prior), added[..i], containers) ==>
        ctx.cmds == old(ctx.cmds) && ctx.next == old(ctx.next) && ctx.assets == old(ctx.assets)
    {
      if !state.prior {
        state.prior := true;
        // the first container found gets the body, and the search stops
        var j := 0;
        var placed := false;
        while j < |containers| && !placed
          invariant 0 <= j <= |containers| && placed == (j > 0) && state.prior
          invariant placed ==>
            && ctx.cmds == old(ctx.cmds) + SpawnBodyCommands(old(ctx.next), |old(ctx.assets)|, containers[0])
            && ctx.next == old(ctx.next) + 12
            && ctx.assets == old(ctx.assets) + [DefaultColor] + FooterColors
          invariant !placed ==> ctx.cmds == old(ctx.cmds) && ctx.next == old(ctx.next) && ctx.assets == old(ctx.assets)
          decreases |containers| - j
        {
          var e := SpawnTodoBody(ctx);
          ctx.cmds := ctx.cmds + [PushChildren(containers[j], [e])];
          placed := true;
          j := j + 1;
        }
      }
      i := i + 1;
    }
    assert added[..i] == added;
    if state.prior {
      // any todo left? the search stops at the first one
      var any := false;
      var k := 0;
      while k < |todos| && !any
        invariant 0 <= k <= |todos| && any == (k > 0)
        decreases |todos| - k
      {
        any := true;
        k := k + 1;
      }
      if !any {
        state.prior := false;
      }
    }
  }

  /** Once a body was spawned and todos remain, the next pass spawns none, whatever is added. */
  lemma NoSecondBody(prior: bool, added1: seq<Entity>, todos1: seq<Entity>, containers1: seq<Entity>,
                     added2: seq<Entity>, containers2: seq<Entity>)
    requires SpawnsBody(prior, added1, containers1) && |todos1| > 0
    ensures !SpawnsBody(NextPrior(prior, added1, todos1), added2, containers2)
  {
  }

  /** The flag is raised by an addition even when there is no container, and then nothing is spawned. */
  lemma FlagWithoutContainer(prior: bool, added: seq<Entity>, todos: seq<Entity>)
    requires |added| > 0 && |todos| > 0
    ensures NextPrior(prior, added, todos)
    ensures !SpawnsBody(prior, added, [])
  {
  }

  /**
   * When the last todo is gone the flag drops, and the next addition (with
   * a container) spawns another body: the first one was never despawned,
   * as no pass emits a despawn.
   */
  lemma EmptyingAllowsNewBody(prior: bool, added1: seq<Entity>, added2: seq<Entity>, containers: seq<Entity>)
    requires |added2| > 0 && |containers| > 0
    ensures !NextPrior(prior, added1, [])
    ensures SpawnsBody(NextPrior(prior, added1, []), added2, containers)
  {
  }

  /** A pass never despawns anything: the body, once spawned, stays. */
  lemma PassNeverDespawns(e: Entity, m: Material, container: Entity)
    ensures forall c :: c in SpawnBodyCommands(e, m, container) ==> !c.DespawnRecursive?
  {
    FooterWithin(e + 1, m + 1);
  }

  /** Under the container, the pass appends the body as the last child and changes nothing else there. */
  lemma BodyAppendedToContainer(s0: Scene, e: Entity, m: Material, container: Entity)
    requires Bounded(s0, e) && container < e
    ensures var s := Apply(s0, SpawnBodyCommands(e, m, container));
      ChildrenOf(s, container) == ChildrenOf(s0, container) + [e]
  {
    var b := BodyCommands(e, m);
    FooterWithin(e + 1, m + 1);
    assert Within(b, e);
    ApplyConcat(s0, b, [PushChildren(container, [e])]);
    ApplyWithinKeeps(s0, b, e, container);
  }
}
