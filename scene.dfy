/**
 * The part of the engine's scene that the placeholder/add-button swap edits,
 * and what applying a command buffer does to it: child lists, text values
 * and marker components. Components the swap never reads (materials, rows,
 * behaviours) pass through untouched.
 */
module Scene {
  import opened Ecs
  import opened CommonNodes

  datatype Scene = Scene(
    children: map<Entity, seq<Entity>>,
    texts: map<Entity, string>,
    tags: map<Entity, set<Tag>>)

  function ChildrenOf(s: Scene, e: Entity): seq<Entity> {
    if e in s.children then s.children[e] else []
  }

  function TagsOf(s: Scene, e: Entity): set<Tag> {
    if e in s.tags then s.tags[e] else {}
  }

  predicate HasTag(s: Scene, e: Entity, t: Tag) {
    t in TagsOf(s, e)
  }

  /** Every entity the scene mentions is below `next`, so ids from `next` on are fresh. */
  ghost predicate Bounded(s: Scene, next: Entity) {
    && (forall p :: p in s.children ==> p < next)
    && (forall p, x :: p in s.children && x in s.children[p] ==> x < next)
    && (forall x :: x in s.texts ==> x < next)
    && (forall x :: x in s.tags ==> x < next)
  }

  /** `e` and everything reachable from it through child lists, at most `fuel` levels down. */
  function Subtree(s: Scene, e: Entity, fuel: nat): (r: set<Entity>)
    ensures e in r
    decreases fuel, 1
  {
    {e} + (if fuel == 0 then {} else SubtreesOf(s, ChildrenOf(s, e), fuel - 1))
  }

  function SubtreesOf(s: Scene, es: seq<Entity>, fuel: nat): (r: set<Entity>)
    ensures forall x :: x in es ==> x in r
    decreases fuel, 2, |es|
  {
    if es == [] then {} else Subtree(s, es[0], fuel) + SubtreesOf(s, es[1..], fuel)
  }

  /** What a recursive despawn of `e` removes: `e` and its descendants. */
  function Descendants(s: Scene, e: Entity): (r: set<Entity>)
    ensures e in r
  {
    Subtree(s, e, |s.children|)
  }

  /** `xs` without the elements of `gone`, order kept. */
  function Without(xs: seq<Entity>, gone: set<Entity>): (r: seq<Entity>)
    ensures forall x :: x in r <==> x in xs && x !in gone
    ensures |r| <= |xs|
  {
    if xs == [] then []
    else if xs[0] in gone then Without(xs[1..], gone)
    else [xs[0]] + Without(xs[1..], gone)
  }

  /** A recursive despawn: the subtree leaves every table and every child list. */
  function Despawn(s: Scene, e: Entity): (r: Scene)
    ensures forall p :: p in r.children <==> p in s.children && p !in Descendants(s, e)
    ensures forall p :: p in r.children ==> r.children[p] == Without(s.children[p], Descendants(s, e))
    ensures forall x :: x in r.texts <==> x in s.texts && x !in Descendants(s, e)
    ensures forall x :: x in r.texts ==> r.texts[x] == s.texts[x]
    ensures forall x :: x in r.tags <==> x in s.tags && x !in Descendants(s, e)
    ensures forall x :: x in r.tags ==> r.tags[x] == s.tags[x]
  {
    var gone := Descendants(s, e);
    Scene(
      map p | p in s.children && p !in gone :: Without(s.children[p], gone),
      map x | x in s.texts && x !in gone :: s.texts[x],
      map x | x in s.tags && x !in gone :: s.tags[x])
  }

  /** The effect of one command on the scene. */
  function ApplyOne(s: Scene, c: Command): Scene {
    match c
    case Spawn(e, b) =>
      if b.TextBundle? then s.(texts := s.texts[e := b.value]) else s
    case Insert(e, comp) =>
      if comp.Marker? then s.(tags := s.tags[e := TagsOf(s, e) + {comp.tag}]) else s
    case PushChildren(p, cs) =>
      s.(children := s.children[p := ChildrenOf(s, p) + cs])
    case DespawnRecursive(e) =>
      Despawn(s, e)
  }

  /** Applying a command buffer: its commands in order. */
  function Apply(s: Scene, cmds: seq<Command>): Scene
    decreases |cmds|
  {
    if cmds == [] then s else Apply(ApplyOne(s, cmds[0]), cmds[1..])
  }

  lemma {:induction false} ApplyConcat(s: Scene, a: seq<Command>, b: seq<Command>)
    ensures Apply(s, a + b) == Apply(Apply(s, a), b)
    decreases |a|
  {
    if a == [] {
      assert a + b == b;
    } else {
      assert (a + b)[0] == a[0];
      assert (a + b)[1..] == a[1..] + b;
      ApplyConcat(ApplyOne(s, a[0]), a[1..], b);
    }
  }

  /** `t` is `s` with things removed: no table or child list gained an entry. */
  ghost predicate Shrunk(s: Scene, t: Scene) {
    && (forall p :: p in t.children ==> p in s.children && forall x :: x in t.children[p] ==> x in s.children[p])
    && (forall x :: x in t.texts ==> x in s.texts && t.texts[x] == s.texts[x])
    && (forall x :: x in t.tags ==> x in s.tags && t.tags[x] == s.tags[x])
  }

  /** `x` is nowhere in the scene: no table entry and in no child list. */
  ghost predicate Absent(s: Scene, x: Entity) {
    && x !in s.children && x !in s.texts && x !in s.tags
    && forall p :: p in s.children ==> x !in s.children[p]
  }

  /** Appending children below `next` to a parent below `next` keeps the scene below `next`. */
  lemma PushBounded(s: Scene, p: Entity, cs: seq<Entity>, next: Entity)
    requires Bounded(s, next) && p < next && forall x :: x in cs ==> x < next
    ensures Bounded(ApplyOne(s, PushChildren(p, cs)), next)
  {
  }

  lemma ShrunkBounded(s: Scene, t: Scene, next: Entity)
    requires Shrunk(s, t) && Bounded(s, next)
    ensures Bounded(t, next)
  {
  }

  /**
   * Applying a buffer of recursive despawns only removes things, and every
   * despawned entity is gone afterwards.
   */
  lemma {:induction false} ApplyDespawns(s: Scene, cmds: seq<Command>)
    requires forall c :: c in cmds ==> c.DespawnRecursive?
    ensures Shrunk(s, Apply(s, cmds))
    ensures forall c :: c in cmds ==> Absent(Apply(s, cmds), c.entity)
    decreases |cmds|
  {
    if cmds != [] {
      var s1 := Despawn(s, cmds[0].entity);
      assert ApplyOne(s, cmds[0]) == s1;
      assert forall c :: c in cmds[1..] ==> c in cmds;
      ApplyDespawns(s1, cmds[1..]);
      var r := Apply(s, cmds);
      assert r == Apply(s1, cmds[1..]);
      assert Absent(s1, cmds[0].entity);
      forall c | c in cmds
        ensures Absent(r, c.entity)
      {
        if c != cmds[0] {
          assert c in cmds[1..];
        }
      }
    }
  }

  lemma ApplySingle(s: Scene, c: Command)
    ensures Apply(s, [c]) == ApplyOne(s, c)
  {
  }

  /** An entity without a child list is its own whole subtree. */
  lemma LeafDescendants(s: Scene, x: Entity)
    requires x !in s.children
    ensures Descendants(s, x) == {x}
  {
    var fuel := |s.children|;
    assert ChildrenOf(s, x) == [];
    if fuel > 0 {
      assert SubtreesOf(s, [], fuel - 1) == {};
    }
    assert Subtree(s, x, fuel) == {x};
  }

  /** An entity whose children have no child lists: its subtree is it and them. */
  lemma ParentOfLeavesDescendants(s: Scene, x: Entity, kid: Entity)
    requires x in s.children && s.children[x] == [kid] && kid !in s.children
    ensures Descendants(s, x) == {x, kid}
  {
    var fuel := |s.children|;
    assert fuel >= 1;
    assert ChildrenOf(s, x) == [kid];
    assert ChildrenOf(s, kid) == [];
    assert SubtreesOf(s, [], fuel - 1) == {};
    if fuel - 1 > 0 {
      assert SubtreesOf(s, [], fuel - 2) == {};
    }
    assert Subtree(s, kid, fuel - 1) == {kid};
    assert [kid][1..] == [];
    assert SubtreesOf(s, [kid], fuel - 1) == {kid};
    assert Subtree(s, x, fuel) == {x, kid};
  }

  /**
   * Despawning entities that have no child lists leaves any other entity that
   * has a child list in place, with its markers.
   */
  lemma {:induction false} ApplyLeafDespawns(s: Scene, cmds: seq<Command>, keep: Entity)
    requires forall c :: c in cmds ==> c.DespawnRecursive? && c.entity !in s.children
    requires keep in s.children
    ensures keep in Apply(s, cmds).children
    ensures TagsOf(Apply(s, cmds), keep) == TagsOf(s, keep)
    decreases |cmds|
  {
    if cmds != [] {
      var x := cmds[0].entity;
      LeafDescendants(s, x);
      var s1 := Despawn(s, x);
      assert ApplyOne(s, cmds[0]) == s1;
      assert forall c :: c in cmds[1..] ==> c in cmds;
      ApplyLeafDespawns(s1, cmds[1..], keep);
    }
  }

  lemma ApplyCons(s: Scene, c: Command, rest: seq<Command>)
    ensures Apply(s, [c] + rest) == Apply(ApplyOne(s, c), rest)
  {
    assert ([c] + rest)[0] == c;
    assert ([c] + rest)[1..] == rest;
  }

  /** A buffer of two commands applies them one after the other. */
  lemma ApplyTwo(s: Scene, a: Command, b: Command)
    ensures Apply(s, [a, b]) == ApplyOne(ApplyOne(s, a), b)
  {
    assert [a, b][1..] == [b];
    var t := ApplyOne(s, a);
    assert Apply(ApplyOne(t, b), []) == ApplyOne(t, b);
    assert Apply(t, [b]) == ApplyOne(t, b);
  }

  /** A buffer of three commands applies them one after another. */
  lemma ApplyThree(s: Scene, a: Command, b: Command, c: Command)
    ensures Apply(s, [a, b, c]) == ApplyOne(ApplyOne(ApplyOne(s, a), b), c)
  {
    assert [a, b, c][1..] == [b, c];
    ApplyTwo(ApplyOne(s, a), b, c);
  }

  /** Marking an entity that has no markers yet gives it exactly that marker. */
  lemma ApplyFreshMarker(s: Scene, e: Entity, t: Tag)
    requires e !in s.tags
    ensures ApplyOne(s, Insert(e, Marker(t))) == s.(tags := s.tags[e := {t}])
  {
    assert TagsOf(s, e) + {t} == {t};
  }

  /** Attaching children to an entity without a child list gives it exactly those children. */
  lemma ApplyFreshChildren(s: Scene, p: Entity, cs: seq<Entity>)
    requires p !in s.children
    ensures ApplyOne(s, PushChildren(p, cs)) == s.(children := s.children[p := cs])
  {
    assert ChildrenOf(s, p) + cs == cs;
  }

  /** The entity a command acts on: the spawned, extended or despawned one, or the parent. */
  function Target(c: Command): Entity {
    match c
    case Spawn(e, _) => e
    case Insert(e, _) => e
    case PushChildren(p, _) => p
    case DespawnRecursive(e) => e
  }

  /** A buffer that only builds, and only on entities from `lo` on. */
  ghost predicate Within(cmds: seq<Command>, lo: Entity) {
    forall c :: c in cmds ==> !c.DespawnRecursive? && Target(c) >= lo
  }

  /** A buffer that builds only on entities from `lo` on leaves the child list of an older entity alone. */
  lemma {:induction false} ApplyWithinKeeps(s: Scene, cmds: seq<Command>, lo: Entity, p: Entity)
    requires Within(cmds, lo) && p < lo
    ensures p in Apply(s, cmds).children <==> p in s.children
    ensures ChildrenOf(Apply(s, cmds), p) == ChildrenOf(s, p)
    decreases |cmds|
  {
    if cmds != [] {
      assert cmds[0] in cmds;
      assert forall c :: c in cmds[1..] ==> c in cmds;
      ApplyWithinKeeps(ApplyOne(s, cmds[0]), cmds[1..], lo, p);
    }
  }
}
