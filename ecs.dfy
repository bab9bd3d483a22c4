/**
 * The slice of the host entity/component engine that the todo-list systems
 * rely on: entity handles, the pointer interaction state of a node, opaque
 * material handles, and the cursor of an event reader.
 */
module Ecs {

  /** An optional value (Rust's `Option`). */
  datatype Option<+T> = None | Some(value: T) {
    function GetOr(default: T): T {
      match this
      case Some(v) => v
      case None => default
    }

    /** Rust's `Option::or`: keep this value if present, otherwise take `other`. */
    function Or(other: Option<T>): Option<T> {
      if Some? then this else other
    }
  }

  /** Entity handles are opaque; naturals are enough to tell them apart. */
  type Entity = nat

  /** A handle to a colour material held by the engine's asset store. */
  type Material = nat

  /**
   * The engine's per-node pointer state. `Idle` is the engine's
   * `Interaction::None`, which is also the component's default value.
   */
  datatype Interaction = Clicked | Hovered | Idle

  function DefaultInteraction(): (i: Interaction)
    ensures i == Idle
  {
    Idle
  }

  /** No entity occurs twice (query results and child lists have this shape). */
  predicate Distinct<T(==)>(s: seq<T>) {
    forall i, j :: 0 <= i < j < |s| ==> s[i] != s[j]
  }

  /** The head of a non-empty sequence is one of its members. */
  lemma HeadIn<T>(xs: seq<T>)
    ensures |xs| > 0 ==> xs[0] in xs
  {
  }

  /** A sequence without members is empty. */
  lemma NoMemberEmpty<T>(xs: seq<T>)
    requires forall x :: x !in xs
    ensures xs == []
  {
    if xs != [] {
      HeadIn(xs);
      assert false;
    }
  }

  /** Appending a new element keeps a sequence free of repeats. */
  lemma DistinctSnoc<T>(s: seq<T>, x: T)
    requires Distinct(s) && x !in s
    ensures Distinct(s + [x])
  {
    var t := s + [x];
    forall i, j | 0 <= i < j < |t|
      ensures t[i] != t[j]
    {
      if j == |s| {
        assert t[i] == s[i];
      } else {
        assert t[i] == s[i] && t[j] == s[j];
      }
    }
  }

  /** The elements of `s` that lie in `keep`, in their original order. */
  function Select(s: seq<Entity>, keep: set<Entity>): (r: seq<Entity>)
    ensures forall x :: x in r <==> x in s && x in keep
    ensures |r| <= |s|
    ensures Distinct(s) ==> Distinct(r)
  {
    if s == [] then []
    else if s[0] in keep then [s[0]] + Select(s[1..], keep)
    else Select(s[1..], keep)
  }

  lemma SelectSnoc(s: seq<Entity>, x: Entity, keep: set<Entity>)
    ensures Select(s + [x], keep) == Select(s, keep) + (if x in keep then [x] else [])
  {
    if s != [] {
      assert (s + [x])[1..] == s[1..] + [x];
      SelectSnoc(s[1..], x, keep);
    }
  }

  /**
   * The cursor an event reader keeps into one event queue. The queue itself is
   * a log that only grows during a frame; reading hands out every event past
   * the cursor and moves the cursor to the end, so no event is read twice.
   */
  class EventReader {
    var cursor: nat

    constructor ()
      ensures cursor == 0
    {
      cursor := 0;
    }

    method Read<E>(queue: seq<E>) returns (unread: seq<E>)
      requires cursor <= |queue|
      modifies this
      ensures unread == queue[old(cursor)..]
      ensures cursor == |queue|
    {
      unread := queue[cursor..];
      cursor := |queue|;
    }
  }

  /** Reading the same queue twice: the second read hands out nothing. */
  method ReadTwice<E>(r: EventReader, queue: seq<E>) returns (first: seq<E>, second: seq<E>)
    requires r.cursor <= |queue|
    modifies r
    ensures first == queue[old(r.cursor)..]
    ensures second == []
    ensures r.cursor == |queue|
  {
    first := r.Read(queue);
    second := r.Read(queue);
  }

  /** Appending to a queue or buffer is associative. */
  lemma AppendAssoc<T>(a: seq<T>, b: seq<T>, c: seq<T>)
    ensures a + b + c == a + (b + c)
  {
  }
}
