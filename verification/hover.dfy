/** The hover test `isMouseLeaveOrEnter`: did the pointer really leave or enter the
    element a handler is bound to, or only move between it and its descendants?

    Nodes are numbered in document order, so a node's parent has a smaller number
    than the node; `parent` holds the `parentNode` of every node that has one. */
module Hover {
  import opened Types

  type Node = nat

  /** A parent map of a document tree: parents precede their children. */
  predicate IsTree(parent: map<Node, Node>) {
    forall n :: n in parent ==> parent[n] < n
  }

  /** A pointer event: its type and the three candidate related targets. */
  datatype MouseEvent = MouseEvent(kind: string, relatedTarget: Option<Node>, toElement: Option<Node>, fromElement: Option<Node>)

  /** `n` is `handler` or one of its descendants. The parent walk only climbs, so
      nothing numbered below the handler is within its subtree. */
  predicate Within(parent: map<Node, Node>, handler: Node, n: Node)
    requires IsTree(parent)
    ensures n == handler ==> Within(parent, handler, n)
    ensures Within(parent, handler, n) ==> handler <= n
    decreases n
  {
    n == handler || (n in parent && Within(parent, handler, parent[n]))
  }

  /** The related target the source reads: `relatedTarget`, else `toElement` for
      `mouseout` and `fromElement` otherwise. */
  function Related(e: MouseEvent): (r: Option<Node>)
    ensures r == e.relatedTarget || r == e.toElement || r == e.fromElement
    ensures e.relatedTarget.Some? ==> r == e.relatedTarget
    ensures e.relatedTarget.None? && e.kind == "mouseout" ==> r == e.toElement
    ensures e.relatedTarget.None? && e.kind != "mouseout" ==> r == e.fromElement
  {
    if e.relatedTarget.Some? then e.relatedTarget
    else if e.kind == "mouseout" then e.toElement
    else e.fromElement
  }

  /** Walks up from the related target until it reaches the handler or runs out of
      parents; true exactly for a `mouseover`/`mouseout` whose related target is absent
      or lies outside the handler's subtree. */
  method IsMouseLeaveOrEnter(e: MouseEvent, handler: Node, parent: map<Node, Node>) returns (r: bool)
    requires IsTree(parent)
    ensures r <==> (e.kind == "mouseout" || e.kind == "mouseover")
                   && (Related(e).None? || !Within(parent, handler, Related(e).value))
  {
    if e.kind != "mouseout" && e.kind != "mouseover" {
      return false;
    }
    var reltg := Related(e);
    while reltg.Some? && reltg.value != handler
      invariant reltg.Some? ==> (Within(parent, handler, reltg.value) <==> Within(parent, handler, Related(e).value))
      invariant reltg.None? ==> Related(e).None? || !Within(parent, handler, Related(e).value)
      decreases if reltg.Some? then reltg.value + 1 else 0
    {
      reltg := if reltg.value in parent then Some(parent[reltg.value]) else None;
    }
    return reltg != Some(handler);
  }

  /** The handler's subtree is closed under taking children. */
  lemma ChildWithin(parent: map<Node, Node>, handler: Node, n: Node)
    requires IsTree(parent)
    requires n in parent && Within(parent, handler, parent[n])
    ensures Within(parent, handler, n)
  {
  }

  /** Being within is transitive: a descendant of a descendant is a descendant. */
  lemma {:induction false} WithinTransitive(parent: map<Node, Node>, a: Node, b: Node, c: Node)
    requires IsTree(parent)
    requires Within(parent, a, b) && Within(parent, b, c)
    ensures Within(parent, a, c)
    decreases c
  {
    if c != b {
      WithinTransitive(parent, a, b, parent[c]);
    }
  }
}
