/**
 * The predicate objects a validation-results builder creates, laid out in an
 * arena: node `i` of a `seq<Node<L>>` is the i-th `UnaryAnd`, `UnaryOr` or
 * `UnaryNot` object the builder allocated, and a child reference `Sub(i)`
 * points at it. Leaf constraints are opaque values of type `L` that sit
 * directly in child lists, since the builder never allocates or pushes them.
 */
module PredicateTree {
  import opened Wrappers

  type NodeId = nat

  /** An entry of a compound predicate's child list. */
  datatype Child<L> = Sub(id: NodeId) | Constraint(constraint: L)

  /** A compound predicate object: a conjunction, a disjunction or a negation. */
  datatype Node<L> =
    | And(children: seq<Child<L>>)
    | Or(children: seq<Child<L>>)
    | Not(operand: Option<Child<L>>)

  /** The children of a node; a negation has at most one. */
  function Kids<L>(n: Node<L>): seq<Child<L>>
  {
    match n
    case And(cs) => cs
    case Or(cs) => cs
    case Not(p) => if p.Some? then [p.value] else []
  }

  predicate IsSub<L>(c: Child<L>, id: NodeId)
  {
    c.Sub? && c.id == id
  }

  /** Does the child list refer to node `id`? */
  predicate HasSub<L>(cs: seq<Child<L>>, id: NodeId)
  {
    exists k :: 0 <= k < |cs| && IsSub(cs[k], id)
  }

  /** No node is referred to twice in one child list. */
  ghost predicate SubsDistinct<L>(cs: seq<Child<L>>)
  {
    forall i, j :: 0 <= i < j < |cs| && cs[i].Sub? && cs[j].Sub? ==> cs[i].id != cs[j].id
  }

  /**
   * The attach step of `add` and `push(constraint)`: a negation takes the new
   * child as its single predicate, replacing any earlier one; a conjunction or
   * disjunction appends it after its existing children.
   */
  function Attach<L>(parent: Node<L>, c: Child<L>): (r: Node<L>)
    ensures r.Not? == parent.Not? && r.And? == parent.And? && r.Or? == parent.Or?
    ensures parent.Not? ==> Kids(r) == [c]
    ensures !parent.Not? ==> Kids(r) == Kids(parent) + [c]
  {
    match parent
    case Not(_) => Not(Some(c))
    case And(cs) => And(cs + [c])
    case Or(cs) => Or(cs + [c])
  }

  /** The position of the first reference to node `id`, or -1 when there is none. */
  function SubIndex<L>(cs: seq<Child<L>>, id: NodeId): (k: int)
    ensures -1 <= k < |cs|
    ensures k == -1 <==> !HasSub(cs, id)
    ensures k >= 0 ==> IsSub(cs[k], id) && forall j :: 0 <= j < k ==> !IsSub(cs[j], id)
  {
    if cs == [] then -1
    else if IsSub(cs[0], id) then 0
    else
      var k := SubIndex(cs[1..], id);
      assert forall j :: 1 <= j < |cs| ==> cs[j] == cs[1..][j - 1];
      if k == -1 then -1 else k + 1
  }

  /**
   * `remove(p)` on a compound predicate's child list, under the assumption
   * that the predicate classes keep `Object.equals`, so that `remove` finds
   * this very node: the first reference to node `id` is dropped and the
   * order of the others is kept.
   */
  function RemoveFirst<L>(cs: seq<Child<L>>, id: NodeId): (r: seq<Child<L>>)
    ensures SubIndex(cs, id) == -1 ==> r == cs
    ensures SubIndex(cs, id) != -1 ==> |r| == |cs| - 1
    ensures forall j :: 0 <= j < SubIndex(cs, id) ==> r[j] == cs[j]
    ensures forall j :: 0 <= SubIndex(cs, id) <= j < |r| ==> r[j] == cs[j + 1]
  {
    if cs == [] then []
    else if IsSub(cs[0], id) then cs[1..]
    else
      var rest := RemoveFirst(cs[1..], id);
      var k := SubIndex(cs, id);
      assert k != -1 ==> k == SubIndex(cs[1..], id) + 1;
      [cs[0]] + rest
  }

  /** `CompoundUnaryPredicate.remove` on a conjunction or a disjunction. */
  function Excise<L>(parent: Node<L>, id: NodeId): (r: Node<L>)
    requires !parent.Not?
    ensures r.And? == parent.And? && r.Or? == parent.Or?
    ensures Kids(r) == RemoveFirst(Kids(parent), id)
  {
    match parent
    case And(cs) => And(RemoveFirst(cs, id))
    case Or(cs) => Or(RemoveFirst(cs, id))
  }

  /** Removing a reference keeps only entries that were already in the list. */
  lemma RemoveFirstKeepsOnlyExisting<L>(cs: seq<Child<L>>, id: NodeId)
    ensures forall j :: 0 <= j < |RemoveFirst(cs, id)| ==> RemoveFirst(cs, id)[j] in cs
  {
    var k := SubIndex(cs, id);
    var r := RemoveFirst(cs, id);
    forall j | 0 <= j < |r| ensures r[j] in cs {
      if k == -1 || j < k {
        assert r[j] == cs[j];
      } else {
        assert r[j] == cs[j + 1];
      }
    }
  }

  /** Once a list holds node `id` at most once, removing it leaves no reference to it. */
  lemma ExciseRemovesEveryReference<L>(cs: seq<Child<L>>, id: NodeId)
    requires SubsDistinct(cs)
    ensures !HasSub(RemoveFirst(cs, id), id)
    ensures SubsDistinct(RemoveFirst(cs, id))
  {
    var k := SubIndex(cs, id);
    var r := RemoveFirst(cs, id);
    if k >= 0 {
      forall j | 0 <= j < |r|
        ensures !IsSub(r[j], id)
      {
        if j < k {
          assert r[j] == cs[j];
        } else {
          assert r[j] == cs[j + 1];
        }
      }
      forall i, j | 0 <= i < j < |r| && r[i].Sub? && r[j].Sub?
        ensures r[i].id != r[j].id
      {
        var i', j' := if i < k then i else i + 1, if j < k then j else j + 1;
        assert r[i] == cs[i'] && r[j] == cs[j'] && i' < j';
      }
    }
  }

  /**
   * Attaching a fresh node to a conjunction or disjunction and then excising
   * it gives back the node as it was: the net effect of a sub-rule whose pop
   * reported `true`.
   */
  lemma {:induction false} ExciseUndoesAttach<L>(parent: Node<L>, id: NodeId)
    requires !parent.Not? && !HasSub(Kids(parent), id)
    ensures Excise(Attach(parent, Sub(id)), id) == parent
  {
    var cs := Kids(parent);
    var k := SubIndex(cs + [Sub(id)], id);
    assert k == |cs| by {
      assert IsSub((cs + [Sub(id)])[|cs|], id);
      forall j | 0 <= j < |cs| ensures !IsSub((cs + [Sub(id)])[j], id) {
        assert (cs + [Sub(id)])[j] == cs[j];
      }
    }
    var r := RemoveFirst(cs + [Sub(id)], id);
    assert r == cs by {
      forall j | 0 <= j < |r| ensures r[j] == cs[j] {
        assert r[j] == (cs + [Sub(id)])[j];
      }
    }
  }

  /** The evaluated shape of a predicate object, as the results' consumer sees it. */
  datatype Predicate<L> =
    | AndOf(parts: seq<Predicate<L>>)
    | OrOf(parts: seq<Predicate<L>>)
    | NotOf(operand: Option<Predicate<L>>)
    | Leaf(constraint: L)

  /** Every child reference points forward, to a node created later. */
  ghost predicate Linked<L>(nodes: seq<Node<L>>)
  {
    forall n, k :: 0 <= n < |nodes| && 0 <= k < |Kids(nodes[n])| && Kids(nodes[n])[k].Sub? ==>
      n < Kids(nodes[n])[k].id < |nodes|
  }

  /** The nodes below `s` refer only to nodes below `s`. */
  ghost predicate ClosedBelow<L>(nodes: seq<Node<L>>, s: nat)
  {
    forall n, k :: 0 <= n < s && n < |nodes| && 0 <= k < |Kids(nodes[n])| && Kids(nodes[n])[k].Sub? ==>
      Kids(nodes[n])[k].id < s
  }

  /** The tree rooted at node `id`, following child references through the arena. */
  function Render<L>(nodes: seq<Node<L>>, id: NodeId): (p: Predicate<L>)
    requires Linked(nodes) && id < |nodes|
    ensures p.AndOf? == nodes[id].And? && p.OrOf? == nodes[id].Or? && p.NotOf? == nodes[id].Not?
    decreases |nodes| - id, 1, 0
  {
    var parts := RenderAll(nodes, id, Kids(nodes[id]));
    match nodes[id]
    case And(_) => AndOf(parts)
    case Or(_) => OrOf(parts)
    case Not(_) => NotOf(if parts == [] then None else Some(parts[0]))
  }

  function RenderAll<L>(nodes: seq<Node<L>>, parent: NodeId, cs: seq<Child<L>>): (ps: seq<Predicate<L>>)
    requires Linked(nodes) && parent < |nodes|
    requires forall k :: 0 <= k < |cs| && cs[k].Sub? ==> parent < cs[k].id < |nodes|
    ensures |ps| == |cs|
    decreases |nodes| - parent, 0, |cs|
  {
    if cs == [] then []
    else
      var first := match cs[0]
        case Sub(c) => Render(nodes, c)
        case Constraint(v) => Leaf(v);
      [first] + RenderAll(nodes, parent, cs[1..])
  }

  /**
   * A tree whose nodes all lie below `s` renders the same in any arena that
   * agrees on the nodes below `s`: mutating nodes created later never changes it.
   */
  lemma {:induction false} RenderStable<L>(a: seq<Node<L>>, b: seq<Node<L>>, s: nat, id: NodeId)
    requires Linked(a) && Linked(b) && s <= |a| && s <= |b| && ClosedBelow(a, s)
    requires forall i :: 0 <= i < s ==> a[i] == b[i]
    requires id < s
    ensures Render(a, id) == Render(b, id)
    decreases s - id, 1, 0
  {
    RenderAllStable(a, b, s, id, Kids(a[id]));
  }

  lemma {:induction false} RenderAllStable<L>(a: seq<Node<L>>, b: seq<Node<L>>, s: nat, parent: NodeId, cs: seq<Child<L>>)
    requires Linked(a) && Linked(b) && s <= |a| && s <= |b| && ClosedBelow(a, s)
    requires forall i :: 0 <= i < s ==> a[i] == b[i]
    requires parent < s
    requires forall k :: 0 <= k < |cs| && cs[k].Sub? ==> parent < cs[k].id < s
    ensures RenderAll(a, parent, cs) == RenderAll(b, parent, cs)
    decreases s - parent, 0, |cs|
  {
    if cs != [] {
      if cs[0].Sub? {
        RenderStable(a, b, s, cs[0].id);
      }
      RenderAllStable(a, b, s, parent, cs[1..]);
    }
  }
}
