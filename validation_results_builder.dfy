/**
 * The validation-results builder of the rules sandbox: a push/pop driven
 * builder of AND/OR/NOT predicate trees that prunes sub-trees which evaluated
 * to true and records, per property, the tree of a property that failed.
 */
module ValidationResultsBuilding {
  import opened Wrappers
  import opened PredicateTree

  /** A Java `String` that may be `null` (`None`); the keys of the results map. */
  type PropertyName = Option<string>

  /** The unchecked exceptions the builder's methods can throw. */
  datatype BuilderError =
    | EmptyStack  // java.util.EmptyStackException from `levels.pop()` or `levels.peek()`
    | NullTop     // NullPointerException: a constraint pushed while no compound is open
    | ClassCast   // ClassCastException: a nested pop(true) whose parent is a negation (assumed not a compound predicate)

  /** The arena after the attach step of `add`/`push`: unchanged when there is no open compound. */
  function AttachToTop<L>(nodes: seq<Node<L>>, top: Option<NodeId>, c: Child<L>): seq<Node<L>>
    requires top.Some? ==> top.value < |nodes|
  {
    if top.None? then nodes else nodes[top.value := Attach(nodes[top.value], c)]
  }

  /** The stored results with each root reference replaced by the tree it denotes. */
  function Rendered<L>(nodes: seq<Node<L>>, results: map<PropertyName, NodeId>): (m: map<PropertyName, Predicate<L>>)
    requires Linked(nodes) && forall k :: k in results ==> results[k] < |nodes|
    ensures m.Keys == results.Keys
  {
    map k | k in results :: Render(nodes, results[k])
  }

  /** Results whose trees lie below `s` render the same in any arena that agrees below `s`. */
  lemma RenderedStable<L>(a: seq<Node<L>>, b: seq<Node<L>>, s: nat, results: map<PropertyName, NodeId>)
    requires Linked(a) && Linked(b) && s <= |a| && s <= |b| && ClosedBelow(a, s)
    requires forall i :: 0 <= i < s ==> a[i] == b[i]
    requires forall k :: k in results ==> results[k] < s
    ensures Rendered(a, results) == Rendered(b, results)
  {
    forall k | k in results ensures Rendered(a, results)[k] == Rendered(b, results)[k] {
      RenderStable(a, b, s, results[k]);
    }
  }

  /**
   * The arena is a forest: references point forward, at most once per list,
   * and only from the node a child was attached to when it was created.
   */
  ghost predicate Forest<L>(nodes: seq<Node<L>>, parentOf: seq<Option<NodeId>>)
  {
    |parentOf| == |nodes| && Linked(nodes)
    && (forall n :: 0 <= n < |nodes| ==> SubsDistinct(Kids(nodes[n])))
    && (forall n, k :: 0 <= n < |nodes| && 0 <= k < |Kids(nodes[n])| && Kids(nodes[n])[k].Sub? ==>
          parentOf[Kids(nodes[n])[k].id] == Some(n))
  }

  /** The stack is a path from a root downwards through the arena, above the sealed part. */
  ghost predicate StackPath<L>(nodes: seq<Node<L>>, parentOf: seq<Option<NodeId>>, levels: seq<NodeId>,
                               sealed: nat, succeeded: set<NodeId>)
    requires |parentOf| == |nodes|
  {
    (forall i :: 0 <= i < |levels| ==> sealed <= levels[i] < |nodes| && levels[i] !in succeeded)
    && (forall i, j :: 0 <= i < j < |levels| ==> levels[i] < levels[j])
    && (levels != [] ==> parentOf[levels[0]] == None)
    && (forall i :: 0 < i < |levels| ==>
          parentOf[levels[i]] == Some(levels[i - 1]) && HasSub(Kids(nodes[levels[i - 1]]), levels[i]))
  }

  /** No conjunction or disjunction keeps a sub-node whose pop reported true. */
  ghost predicate Pruned<L>(nodes: seq<Node<L>>, succeeded: set<NodeId>)
  {
    (forall x :: x in succeeded ==> x < |nodes|)
    && (forall n, k :: 0 <= n < |nodes| && !nodes[n].Not? && 0 <= k < |Kids(nodes[n])| && Kids(nodes[n])[k].Sub? ==>
          Kids(nodes[n])[k].id !in succeeded)
  }

  /** Stored trees are finished and lie in the sealed part of the arena. */
  ghost predicate SealedResults<L>(nodes: seq<Node<L>>, sealed: nat, results: map<PropertyName, NodeId>)
  {
    sealed <= |nodes| && ClosedBelow(nodes, sealed)
    && (forall k :: k in results ==> results[k] < sealed)
  }

  /** Replacing the open compound by a node that refers to no new node keeps the arena a forest. */
  lemma ReplaceKeepsForest<L>(nodes: seq<Node<L>>, parentOf: seq<Option<NodeId>>, t: NodeId, m: Node<L>)
    requires Forest(nodes, parentOf) && t < |nodes|
    requires SubsDistinct(Kids(m))
    requires forall k :: 0 <= k < |Kids(m)| && Kids(m)[k].Sub? ==> HasSub(Kids(nodes[t]), Kids(m)[k].id)
    ensures Forest(nodes[t := m], parentOf)
  {
    var nodes' := nodes[t := m];
    forall n, k | 0 <= n < |nodes'| && 0 <= k < |Kids(nodes'[n])| && Kids(nodes'[n])[k].Sub?
      ensures n < Kids(nodes'[n])[k].id < |nodes'|
      ensures parentOf[Kids(nodes'[n])[k].id] == Some(n)
    {
      if n == t {
        var j :| 0 <= j < |Kids(nodes[t])| && IsSub(Kids(nodes[t])[j], Kids(m)[k].id);
      }
    }
  }

  /** Changing a node that is on top of the stack keeps the stack a path. */
  lemma ReplaceTopKeepsPath<L>(nodes: seq<Node<L>>, parentOf: seq<Option<NodeId>>, levels: seq<NodeId>,
                               sealed: nat, succeeded: set<NodeId>, m: Node<L>)
    requires |parentOf| == |nodes| && levels != []
    requires StackPath(nodes, parentOf, levels, sealed, succeeded)
    ensures StackPath(nodes[levels[|levels| - 1] := m], parentOf, levels, sealed, succeeded)
  {
    var t := levels[|levels| - 1];
    var nodes' := nodes[t := m];
    forall i | 0 <= i < |levels| - 1 ensures nodes'[levels[i]] == nodes[levels[i]] {
      assert levels[i] < t;
    }
  }

  /** Changing a node above the sealed part keeps every stored tree finished. */
  lemma ReplaceUnsealedKeepsResults<L>(nodes: seq<Node<L>>, sealed: nat, results: map<PropertyName, NodeId>,
                                       t: NodeId, m: Node<L>)
    requires SealedResults(nodes, sealed, results) && sealed <= t < |nodes|
    ensures SealedResults(nodes[t := m], sealed, results)
  {
    var nodes' := nodes[t := m];
    forall n | 0 <= n < sealed && n < |nodes| ensures nodes'[n] == nodes[n] {
    }
  }

  /** Attaching a constraint adds no node reference. */
  lemma AttachConstraintAddsNoSub<L>(n: Node<L>, c: L)
    requires SubsDistinct(Kids(n))
    ensures SubsDistinct(Kids(Attach(n, Constraint(c))))
    ensures forall k :: 0 <= k < |Kids(Attach(n, Constraint(c)))| && Kids(Attach(n, Constraint(c)))[k].Sub? ==>
              k < |Kids(n)| && Kids(n)[k] == Kids(Attach(n, Constraint(c)))[k]
  {
  }

  /** Allocating a compound and attaching it to the open one keeps the arena a forest. */
  lemma AttachFreshKeepsForest<L>(nodes: seq<Node<L>>, parentOf: seq<Option<NodeId>>, top: Option<NodeId>, node: Node<L>)
    requires Forest(nodes, parentOf) && Kids(node) == []
    requires top.Some? ==> top.value < |nodes|
    ensures Forest(AttachToTop(nodes, top, Sub(|nodes|)) + [node], parentOf + [top])
  {
    var id := |nodes|;
    var nodes', parentOf' := AttachToTop(nodes, top, Sub(id)) + [node], parentOf + [top];
    forall n, k | 0 <= n < |nodes'| && 0 <= k < |Kids(nodes'[n])| && Kids(nodes'[n])[k].Sub?
      ensures n < Kids(nodes'[n])[k].id < |nodes'|
      ensures parentOf'[Kids(nodes'[n])[k].id] == Some(n)
    {
      if top.Some? && n == top.value && Kids(nodes'[n])[k] != Sub(id) {
        assert Kids(nodes'[n])[k] == Kids(nodes[n])[k];
      }
    }
    forall n | 0 <= n < |nodes'| ensures SubsDistinct(Kids(nodes'[n])) {
      if top.Some? && n == top.value && !nodes[n].Not? {
        var cs := Kids(nodes'[n]);
        forall i, j | 0 <= i < j < |cs| && cs[i].Sub? && cs[j].Sub? ensures cs[i].id != cs[j].id {
          if j == |cs| - 1 {
            assert cs[i] == Kids(nodes[n])[i];
          }
        }
      }
    }
  }

  /** Pushing the fresh compound extends the stack path by one step. */
  lemma AttachFreshKeepsPath<L>(nodes: seq<Node<L>>, parentOf: seq<Option<NodeId>>, levels: seq<NodeId>,
                                sealed: nat, succeeded: set<NodeId>, top: Option<NodeId>, node: Node<L>)
    requires |parentOf| == |nodes| && StackPath(nodes, parentOf, levels, sealed, succeeded)
    requires top == if levels == [] then None else Some(levels[|levels| - 1])
    requires sealed <= |nodes| && forall x :: x in succeeded ==> x < |nodes|
    ensures StackPath(AttachToTop(nodes, top, Sub(|nodes|)) + [node], parentOf + [top], levels + [|nodes|], sealed, succeeded)
  {
    var id := |nodes|;
    var nodes', parentOf', levels' := AttachToTop(nodes, top, Sub(id)) + [node], parentOf + [top], levels + [id];
    forall i | 0 <= i < |levels| - 1 ensures nodes'[levels[i]] == nodes[levels[i]] {
      assert levels[i] < levels[|levels| - 1];
    }
    if top.Some? {
      assert IsSub(Kids(nodes'[top.value])[|Kids(nodes'[top.value])| - 1], id);
    }
    forall i | 0 < i < |levels'|
      ensures parentOf'[levels'[i]] == Some(levels'[i - 1]) && HasSub(Kids(nodes'[levels'[i - 1]]), levels'[i])
    {
      if i < |levels| {
        assert levels'[i - 1] == levels[i - 1] && levels'[i] == levels[i];
        assert HasSub(Kids(nodes[levels[i - 1]]), levels[i]);
      }
    }
  }

  /** The fresh compound has not been popped, so no pruning rule is broken. */
  lemma AttachFreshKeepsPruned<L>(nodes: seq<Node<L>>, succeeded: set<NodeId>, top: Option<NodeId>, node: Node<L>)
    requires Pruned(nodes, succeeded) && Kids(node) == []
    requires top.Some? ==> top.value < |nodes|
    ensures Pruned(AttachToTop(nodes, top, Sub(|nodes|)) + [node], succeeded)
  {
    var nodes' := AttachToTop(nodes, top, Sub(|nodes|)) + [node];
    forall n, k | 0 <= n < |nodes'| && !nodes'[n].Not? && 0 <= k < |Kids(nodes'[n])| && Kids(nodes'[n])[k].Sub?
      ensures Kids(nodes'[n])[k].id !in succeeded
    {
      if top.Some? && n == top.value && k < |Kids(nodes[n])| {
        assert Kids(nodes'[n])[k] == Kids(nodes[n])[k];
      }
    }
  }

  /** Appending to the arena and changing a node above the sealed part keeps stored trees finished. */
  lemma AttachFreshKeepsResults<L>(nodes: seq<Node<L>>, sealed: nat, results: map<PropertyName, NodeId>,
                                   top: Option<NodeId>, node: Node<L>)
    requires SealedResults(nodes, sealed, results)
    requires top.Some? ==> sealed <= top.value < |nodes|
    ensures SealedResults(AttachToTop(nodes, top, Sub(|nodes|)) + [node], sealed, results)
    ensures forall i :: 0 <= i < sealed ==> (AttachToTop(nodes, top, Sub(|nodes|)) + [node])[i] == nodes[i]
  {
    var nodes' := AttachToTop(nodes, top, Sub(|nodes|)) + [node];
    forall n | 0 <= n < sealed ensures nodes'[n] == nodes[n] {
    }
  }

  /** Dropping the top of the stack leaves a path; the popped node is no longer on it. */
  lemma PopKeepsPath<L>(nodes: seq<Node<L>>, parentOf: seq<Option<NodeId>>, levels: seq<NodeId>,
                        sealed: nat, succeeded: set<NodeId>, done: set<NodeId>)
    requires |parentOf| == |nodes| && levels != [] && StackPath(nodes, parentOf, levels, sealed, succeeded)
    requires done <= {levels[|levels| - 1]}
    ensures StackPath(nodes, parentOf, levels[..|levels| - 1], sealed, succeeded + done)
  {
    var levels' := levels[..|levels| - 1];
    forall i | 0 <= i < |levels'| ensures levels'[i] !in done {
      assert levels'[i] == levels[i] < levels[|levels| - 1];
    }
  }

  /** The node on top of the stack is referred to by its parent on the stack and by no other node. */
  lemma TopHasOnlyItsParent<L>(nodes: seq<Node<L>>, parentOf: seq<Option<NodeId>>, levels: seq<NodeId>,
                               sealed: nat, succeeded: set<NodeId>)
    requires Forest(nodes, parentOf) && levels != [] && StackPath(nodes, parentOf, levels, sealed, succeeded)
    ensures forall n, k :: 0 <= n < |nodes| && 0 <= k < |Kids(nodes[n])| && IsSub(Kids(nodes[n])[k], levels[|levels| - 1]) ==>
              |levels| > 1 && n == levels[|levels| - 2]
  {
    var p := levels[|levels| - 1];
    forall n, k | 0 <= n < |nodes| && 0 <= k < |Kids(nodes[n])| && IsSub(Kids(nodes[n])[k], p)
      ensures |levels| > 1 && n == levels[|levels| - 2]
    {
      assert parentOf[p] == Some(n);
    }
  }

  /** After a terminal pop the popped root is referred to by no node, so marking it true keeps the pruning rule. */
  lemma RootPopKeepsPruned<L>(nodes: seq<Node<L>>, parentOf: seq<Option<NodeId>>, levels: seq<NodeId>,
                              sealed: nat, succeeded: set<NodeId>)
    requires Forest(nodes, parentOf) && |levels| == 1 && StackPath(nodes, parentOf, levels, sealed, succeeded)
    requires Pruned(nodes, succeeded)
    ensures Pruned(nodes, succeeded + {levels[0]})
  {
    TopHasOnlyItsParent(nodes, parentOf, levels, sealed, succeeded);
  }

  /** A nested pop(true) under a negation leaves the popped node with its negation only. */
  lemma NotParentPopKeepsPruned<L>(nodes: seq<Node<L>>, parentOf: seq<Option<NodeId>>, levels: seq<NodeId>,
                                   sealed: nat, succeeded: set<NodeId>)
    requires Forest(nodes, parentOf) && |levels| > 1 && StackPath(nodes, parentOf, levels, sealed, succeeded)
    requires Pruned(nodes, succeeded) && nodes[levels[|levels| - 2]].Not?
    ensures Pruned(nodes, succeeded + {levels[|levels| - 1]})
  {
    TopHasOnlyItsParent(nodes, parentOf, levels, sealed, succeeded);
  }

  /** A nested pop(true) under a conjunction or disjunction excises the popped node, keeping the forest. */
  lemma ExcisePopKeepsForest<L>(nodes: seq<Node<L>>, parentOf: seq<Option<NodeId>>, levels: seq<NodeId>,
                                sealed: nat, succeeded: set<NodeId>)
    requires Forest(nodes, parentOf) && |levels| > 1 && StackPath(nodes, parentOf, levels, sealed, succeeded)
    requires !nodes[levels[|levels| - 2]].Not?
    ensures var t, p := levels[|levels| - 2], levels[|levels| - 1];
            Forest(nodes[t := Excise(nodes[t], p)], parentOf)
            && !HasSub(Kids(Excise(nodes[t], p)), p)
  {
    var t, p := levels[|levels| - 2], levels[|levels| - 1];
    var m := Excise(nodes[t], p);
    ExciseRemovesEveryReference(Kids(nodes[t]), p);
    RemoveFirstKeepsOnlyExisting(Kids(nodes[t]), p);
    forall k | 0 <= k < |Kids(m)| && Kids(m)[k].Sub? ensures HasSub(Kids(nodes[t]), Kids(m)[k].id) {
      var j :| 0 <= j < |Kids(nodes[t])| && Kids(nodes[t])[j] == Kids(m)[k];
      assert IsSub(Kids(nodes[t])[j], Kids(m)[k].id);
    }
    ReplaceKeepsForest(nodes, parentOf, t, m);
  }

  /** After the excision no conjunction or disjunction refers to the node that reported true. */
  lemma ExcisePopKeepsPruned<L>(nodes: seq<Node<L>>, succeeded: set<NodeId>, t: NodeId, p: NodeId)
    requires Pruned(nodes, succeeded) && t < |nodes| && p < |nodes| && !nodes[t].Not?
    requires SubsDistinct(Kids(nodes[t]))
    requires forall n, k :: 0 <= n < |nodes| && 0 <= k < |Kids(nodes[n])| && IsSub(Kids(nodes[n])[k], p) ==> n == t
    ensures Pruned(nodes[t := Excise(nodes[t], p)], succeeded + {p})
  {
    var nodes' := nodes[t := Excise(nodes[t], p)];
    ExciseRemovesEveryReference(Kids(nodes[t]), p);
    RemoveFirstKeepsOnlyExisting(Kids(nodes[t]), p);
    forall n, k | 0 <= n < |nodes'| && !nodes'[n].Not? && 0 <= k < |Kids(nodes'[n])| && Kids(nodes'[n])[k].Sub?
      ensures Kids(nodes'[n])[k].id !in succeeded + {p}
    {
      var c := Kids(nodes'[n])[k];
      if n == t {
        assert !IsSub(c, p);
        var j :| 0 <= j < |Kids(nodes[t])| && Kids(nodes[t])[j] == c;
      } else {
        assert nodes'[n] == nodes[n];
      }
    }
  }

  /** The builder's invariant, over the values of its fields. */
  ghost predicate Consistent<L>(nodes: seq<Node<L>>, parentOf: seq<Option<NodeId>>, levels: seq<NodeId>,
                                top: Option<NodeId>, sealed: nat, succeeded: set<NodeId>,
                                results: map<PropertyName, NodeId>)
  {
    Forest(nodes, parentOf)
    && (top == if levels == [] then None else Some(levels[|levels| - 1]))
    && StackPath(nodes, parentOf, levels, sealed, succeeded)
    && Pruned(nodes, succeeded)
    && SealedResults(nodes, sealed, results)
  }

  /** The state after a fresh compound is attached to the open one and pushed. */
  lemma AddConsistent<L>(nodes: seq<Node<L>>, parentOf: seq<Option<NodeId>>, levels: seq<NodeId>,
                         top: Option<NodeId>, sealed: nat, succeeded: set<NodeId>,
                         results: map<PropertyName, NodeId>, node: Node<L>, nodes': seq<Node<L>>)
    requires Consistent(nodes, parentOf, levels, top, sealed, succeeded, results) && Kids(node) == []
    requires nodes' == AttachToTop(nodes, top, Sub(|nodes|)) + [node]
    ensures Consistent(nodes', parentOf + [top], levels + [|nodes|], Some(|nodes|), sealed, succeeded, results)
    ensures Rendered(nodes', results) == Rendered(nodes, results)
  {
    AttachFreshKeepsForest(nodes, parentOf, top, node);
    AttachFreshKeepsPath(nodes, parentOf, levels, sealed, succeeded, top, node);
    AttachFreshKeepsPruned(nodes, succeeded, top, node);
    AttachFreshKeepsResults(nodes, sealed, results, top, node);
    RenderedStable(nodes, nodes', sealed, results);
  }

  /** The state after a constraint is attached to the open compound. */
  lemma PushConsistent<L>(nodes: seq<Node<L>>, parentOf: seq<Option<NodeId>>, levels: seq<NodeId>,
                          top: Option<NodeId>, sealed: nat, succeeded: set<NodeId>,
                          results: map<PropertyName, NodeId>, c: L, nodes': seq<Node<L>>)
    requires Consistent(nodes, parentOf, levels, top, sealed, succeeded, results) && top.Some?
    requires nodes' == AttachToTop(nodes, top, Constraint(c))
    ensures Consistent(nodes', parentOf, levels, top, sealed, succeeded, results)
    ensures Rendered(nodes', results) == Rendered(nodes, results)
  {
    var t := top.value;
    var m := Attach(nodes[t], Constraint(c));
    AttachConstraintAddsNoSub(nodes[t], c);
    forall k | 0 <= k < |Kids(m)| && Kids(m)[k].Sub? ensures HasSub(Kids(nodes[t]), Kids(m)[k].id) {
      assert IsSub(Kids(nodes[t])[k], Kids(m)[k].id);
    }
    ReplaceKeepsForest(nodes, parentOf, t, m);
    ReplaceTopKeepsPath(nodes, parentOf, levels, sealed, succeeded, m);
    ReplaceUnsealedKeepsResults(nodes, sealed, results, t, m);
    RenderedStable(nodes, nodes', sealed, results);
  }

  /** The state after a pop that empties the stack. */
  lemma TerminalPopConsistent<L>(nodes: seq<Node<L>>, parentOf: seq<Option<NodeId>>, levels: seq<NodeId>,
                                 top: Option<NodeId>, sealed: nat, succeeded: set<NodeId>,
                                 results: map<PropertyName, NodeId>, result: bool, property: PropertyName)
    requires Consistent(nodes, parentOf, levels, top, sealed, succeeded, results) && |levels| == 1
    ensures var results' := if result then results else results[property := levels[0]];
            Consistent(nodes, parentOf, [], None, |nodes|, if result then succeeded + {levels[0]} else succeeded, results')
  {
    var results' := if result then results else results[property := levels[0]];
    if result {
      RootPopKeepsPruned(nodes, parentOf, levels, sealed, succeeded);
    }
    assert ClosedBelow(nodes, |nodes|);
    assert SealedResults(nodes, |nodes|, results');
  }

  /** Storing a root adds exactly its tree to the rendered results. */
  lemma StoreRendered<L>(nodes: seq<Node<L>>, results: map<PropertyName, NodeId>, property: PropertyName, root: NodeId)
    requires Linked(nodes) && root < |nodes| && forall k :: k in results ==> results[k] < |nodes|
    ensures Rendered(nodes, results[property := root]) == Rendered(nodes, results)[property := Render(nodes, root)]
  {
    var results' := results[property := root];
    var m, m' := Rendered(nodes, results), Rendered(nodes, results');
    var want := m[property := Render(nodes, root)];
    forall k | k in results' ensures k in want && m'[k] == want[k] {
      if k != property {
        assert results'[k] == results[k];
      }
    }
    assert m' == want;
  }

  /** The state after a pop that leaves the stack non-empty. */
  lemma NestedPopConsistent<L>(nodes: seq<Node<L>>, parentOf: seq<Option<NodeId>>, levels: seq<NodeId>,
                               top: Option<NodeId>, sealed: nat, succeeded: set<NodeId>,
                               results: map<PropertyName, NodeId>, result: bool, nodes': seq<Node<L>>)
    requires Consistent(nodes, parentOf, levels, top, sealed, succeeded, results) && |levels| > 1
    requires var t, p := levels[|levels| - 2], levels[|levels| - 1];
             nodes' == if result && !nodes[t].Not? then nodes[t := Excise(nodes[t], p)] else nodes
    ensures var t, p := levels[|levels| - 2], levels[|levels| - 1];
            Consistent(nodes', parentOf, levels[..|levels| - 1], Some(t), sealed,
                       if result then succeeded + {p} else succeeded, results)
            && Rendered(nodes', results) == Rendered(nodes, results)
            && (result && !nodes[t].Not? ==> !HasSub(Kids(nodes'[t]), p))
  {
    var t, p := levels[|levels| - 2], levels[|levels| - 1];
    var levels' := levels[..|levels| - 1];
    var done: set<NodeId> := if result then {p} else {};
    PopKeepsPath(nodes, parentOf, levels, sealed, succeeded, done);
    if result && nodes[t].Not? {
      NotParentPopKeepsPruned(nodes, parentOf, levels, sealed, succeeded);
    } else if result {
      var m := Excise(nodes[t], p);
      ExcisePopKeepsForest(nodes, parentOf, levels, sealed, succeeded);
      TopHasOnlyItsParent(nodes, parentOf, levels, sealed, succeeded);
      ExcisePopKeepsPruned(nodes, succeeded, t, p);
      ReplaceTopKeepsPath(nodes, parentOf, levels', sealed, succeeded + done, m);
      ReplaceUnsealedKeepsResults(nodes, sealed, results, t, m);
      RenderedStable(nodes, nodes[t := m], sealed, results);
    }
  }

  class ValidationResultsBuilder<L> {
    var currentProperty: PropertyName
    var propertyResults: map<PropertyName, NodeId>
    var top: Option<NodeId>
    /** The Java `Stack`: its last element is the top of the stack. */
    var levels: seq<NodeId>
    /** The predicate objects this builder has allocated, by allocation order. */
    var nodes: seq<Node<L>>

    /** The node each node was attached to when it was created (`None` for a root). */
    ghost var parentOf: seq<Option<NodeId>>
    /** The nodes whose pop reported `true`. */
    ghost var succeeded: set<NodeId>
    /** Every node below this index belongs to a finished build and is never modified again. */
    ghost var sealed: nat

    ghost predicate Valid()
      reads this
    {
      Consistent(nodes, parentOf, levels, top, sealed, succeeded, propertyResults)
    }

    /** The per-property results, as the trees they denote. */
    ghost function Results(): map<PropertyName, Predicate<L>>
      reads this
      requires Valid()
    {
      Rendered(nodes, propertyResults)
    }

    constructor ()
      ensures Valid()
      ensures currentProperty == None && propertyResults == map[]
      ensures top == None && levels == [] && nodes == []
    {
      currentProperty := None;
      propertyResults := map[];
      top := None;
      levels := [];
      nodes := [];
      parentOf := [];
      succeeded := {};
      sealed := 0;
    }

    /** Starts a new property: the stack is emptied and the stored results are kept. */
    method SetPropertyName(name: PropertyName)
      requires Valid()
      modifies this
      ensures Valid()
      ensures currentProperty == name && levels == [] && top == None
      ensures propertyResults == old(propertyResults) && nodes == old(nodes)
      ensures succeeded == old(succeeded)
      ensures Results() == old(Results())
    {
      currentProperty := name;
      levels := [];
      top := None;
      sealed := |nodes|;
    }

    method PushAnd()
      requires Valid()
      modifies this
      ensures Valid()
      ensures nodes == AttachToTop(old(nodes), old(top), Sub(|old(nodes)|)) + [And([])]
      ensures levels == old(levels) + [|old(nodes)|] && top == Some(|old(nodes)|)
      ensures currentProperty == old(currentProperty) && propertyResults == old(propertyResults)
      ensures succeeded == old(succeeded)
      ensures Results() == old(Results())
    {
      Add(And([]));
    }

    method PushOr()
      requires Valid()
      modifies this
      ensures Valid()
      ensures nodes == AttachToTop(old(nodes), old(top), Sub(|old(nodes)|)) + [Or([])]
      ensures levels == old(levels) + [|old(nodes)|] && top == Some(|old(nodes)|)
      ensures currentProperty == old(currentProperty) && propertyResults == old(propertyResults)
      ensures succeeded == old(succeeded)
      ensures Results() == old(Results())
    {
      Add(Or([]));
    }

    method PushNot()
      requires Valid()
      modifies this
      ensures Valid()
      ensures nodes == AttachToTop(old(nodes), old(top), Sub(|old(nodes)|)) + [Not(None)]
      ensures levels == old(levels) + [|old(nodes)|] && top == Some(|old(nodes)|)
      ensures currentProperty == old(currentProperty) && propertyResults == old(propertyResults)
      ensures succeeded == old(succeeded)
      ensures Results() == old(Results())
    {
      Add(Not(None));
    }

    /** Returns the open compound on top of the stack. */
    method Peek() returns (r: Result<NodeId, BuilderError>)
      requires Valid()
      ensures levels == [] ==> r == Failure(EmptyStack)
      ensures levels != [] ==> r == Success(levels[|levels| - 1]) && top == Some(r.value) && r.value < |nodes|
    {
      if levels == [] {
        r := Failure(EmptyStack);
      } else {
        r := Success(levels[|levels| - 1]);
      }
    }

    /** Attaches a freshly allocated compound to the open one and makes it the top. */
    method Add(node: Node<L>)
      requires Valid() && Kids(node) == []
      modifies this
      ensures Valid()
      ensures nodes == AttachToTop(old(nodes), old(top), Sub(|old(nodes)|)) + [node]
      ensures levels == old(levels) + [|old(nodes)|] && top == Some(|old(nodes)|)
      ensures currentProperty == old(currentProperty) && propertyResults == old(propertyResults)
      ensures succeeded == old(succeeded)
      ensures Results() == old(Results())
    {
      var id := |nodes|;
      var attached := AttachToTop(nodes, top, Sub(id)) + [node];
      AddConsistent(nodes, parentOf, levels, top, sealed, succeeded, propertyResults, node, attached);
      nodes, parentOf := attached, parentOf + [top];
      levels, top := levels + [id], Some(id);
    }

    /** Adds a leaf constraint to the open compound; the stack is not changed. */
    method Push(constraint: L) returns (r: Outcome<BuilderError>)
      requires Valid()
      modifies this
      ensures Valid()
      ensures r == if old(top).None? then Fail(NullTop) else Pass
      ensures nodes == AttachToTop(old(nodes), old(top), Constraint(constraint))
      ensures levels == old(levels) && top == old(top)
      ensures currentProperty == old(currentProperty) && propertyResults == old(propertyResults)
      ensures succeeded == old(succeeded)
      ensures Results() == old(Results())
    {
      if top.None? {
        return Fail(NullTop);
      }
      var attached := AttachToTop(nodes, top, Constraint(constraint));
      PushConsistent(nodes, parentOf, levels, top, sealed, succeeded, propertyResults, constraint, attached);
      nodes := attached;
      r := Pass;
    }

    /**
     * Closes the compound on top of the stack with the outcome of its rule.
     * A terminal pop stores a failed tree under the current property; a
     * nested pop(true) excises the closed node from its parent.
     */
    method Pop(result: bool) returns (r: Outcome<BuilderError>)
      requires Valid()
      modifies this
      ensures Valid()
      ensures currentProperty == old(currentProperty)
      // a compound closed with `true` joins the ghost record the pruning rule speaks of
      ensures succeeded == old(succeeded) + (if result && old(levels) != [] then {old(levels)[|old(levels)| - 1]} else {})
      ensures old(levels) == [] ==>
        r == Fail(EmptyStack) && levels == [] && top == None
        && nodes == old(nodes) && propertyResults == old(propertyResults)
      ensures old(levels) != [] ==>
        levels == old(levels)[..|old(levels)| - 1]
        && top == (if levels == [] then None else Some(levels[|levels| - 1]))
      // terminal pop: the stack is now empty
      ensures |old(levels)| == 1 ==>
        r == Pass && nodes == old(nodes)
        && propertyResults == if result then old(propertyResults)
                              else old(propertyResults)[currentProperty := old(levels)[0]]
      ensures |old(levels)| == 1 && !result ==>
        Results() == old(Results())[currentProperty := Render(nodes, old(levels)[0])]
      // nested pop
      ensures |old(levels)| != 1 ==> propertyResults == old(propertyResults) && Results() == old(Results())
      ensures |old(levels)| > 1 && !result ==> r == Pass && nodes == old(nodes)
      ensures |old(levels)| > 1 && result ==>
        var parent, p := old(levels)[|old(levels)| - 2], old(levels)[|old(levels)| - 1];
        if old(nodes)[parent].Not? then r == Fail(ClassCast) && nodes == old(nodes)
        else r == Pass && nodes == old(nodes)[parent := Excise(old(nodes)[parent], p)]
             && !HasSub(Kids(nodes[parent]), p)
    {
      if levels == [] {
        return Fail(EmptyStack);
      }
      if |levels| == 1 {
        PopRoot(result);
        r := Pass;
      } else {
        r := PopNested(result);
      }
    }

    /** The terminal half of `Pop`: the closed node was the root of the property's tree. */
    method PopRoot(result: bool)
      requires Valid() && |levels| == 1
      modifies this
      ensures Valid()
      ensures currentProperty == old(currentProperty) && nodes == old(nodes)
      ensures levels == [] && top == None
      ensures succeeded == old(succeeded) + (if result then {old(levels)[0]} else {})
      ensures propertyResults == if result then old(propertyResults)
                                 else old(propertyResults)[currentProperty := old(levels)[0]]
      ensures !result ==> Results() == old(Results())[currentProperty := Render(nodes, old(levels)[0])]
      ensures result ==> Results() == old(Results())
    {
      var p := levels[0];
      TerminalPopConsistent(nodes, parentOf, levels, top, sealed, succeeded, propertyResults, result, currentProperty);
      StoreRendered(nodes, propertyResults, currentProperty, p);
      if result {
        succeeded := succeeded + {p};
      } else {
        propertyResults := propertyResults[currentProperty := p];
      }
      levels, top, sealed := [], None, |nodes|;
    }

    /** The nested half of `Pop`: the stack keeps the closed node's parent on top. */
    method PopNested(result: bool) returns (r: Outcome<BuilderError>)
      requires Valid() && |levels| > 1
      modifies this
      ensures Valid()
      ensures currentProperty == old(currentProperty) && propertyResults == old(propertyResults)
      ensures Results() == old(Results())
      ensures levels == old(levels)[..|old(levels)| - 1] && top == Some(levels[|levels| - 1])
      ensures succeeded == old(succeeded) + (if result then {old(levels)[|old(levels)| - 1]} else {})
      ensures !result ==> r == Pass && nodes == old(nodes)
      ensures result ==>
        var parent, p := old(levels)[|old(levels)| - 2], old(levels)[|old(levels)| - 1];
        if old(nodes)[parent].Not? then r == Fail(ClassCast) && nodes == old(nodes)
        else r == Pass && nodes == old(nodes)[parent := Excise(old(nodes)[parent], p)]
             && !HasSub(Kids(nodes[parent]), p)
    {
      var p := levels[|levels| - 1];
      var rest := levels[..|levels| - 1];
      var t := rest[|rest| - 1];
      var excised := nodes;
      r := Pass;
      if result {
        if nodes[t].Not? {
          r := Fail(ClassCast);
        } else {
          excised := nodes[t := Excise(nodes[t], p)];
        }
      }
      NestedPopConsistent(nodes, parentOf, levels, top, sealed, succeeded, propertyResults, result, excised);
      nodes := excised;
      levels, top := rest, Some(t);
      if result {
        succeeded := succeeded + {p};
      }
    }

    /** A read-only view of the stored results. */
    method GetResults() returns (m: map<PropertyName, NodeId>)
      requires Valid()
      ensures m == propertyResults
      ensures Rendered(nodes, m) == Results()
    {
      m := propertyResults;
    }

    /** The tree stored for `name`, or `None` (Java's `null`) when there is none. */
    method GetResultsFor(name: PropertyName) returns (r: Option<NodeId>)
      requires Valid()
      ensures r.Some? <==> name in propertyResults
      ensures r.Some? ==> r.value == propertyResults[name] && Render(nodes, r.value) == Results()[name]
    {
      if name in propertyResults {
        r := Some(propertyResults[name]);
      } else {
        r := None;
      }
    }
  }
}
