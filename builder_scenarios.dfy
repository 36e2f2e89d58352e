/**
 * Drivers of the validation-results builder: each runs one push/pop sequence
 * and states what the builder reports for it.
 */
module BuilderScenarios {
  import opened Wrappers
  import opened PredicateTree
  import opened ValidationResultsBuilding

  /**
   * A sub-rule that holds, evaluated inside an open conjunction or
   * disjunction: its node is attached, filled and then excised again, so the
   * parent ends up exactly as it was.
   */
  method HoldingSubRule<L>(b: ValidationResultsBuilder<L>, l: L)
    requires b.Valid() && b.top.Some? && !b.nodes[b.top.value].Not?
    modifies b
    ensures b.Valid() && |b.nodes| == old(|b.nodes|) + 1
    ensures b.levels == old(b.levels) && b.top == old(b.top)
    ensures b.nodes[b.top.value] == old(b.nodes[b.top.value])
    ensures b.succeeded == old(b.succeeded) + {old(|b.nodes|)}
    ensures b.currentProperty == old(b.currentProperty) && b.propertyResults == old(b.propertyResults)
  {
    ghost var t, n := b.top.value, |b.nodes|;
    ghost var parent := b.nodes[t];
    assert !HasSub(Kids(parent), n) by {
      forall k | 0 <= k < |Kids(parent)| ensures !IsSub(Kids(parent)[k], n) {
        if Kids(parent)[k].Sub? {
          assert Kids(b.nodes[t])[k].id < |b.nodes|;
        }
      }
    }
    ExciseUndoesAttach(parent, n);
    b.PushAnd();
    var _ := b.Push(l);
    var _ := b.Pop(true);
  }

  /**
   * A sub-rule whose only leaf fails, evaluated inside an open conjunction or
   * disjunction: its node stays attached to the parent as evidence.
   */
  method FailingSubRule<L>(b: ValidationResultsBuilder<L>, l: L) returns (part: NodeId)
    requires b.Valid() && b.top.Some? && !b.nodes[b.top.value].Not?
    modifies b
    ensures b.Valid() && part == old(|b.nodes|) && |b.nodes| == part + 1
    ensures b.levels == old(b.levels) && b.top == old(b.top)
    ensures b.nodes[b.top.value] == Attach(old(b.nodes[b.top.value]), Sub(part))
    ensures b.nodes[part] == Or([Constraint(l)])
    ensures b.currentProperty == old(b.currentProperty) && b.propertyResults == old(b.propertyResults)
  {
    ghost var none: seq<Child<L>> := [];
    part := |b.nodes|;
    b.PushOr();
    assert Attach(Or(none), Constraint(l)) == Or([Constraint(l)]) by {
      assert none + [Constraint(l)] == [Constraint(l)];
    }
    var _ := b.Push(l);
    var _ := b.Pop(false);
  }

  /**
   * Evaluates a conjunction as a new property's tree: a sub-rule that holds,
   * a sub-rule that fails, then the conjunction itself fails.
   */
  method FailingConjunction<L>(b: ValidationResultsBuilder<L>, l1: L, l2: L) returns (root: NodeId, part: NodeId)
    requires b.Valid() && b.levels == [] && b.top == None
    modifies b
    ensures b.Valid() && root == old(|b.nodes|) && root < part < |b.nodes|
    ensures b.levels == [] && b.currentProperty == old(b.currentProperty)
    ensures b.propertyResults == old(b.propertyResults)[b.currentProperty := root]
    ensures b.nodes[root] == And([Sub(part)])
    ensures b.nodes[part] == Or([Constraint(l2)])
  {
    ghost var none: seq<Child<L>> := [];
    root := |b.nodes|;
    b.PushAnd();
    assert b.nodes[root] == And(none);
    HoldingSubRule(b, l1);
    part := FailingSubRule(b, l2);
    assert b.nodes[root] == And([Sub(part)]) by {
      assert none + [Sub(part)] == [Sub(part)];
    }
    var _ := b.Pop(false);
  }

  /**
   * A conjunction with a sub-rule that holds and a sub-rule that fails: the
   * holding sub-rule is pruned and the failing one is kept as evidence.
   */
  method PrunedConjunction<L>(l1: L, l2: L) returns (stored: Option<Predicate<L>>)
    ensures stored == Some(AndOf([OrOf([Leaf(l2)])]))
  {
    ghost var none: seq<Child<L>> := [];
    var b := new ValidationResultsBuilder<L>();
    b.SetPropertyName(Some("age"));
    var root, part := FailingConjunction(b, l1, l2);
    var found := b.GetResultsFor(Some("age"));
    stored := if found.Some? then Some(Render(b.nodes, found.value)) else None;
    ghost var ns := b.nodes;
    ghost var inner: seq<Child<L>> := [Constraint(l2)];
    ghost var outer: seq<Child<L>> := [Sub(part)];
    assert RenderAll(ns, part, inner) == [Leaf(l2)] by {
      assert inner[1..] == none;
    }
    assert RenderAll(ns, root, outer) == [OrOf([Leaf(l2)])] by {
      assert outer[1..] == none;
    }
  }

  /** A negation around a leaf that fails: the negation and its leaf are stored. */
  method FailedNegation<L>(l: L) returns (stored: Option<Predicate<L>>)
    ensures stored == Some(NotOf(Some(Leaf(l))))
  {
    var b := new ValidationResultsBuilder<L>();
    b.SetPropertyName(Some("spouse"));
    b.PushNot();
    var _ := b.Push(l);
    var _ := b.Pop(false);
    var root := b.GetResultsFor(Some("spouse"));
    stored := if root.Some? then Some(Render(b.nodes, root.value)) else None;
  }

  /**
   * A driver that pops once per leaf closes the enclosing compound at the
   * first leaf: the stack is then empty, so the next leaf has no parent and
   * the next pop finds no compound to close.
   */
  method PopAfterEachLeaf<L>(l1: L, l2: L) returns (second: Outcome<BuilderError>, last: Outcome<BuilderError>,
                                                   stored: Option<NodeId>)
    ensures second == Fail(NullTop) && last == Fail(EmptyStack) && stored == None
  {
    var b := new ValidationResultsBuilder<L>();
    b.SetPropertyName(Some("age"));
    b.PushAnd();
    var _ := b.Push(l1);
    var _ := b.Pop(true);
    second := b.Push(l2);
    last := b.Pop(false);
    stored := b.GetResultsFor(Some("age"));
  }

  /** A compound that holds cannot be excised from a negation: the cast to a compound fails. */
  method TrueUnderNegation<L>(l: L) returns (r: Outcome<BuilderError>, open: Result<NodeId, BuilderError>)
    ensures r == Fail(ClassCast)
    ensures open == Success(0)
  {
    var b := new ValidationResultsBuilder<L>();
    b.SetPropertyName(Some("spouse"));
    b.PushNot();
    b.PushAnd();
    assert b.levels == [0, 1] && b.nodes[0] == Not(Some(Sub(1)));
    var _ := b.Push(l);
    r := b.Pop(true);
    assert b.levels == [0];
    open := b.Peek();
  }

  /** A first evaluation of property "age" whose conjunction fails is stored. */
  method FirstFailure<L>(l1: L) returns (b: ValidationResultsBuilder<L>)
    ensures fresh(b) && b.Valid()
    ensures b.propertyResults == map[Some("age") := 0]
    ensures b.Results() == map[Some("age") := AndOf([Leaf(l1)])]
  {
    ghost var none: seq<Child<L>> := [];
    b := new ValidationResultsBuilder<L>();
    b.SetPropertyName(Some("age"));
    b.PushAnd();
    var _ := b.Push(l1);
    assert none + [Constraint(l1)] == [Constraint(l1)];
    assert b.nodes[0] == And([Constraint(l1)]);
    var _ := b.Pop(false);
    ghost var ns := b.nodes;
    ghost var leaf: seq<Child<L>> := [Constraint(l1)];
    assert RenderAll(ns, 0, leaf) == [Leaf(l1)] by {
      assert leaf[1..] == none;
    }
  }

  /**
   * Evaluating property "age" again with a conjunction that holds stores
   * nothing: whatever was stored for "age" before is still reported.
   */
  method PassingEvaluation<L>(b: ValidationResultsBuilder<L>, l: L) returns (reported: Option<Predicate<L>>)
    requires b.Valid()
    modifies b
    ensures b.Valid() && b.Results() == old(b.Results())
    ensures reported == if Some("age") in old(b.Results()) then Some(old(b.Results())[Some("age")]) else None
  {
    b.SetPropertyName(Some("age"));
    b.PushAnd();
    var _ := b.Push(l);
    var _ := b.Pop(true);
    var root := b.GetResultsFor(Some("age"));
    reported := if root.Some? then Some(Render(b.nodes, root.value)) else None;
  }

  /** Starts evaluating property "age" with a disjunction holding one leaf. */
  method OpenDisjunction<L>(b: ValidationResultsBuilder<L>, l: L) returns (id: NodeId)
    requires b.Valid()
    modifies b
    ensures b.Valid() && b.currentProperty == Some("age")
    ensures b.levels == [id] && id < |b.nodes| && b.nodes[id] == Or([Constraint(l)])
  {
    ghost var none: seq<Child<L>> := [];
    b.SetPropertyName(Some("age"));
    b.PushOr();
    id := |b.nodes| - 1;
    assert Attach(Or(none), Constraint(l)) == Or([Constraint(l)]) by {
      assert none + [Constraint(l)] == [Constraint(l)];
    }
    var _ := b.Push(l);
  }

  /**
   * Evaluating property "age" with a disjunction whose only leaf fails
   * replaces whatever was stored for "age" before.
   */
  method FailingEvaluation<L>(b: ValidationResultsBuilder<L>, l: L) returns (reported: Option<Predicate<L>>)
    requires b.Valid()
    modifies b
    ensures b.Valid()
    ensures reported == Some(OrOf([Leaf(l)]))
  {
    ghost var none: seq<Child<L>> := [];
    var id := OpenDisjunction(b, l);
    var _ := b.Pop(false);
    var root := b.GetResultsFor(Some("age"));
    assert root == Some(id);
    reported := if root.Some? then Some(Render(b.nodes, root.value)) else None;
    ghost var ns := b.nodes;
    ghost var leaf: seq<Child<L>> := [Constraint(l)];
    assert RenderAll(ns, id, leaf) == [Leaf(l)] by {
      assert leaf[1..] == none;
    }
  }

  /**
   * Evaluating a property again and passing leaves the earlier failure in
   * place; failing again replaces it.
   */
  method Reevaluation<L>(l1: L, l2: L) returns (afterPass: Option<Predicate<L>>, afterFail: Option<Predicate<L>>)
    ensures afterPass == Some(AndOf([Leaf(l1)]))
    ensures afterFail == Some(OrOf([Leaf(l2)]))
  {
    var b := FirstFailure(l1);
    afterPass := PassingEvaluation(b, l2);
    afterFail := FailingEvaluation(b, l2);
  }
}
