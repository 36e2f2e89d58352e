# Validation results builder and XML validation-mode selection

This project models two small parts of the Spring Framework in Dafny.

**The validation-results builder** (`ValidationResultsBuilder`) of the rules
sandbox. A rule evaluator drives it while it checks one bean property after
another:
- `pushAnd`/`pushOr`/`pushNot` open a compound predicate and attach it to the
  compound that is open;
- `push(constraint)` adds a leaf constraint to the open compound;
- `pop(result)` closes the open compound with the outcome of its rule. A
  compound that held is removed from its parent. A whole property tree that
  failed is stored under the current property name.

The builder is a `class` whose fields the operations update in place. The
predicate objects live in an arena, a `seq` of nodes in which node `i` is the
i-th compound the builder allocated. Object references become node ids, and
`Render` turns a stored root into the predicate tree it denotes. The Java
exceptions become `Outcome` values with the state changes made before the
throw:
- `EmptyStackException` from `pop`/`peek` on an empty stack;
- the `NullPointerException` of `push` with no open compound;
- the `ClassCastException` of a `pop(true)` whose parent is a negation.

The builder's invariant, `Consistent`, is proved to hold after every
operation. It says:
- the arena is a forest;
- the stack is a path from a root downwards;
- no conjunction or disjunction keeps a sub-compound that reported true. `Pop` records each compound closed with `true` in the ghost set `succeeded`, and every mutator's contract says how that set changes;
- stored trees are finished, and later building never changes them.

**Validation-mode selection in `XmlBeanDefinitionReader`.** This covers:
- the mode constants and their setters;
- DOCTYPE sniffing over at most the first five lines of a resource;
- the rule that an explicitly configured mode wins over detection;
- the flags the JAXP document-builder factory receives for a resolved mode;
- the choice between the legacy parser and the document reader when
  definitions are registered.

The `setParserClass` guard tests the field rather than its argument. It
therefore rejects every class while the field is unset. The field starts
unset and this setter is its only writer, so the model proves that it stays
unset and that registration always takes the document-reader path.

Files:
- `wrappers.dfy`: `Option`, `Result` and `Outcome`.
- `predicate_tree.dfy`: arena nodes, attach/excise and rendering.
- `validation_results_builder.dfy`: the builder class and its invariant.
- `builder_scenarios.dfy`: complete push/pop sequences and what the builder
  reports for each.
- `xml_bean_definition_reader.dfy`: the reader's validation-mode logic.

## Model

| member | source | states |
|---|---|---|
| PredicateTree.Attach | sandbox/src/org/springframework/rules/ValidationResultsBuilder.java:74-88 | a negation takes the new child as its only operand, replacing any earlier one; a conjunction or disjunction appends it after its existing children; the kind of node is kept |
| PredicateTree.SubIndex | sandbox/src/org/springframework/rules/ValidationResultsBuilder.java:136 | the position of the first reference to a node, or -1 exactly when the list holds no reference to it |
| PredicateTree.RemoveFirst | sandbox/src/org/springframework/rules/ValidationResultsBuilder.java:136 | removal drops exactly the first reference to the node (predicate equality assumed to be identity), keeps the others in order, and leaves a list without the node unchanged |
| PredicateTree.Excise | sandbox/src/org/springframework/rules/ValidationResultsBuilder.java:136 | removing a child from a conjunction or disjunction keeps its kind and removes the first reference from its child list |
| PredicateTree.RemoveFirstKeepsOnlyExisting | sandbox/src/org/springframework/rules/ValidationResultsBuilder.java:136 | removal never introduces an entry that was not in the list |
| PredicateTree.ExciseRemovesEveryReference | sandbox/src/org/springframework/rules/ValidationResultsBuilder.java:136 | in a list holding each node at most once, removal leaves no reference to the node and keeps the list duplicate-free |
| PredicateTree.ExciseUndoesAttach | sandbox/src/org/springframework/rules/ValidationResultsBuilder.java:136 | attaching a fresh compound and then removing it gives back the parent exactly as it was |
| PredicateTree.Render | sandbox/src/org/springframework/rules/ValidationResultsBuilder.java:55-68 | the tree denoted by a node has the node's kind (`UnaryAnd`, `UnaryOr`, `UnaryNot`) |
| PredicateTree.RenderStable | sandbox/src/org/springframework/rules/ValidationResultsBuilder.java:126 | a stored tree renders the same in any arena that agrees on the finished part below it |
| ValidationResultsBuilding.Rendered | sandbox/src/org/springframework/rules/ValidationResultsBuilder.java:30-32 | the rendered results have exactly the stored property names as keys |
| ValidationResultsBuilding.RenderedStable | sandbox/src/org/springframework/rules/ValidationResultsBuilder.java:126 | every stored result renders the same after any change above the finished part of the arena |
| ValidationResultsBuilding.AddConsistent | sandbox/src/org/springframework/rules/ValidationResultsBuilder.java:74-94 | attaching a fresh compound to the open one and pushing it keeps the builder invariant and leaves every stored result as it was |
| ValidationResultsBuilding.PushConsistent | sandbox/src/org/springframework/rules/ValidationResultsBuilder.java:96-108 | attaching a constraint to the open compound keeps the builder invariant and leaves every stored result as it was |
| ValidationResultsBuilding.TerminalPopConsistent | sandbox/src/org/springframework/rules/ValidationResultsBuilder.java:116-128 | closing the root keeps the invariant with an empty stack, whether or not the root is stored |
| ValidationResultsBuilding.StoreRendered | sandbox/src/org/springframework/rules/ValidationResultsBuilder.java:126 | storing a root under a property name adds exactly that root's tree to the results and changes no other entry |
| ValidationResultsBuilding.NestedPopConsistent | sandbox/src/org/springframework/rules/ValidationResultsBuilder.java:129-137 | a nested pop keeps the invariant with the parent on top, leaves stored results as they were, and after a removal the parent no longer refers to the closed compound |
| ValidationResultsBuilding.ValidationResultsBuilder.constructor | sandbox/src/org/springframework/rules/ValidationResultsBuilder.java:25-28 | a new builder has no current property, no stored results and an empty stack, and satisfies the invariant |
| ValidationResultsBuilding.ValidationResultsBuilder.SetPropertyName | sandbox/src/org/springframework/rules/ValidationResultsBuilder.java:49-53 | the current property becomes the given name and the stack is emptied; stored results are kept |
| ValidationResultsBuilding.ValidationResultsBuilder.PushAnd | sandbox/src/org/springframework/rules/ValidationResultsBuilder.java:55-58 | a new empty conjunction is attached to the open compound and becomes the top |
| ValidationResultsBuilding.ValidationResultsBuilder.PushOr | sandbox/src/org/springframework/rules/ValidationResultsBuilder.java:60-63 | a new empty disjunction is attached to the open compound and becomes the top |
| ValidationResultsBuilding.ValidationResultsBuilder.PushNot | sandbox/src/org/springframework/rules/ValidationResultsBuilder.java:65-68 | a new empty negation is attached to the open compound and becomes the top |
| ValidationResultsBuilding.ValidationResultsBuilder.Peek | sandbox/src/org/springframework/rules/ValidationResultsBuilder.java:70-72 | the top of the stack, which is the open compound, or an empty-stack failure |
| ValidationResultsBuilding.ValidationResultsBuilder.Add | sandbox/src/org/springframework/rules/ValidationResultsBuilder.java:74-94 | the new compound is attached to the open one (as the operand of a negation, appended otherwise), pushed and made the top; stored results are unchanged |
| ValidationResultsBuilding.ValidationResultsBuilder.Push | sandbox/src/org/springframework/rules/ValidationResultsBuilder.java:96-108 | the constraint is attached to the open compound and the stack is unchanged; with no open compound it fails with a null top |
| ValidationResultsBuilding.ValidationResultsBuilder.Pop | sandbox/src/org/springframework/rules/ValidationResultsBuilder.java:110-139 | the stack loses its top; a terminal pop(false) stores the root under the current property and adds exactly its tree to the results; a nested pop(true) removes the closed compound from its parent, or fails with a class cast under a negation; an empty stack fails |
| ValidationResultsBuilding.ValidationResultsBuilder.PopRoot | sandbox/src/org/springframework/rules/ValidationResultsBuilder.java:116-128 | closing the root empties the stack and stores the root only when its rule failed |
| ValidationResultsBuilding.ValidationResultsBuilder.PopNested | sandbox/src/org/springframework/rules/ValidationResultsBuilder.java:129-137 | closing a nested compound makes its parent the top and, when the rule held, removes it from the parent |
| ValidationResultsBuilding.ValidationResultsBuilder.GetResults | sandbox/src/org/springframework/rules/ValidationResultsBuilder.java:30-32 | the stored results, rendering to the builder's result trees |
| ValidationResultsBuilding.ValidationResultsBuilder.GetResultsFor | sandbox/src/org/springframework/rules/ValidationResultsBuilder.java:34-36 | a result exactly when one is stored for the name, and it is that stored tree |
| BuilderScenarios.HoldingSubRule | sandbox/src/org/springframework/rules/ValidationResultsBuilder.java:110-139 | a sub-rule that holds inside a conjunction or disjunction leaves its parent exactly as it was, and the closed node is recorded as having reported true |
| BuilderScenarios.FailingSubRule | sandbox/src/org/springframework/rules/ValidationResultsBuilder.java:96-139 | a sub-rule whose leaf fails stays attached to its parent with its leaf |
| BuilderScenarios.FailingConjunction | sandbox/src/org/springframework/rules/ValidationResultsBuilder.java:110-139 | a failing conjunction with one holding and one failing sub-rule is stored as the root, and keeps only the failing sub-rule |
| BuilderScenarios.PrunedConjunction | sandbox/src/org/springframework/rules/ValidationResultsBuilder.java:110-139 | the stored tree is the conjunction holding only the failing disjunction and its leaf |
| BuilderScenarios.FailedNegation | sandbox/src/org/springframework/rules/ValidationResultsBuilder.java:65-139 | a failing negation is stored together with its operand |
| BuilderScenarios.PopAfterEachLeaf | sandbox/src/org/springframework/rules/ValidationResultsBuilder.java:96-128 | popping after the first leaf empties the stack, so the next push has no parent and the next pop finds an empty stack; nothing is stored |
| BuilderScenarios.TrueUnderNegation | sandbox/src/org/springframework/rules/ValidationResultsBuilder.java:130-136 | pop(true) of a compound under a negation fails with a class cast, after the negation has become the top again |
| BuilderScenarios.FirstFailure | sandbox/src/org/springframework/rules/ValidationResultsBuilder.java:116-127 | a failing first evaluation stores the conjunction and its leaf under the property |
| BuilderScenarios.PassingEvaluation | sandbox/src/org/springframework/rules/ValidationResultsBuilder.java:110-128 | an evaluation that holds stores nothing; the earlier result for the property is still reported |
| BuilderScenarios.OpenDisjunction | sandbox/src/org/springframework/rules/ValidationResultsBuilder.java:49-101 | a fresh evaluation opens a disjunction holding one leaf as the only element of the stack |
| BuilderScenarios.FailingEvaluation | sandbox/src/org/springframework/rules/ValidationResultsBuilder.java:126 | a failing evaluation replaces whatever was stored for the property |
| BuilderScenarios.Reevaluation | sandbox/src/org/springframework/rules/ValidationResultsBuilder.java:110-128 | after a failure, a passing re-evaluation keeps the earlier result and a failing one replaces it |
| XmlBeanDefinitionReading.IndexOfFrom | src/org/springframework/beans/factory/xml/XmlBeanDefinitionReader.java:444 | the first occurrence of the pattern at or after the start position, or -1 when there is none |
| XmlBeanDefinitionReading.IndexOf | src/org/springframework/beans/factory/xml/XmlBeanDefinitionReader.java:444 | -1 exactly when the line does not contain the pattern; otherwise the first position where it occurs |
| XmlBeanDefinitionReading.DetectedMode | src/org/springframework/beans/factory/xml/XmlBeanDefinitionReader.java:424-461 | an open stream fails; otherwise the mode is DTD or XSD, never anything else |
| XmlBeanDefinitionReading.Peeked | src/org/springframework/beans/factory/xml/XmlBeanDefinitionReader.java:108 | detection sees at most five lines, a prefix of the resource, and a DOCTYPE is declared in them exactly when it is declared in the resource's first five lines |
| XmlBeanDefinitionReading.DetectionIgnoresLaterLines | src/org/springframework/beans/factory/xml/XmlBeanDefinitionReader.java:438 | two resources that agree on their first five lines get the same detected mode |
| XmlBeanDefinitionReading.EffectiveMode | src/org/springframework/beans/factory/xml/XmlBeanDefinitionReader.java:414-416 | a configured mode other than AUTO is used as it is, AUTO defers to detection, and the result is never AUTO |
| XmlBeanDefinitionReading.DetectValidationMode | src/org/springframework/beans/factory/xml/XmlBeanDefinitionReader.java:424-461 | the line scan returns DTD exactly when one of the first five lines contains DOCTYPE, XSD otherwise, and fails on an open stream |
| XmlBeanDefinitionReading.XmlBeanDefinitionReader.constructor | src/org/springframework/beans/factory/xml/XmlBeanDefinitionReader.java:119-136 | a new reader is not namespace aware, validates in AUTO mode and has no parser class |
| XmlBeanDefinitionReading.XmlBeanDefinitionReader.SetNamespaceAware | src/org/springframework/beans/factory/xml/XmlBeanDefinitionReader.java:186-188 | sets the namespace-awareness flag and nothing else |
| XmlBeanDefinitionReading.XmlBeanDefinitionReader.SetValidating | src/org/springframework/beans/factory/xml/XmlBeanDefinitionReader.java:195-197 | true selects AUTO and false selects NONE; nothing else changes |
| XmlBeanDefinitionReading.XmlBeanDefinitionReader.SetValidationMode | src/org/springframework/beans/factory/xml/XmlBeanDefinitionReader.java:209-211 | any integer becomes the mode; nothing else changes |
| XmlBeanDefinitionReading.XmlBeanDefinitionReader.SetParserClass | src/org/springframework/beans/factory/xml/XmlBeanDefinitionReader.java:283-288 | while the field is unset every class is rejected, so an unset field stays unset; otherwise a missing class fails with a null pointer, a class that is not a parser is rejected, and a parser class is stored |
| XmlBeanDefinitionReading.XmlBeanDefinitionReader.GetValidationModeForResource | src/org/springframework/beans/factory/xml/XmlBeanDefinitionReader.java:414-416 | the result is the effective mode for the configured mode and the resource |
| XmlBeanDefinitionReading.XmlBeanDefinitionReader.CreateDocumentBuilderFactory | src/org/springframework/beans/factory/xml/XmlBeanDefinitionReader.java:469-495 | the factory validates exactly when the mode is not NONE and is namespace aware exactly when the reader is or the mode is XSD; XSD sets the schema-language attribute to W3C XML Schema and fails exactly when the provider rejects that attribute |
| XmlBeanDefinitionReading.XmlBeanDefinitionReader.RegisterBeanDefinitions | src/org/springframework/beans/factory/xml/XmlBeanDefinitionReader.java:534-546 | the legacy parser is used exactly when a parser class is set; the document-reader path reports how much the registry's definition count grew; with the field unset, as it always is, the document reader is used |

## Left out

- Logging: the debug messages of the builder are not modelled.
- The predicate classes' own behaviour: `UnaryAnd`, `UnaryOr` and `UnaryNot` are reduced to their child lists, and leaf constraints to opaque values. The predicate classes are not part of this model.
- `getPropertyName`: a plain field read, used only inside `pop`.
- Class hierarchy of the predicates: `UnaryAnd`, `UnaryOr` and `UnaryNot` are only imported by `ValidationResultsBuilder.java` (lines 14-17). The model assumes, as the dispatch at lines 97 and 106 suggests, that `UnaryAnd` and `UnaryOr` are `CompoundUnaryPredicate`s and `UnaryNot` is not. The `ClassCast` outcome of a `pop(true)` under a negation and the operand-setting branch of `push` rest on that assumption.
- Equality of predicates: `remove(p)` at line 136 of `ValidationResultsBuilder.java` finds `p` by `equals()`, and the compound predicate classes are not part of this model. The model assumes they keep `Object.equals`, so `remove` drops this very node (`RemoveFirst` compares node ids). If `equals()` were structural, `remove` could drop an earlier, equal-looking sibling instead: for instance a disjunction holding two sub-conjunctions over the same constraint, the first failed and the second held, would lose the failed one and keep the one that held. The model does not capture that case, and the `Pruned` part of the invariant rests on this assumption.
- Pop-once-per-leaf drivers: a usage that pops after every leaf does not match the code as written. Each such pop closes one compound more than a one-pop-per-compound driver would (lines 129-130 of `ValidationResultsBuilder.java`, or lines 116-128 when that compound is the root). Later leaves and compounds therefore attach one level higher for each earlier leaf pop, or have no parent once the stack is empty (a leaf then fails with a null pointer), and the stack empties as many pops early as leaves were popped. When the leaf's compound is the root, the stack is empty at once, as `PopAfterEachLeaf` shows. The scenarios model the code's behaviour, with one pop per compound.
- `getResults()` returns an unmodifiable view of the live map. `GetResults` returns the stored map as a value.
- DetectValidationMode: does not model the `IOException` from opening the stream, the error raised for it, or closing the reader, because stream I/O is outside the model. A resource is given by its lines.
- CreateDocumentBuilderFactory: whether the JAXP provider accepts the XSD attribute is a parameter, because provider lookup is outside the model.
- RegisterBeanDefinitions: instantiating and running the legacy parser or the document reader is not modelled. The registry's definition counts before and after are parameters.
- `setValidationModeName`: it resolves a name through the reflective `Constants` helper, which is not part of this model.
- SetParserClass: whether a class implements `XmlBeanDefinitionParser` is a flag on the class value, because reflection is outside the model.
- The reader's other setters (problem reporter, event listener, error handler, entity resolver, document-reader class), `loadBeanDefinitions`, and building and parsing the DOM document are outside the validation-mode core.
- DetectionIgnoresLaterLines: the lemma follows directly from the contract of `Peeked`, so its proof is empty.
