/**
 The visitor itself, with its mutable fields, proved to collect exactly the facts
 of `ReaderVisitor.Facts` and to leave its scopes as it found them; and the fields
 a module reads according to it.
 */
module ReaderCensus {
  import opened Prelude
  import opened ReaderVisitor

  class Visitor {
    const dataClass: string
    var aliases: set<string>
    var fieldReads: set<string>
    var dynamicHelpers: set<string>
    var dynamicGetattr: bool
    var tableStrings: set<string>
    var callStrings: map<string, set<string>>
    var functions: seq<string>

    ghost function Collected(): set<Fact>
      reads this
    {
      (set x | x in fieldReads :: Read(x))
      + (if dynamicGetattr then {Dynamic} else {})
      + (set x | x in dynamicHelpers :: Helper(x))
      + (set x | x in tableStrings :: Table(x))
      + (set c, x | c in callStrings && x in callStrings[c] :: Passed(c, x))
    }

    /** The facts `n` contributes where the visitor stands. */
    ghost function FactsHere(n: Node): set<Fact>
      reads this
    {
      Facts(dataClass, aliases, functions, n)
    }

    lemma CollectedHas(name: string, h: string)
      ensures Read(name) in Collected() <==> name in fieldReads
      ensures Dynamic in Collected() <==> dynamicGetattr
      ensures Helper(h) in Collected() <==> h in dynamicHelpers
      ensures Table(name) in Collected() <==> name in tableStrings
      ensures Passed(h, name) in Collected() <==> h in callStrings && name in callStrings[h]
    {
    }

    constructor (dataClass: string)
      ensures this.dataClass == dataClass && aliases == {} && functions == [] && Collected() == {}
    {
      this.dataClass := dataClass;
      aliases, fieldReads, dynamicHelpers, tableStrings := {}, {}, {}, {};
      dynamicGetattr, callStrings, functions := false, map[], [];
    }

    /** Every visit collects the tree's facts and leaves the scopes as it found them. */
    method Visit(n: Node)
      modifies this
      ensures aliases == old(aliases) && functions == old(functions)
      ensures Collected() == old(Collected()) + old(FactsHere(n))
      decreases n, 2
    {
      match n
      case Function(_, _, _, _) => VisitFunction(n);
      case Comprehension(_, _) => VisitComprehension(n);
      case For(_, _, _) => VisitFor(n);
      case _ => VisitInPlace(n);
    }

    method VisitFunction(n: Node)
      requires n.Function?
      modifies this
      ensures aliases == old(aliases) && functions == old(functions)
      ensures Collected() == old(Collected()) + old(FactsHere(n))
      decreases n, 1
    {
      var saved := aliases;
      EnterFunction(n);
      GenericVisit(n);
      FactsSplit(dataClass, old(aliases), old(functions), n);
      functions := functions[..|functions| - 1];
      aliases := saved;
    }

    /** Binds the parameters, then every name the body assigns from the snapshot. */
    method EnterFunction(n: Node)
      requires n.Function?
      modifies this`aliases, this`functions
      ensures aliases == Inside(dataClass, old(aliases), n) && functions == old(functions) + [n.name]
    {
      for i := 0 to |n.params|
        invariant aliases == BindParams(dataClass, old(aliases), n.params[..i])
        invariant functions == old(functions)
      {
        assert n.params[..i + 1][..i] == n.params[..i];
        if ParamIsSnapshot(dataClass, n.params[i]) {
          aliases := aliases + {n.params[i].name};
        } else {
          aliases := aliases - {n.params[i].name};
        }
      }
      assert n.params[..|n.params|] == n.params;
      var local := LocalAliases(n.body);
      aliases := aliases + local;
      functions := functions + [n.name];
    }

    method VisitComprehension(n: Node)
      requires n.Comprehension?
      modifies this
      ensures aliases == old(aliases) && functions == old(functions)
      ensures Collected() == old(Collected()) + old(FactsHere(n))
      decreases n, 1
    {
      var saved := aliases;
      for i := 0 to |n.generators|
        invariant aliases == BindGenerators(saved, n.generators[..i])
        invariant functions == old(functions) && Collected() == old(Collected())
      {
        assert n.generators[..i + 1][..i] == n.generators[..i];
        if !IsSource(aliases, n.generators[i].iter) {
          aliases := aliases - BindingNames(n.generators[i].target);
        }
      }
      assert n.generators[..|n.generators|] == n.generators;
      GenericVisit(n);
      FactsSplit(dataClass, old(aliases), old(functions), n);
      aliases := saved;
    }

    method VisitFor(n: Node)
      requires n.For?
      modifies this
      ensures aliases == old(aliases) && functions == old(functions)
      ensures Collected() == old(Collected()) + old(FactsHere(n))
      decreases n, 1
    {
      var saved := aliases;
      aliases := aliases - BindingNames(n.bound);
      GenericVisit(n);
      FactsSplit(dataClass, old(aliases), old(functions), n);
      aliases := saved;
    }

    /** Nodes that open no scope: record what they contribute, then descend. */
    method VisitInPlace(n: Node)
      requires !n.Function? && !n.Comprehension? && !n.For?
      modifies this
      ensures aliases == old(aliases) && functions == old(functions)
      ensures Collected() == old(Collected()) + old(FactsHere(n))
      decreases n, 1
    {
      ghost var before, here := Collected(), FactsAt(aliases, functions, n);
      RecordHere(n);
      GenericVisit(n);
      FactsSplit(dataClass, old(aliases), old(functions), n);
      UnionIsAssociative(before, here, FactsOfAll(dataClass, old(aliases), old(functions), Children(n)));
    }

    method RecordHere(n: Node)
      requires !n.Function? && !n.Comprehension? && !n.For?
      modifies this
      ensures aliases == old(aliases) && functions == old(functions)
      ensures Collected() == old(Collected()) + old(FactsAt(aliases, functions, n))
    {
      match n
      case Attribute(base, attr, load) =>
        if load && IsSource(aliases, base) {
          AddRead(attr);
        }
      case AugAssign(into, _) =>
        if into.Attribute? && IsSource(aliases, into.base) {
          AddRead(into.attr);
        }
      case Call(_, _, _) =>
        RecordCall(n);
      case Assign(_, value) =>
        RecordTable([value]);
      case AnnAssign(_, _, init) =>
        if init.Some? {
          RecordTable([init.value]);
        }
      case _ =>
    }

    /** Visits the children in the scope the visitor stands in. */
    method GenericVisit(n: Node)
      modifies this
      ensures aliases == old(aliases) && functions == old(functions)
      ensures Collected() == old(Collected()) + FactsOfAll(dataClass, old(aliases), old(functions), Children(n))
      decreases n, 0
    {
      var children := Children(n);
      ghost var inside, enclosing, before := aliases, functions, Collected();
      ghost var done := {};
      for i := 0 to |children|
        invariant aliases == inside && functions == enclosing
        invariant done == FactsOfAll(dataClass, inside, enclosing, children[..i])
        invariant Collected() == before + done
      {
        FactsOfMore(dataClass, inside, enclosing, children, i);
        ghost var here := FactsHere(children[i]);
        assert children[i] in children;
        Visit(children[i]);
        UnionIsAssociative(before, done, here);
        done := done + here;
      }
      assert children[..|children|] == children;
    }

    /** The reads, widened by the names a computed `getattr` can receive. */
    method Reported() returns (names: set<string>)
      ensures forall name :: name in names <==> Reports(Collected(), name)
    {
      names := fieldReads;
      if dynamicGetattr {
        names := names + tableStrings;
        names := names + set h, x | h in dynamicHelpers && h in callStrings && x in callStrings[h] :: x;
      }
      forall name
        ensures Read(name) in Collected() <==> name in fieldReads
        ensures Dynamic in Collected() <==> dynamicGetattr
        ensures Table(name) in Collected() <==> name in tableStrings
      {
        CollectedHas(name, "");
      }
      forall name, h
        ensures Helper(h) in Collected() && Passed(h, name) in Collected()
           <==> h in dynamicHelpers && h in callStrings && name in callStrings[h]
      {
        CollectedHas(name, h);
      }
    }

    /** What every statement of a body, however deep, binds to the snapshot. */
    method LocalAliases(body: seq<Node>) returns (found: set<string>)
      ensures found == AssignedInAll(aliases, body)
    {
      found := {};
      for i := 0 to |body|
        invariant found == AssignedInAll(aliases, body[..i])
      {
        var more := AliasesAssignedIn(body[i]);
        AssignedInMore(aliases, body, i);
        found := found + more;
      }
      assert body[..|body|] == body;
    }

    method AliasesAssignedIn(n: Node) returns (found: set<string>)
      ensures found == AssignedIn(aliases, n)
      decreases n
    {
      found := AssignedHere(aliases, n);
      var children := Children(n);
      for i := 0 to |children|
        invariant found == AssignedHere(aliases, n) + AssignedInAll(aliases, children[..i])
      {
        assert children[i] in children;
        var more := AliasesAssignedIn(children[i]);
        AssignedInMore(aliases, children, i);
        found := found + more;
      }
      assert children[..|children|] == children;
    }

    method AddRead(name: string)
      modifies this`fieldReads
      ensures Collected() == old(Collected()) + {Read(name)}
    {
      fieldReads := fieldReads + {name};
    }

    method RecordCall(n: Node)
      requires n.Call?
      modifies this
      ensures aliases == old(aliases) && functions == old(functions)
      ensures Collected() == old(Collected()) + old(FactsAt(aliases, functions, n))
    {
      if IsGetattr(aliases, n) {
        if n.args[1].Str? {
          AddRead(n.args[1].text);
        } else {
          RecordDynamic();
        }
      }
      var callee := Callee(n.func);
      if callee.Some? {
        RecordPassed(callee.value, StringsIn(n.args + n.keywords));
      }
    }

    method RecordDynamic()
      modifies this`dynamicGetattr, this`dynamicHelpers
      ensures Collected() == old(Collected()) + {Dynamic} + set f | f in functions :: Helper(f)
    {
      dynamicGetattr := true;
      dynamicHelpers := dynamicHelpers + set f | f in functions;
    }

    method RecordPassed(callee: string, texts: set<string>)
      modifies this`callStrings
      ensures Collected() == old(Collected()) + set x | x in texts :: Passed(callee, x)
    {
      callStrings := callStrings[callee := (if callee in callStrings then callStrings[callee] else {}) + texts];
    }

    method RecordTable(values: seq<Node>)
      modifies this`tableStrings
      ensures Collected() == old(Collected()) + TableFacts(functions, values)
    {
      if functions == [] {
        tableStrings := tableStrings + StringsIn(values);
      }
    }
  }

  lemma FactsSplit(dataClass: string, aliases: set<string>, functions: seq<string>, n: Node)
    ensures Facts(dataClass, aliases, functions, n)
         == FactsAt(aliases, functions, n)
            + FactsOfAll(dataClass, Inside(dataClass, aliases, n), Enclosing(functions, n), Children(n))
  {
  }

  lemma UnionIsAssociative(a: set<Fact>, b: set<Fact>, c: set<Fact>)
    ensures a + b + c == a + (b + c)
  {
  }

  lemma AssignedInMore(aliases: set<string>, nodes: seq<Node>, i: nat)
    requires i < |nodes|
    ensures AssignedInAll(aliases, nodes[..i + 1]) == AssignedInAll(aliases, nodes[..i]) + AssignedIn(aliases, nodes[i])
  {
  }

  lemma FactsOfMore(dataClass: string, aliases: set<string>, functions: seq<string>, nodes: seq<Node>, i: nat)
    requires i < |nodes|
    ensures FactsOfAll(dataClass, aliases, functions, nodes[..i + 1])
         == FactsOfAll(dataClass, aliases, functions, nodes[..i]) + Facts(dataClass, aliases, functions, nodes[i])
  {
  }

  // ------------------------------------------------------------------------
  // The fields one module reads
  // ------------------------------------------------------------------------

  /**
   A name is read by a module when some occurrence reads it off the snapshot, or when
   some occurrence reads the snapshot by a computed name and that name is a literal in
   one of the module's tables or is passed to a function around such an occurrence.
   */
  ghost predicate ReadsField(dataClass: string, tree: Node, name: string) {
    || Occurs(dataClass, tree, Read(name))
    || (&& Occurs(dataClass, tree, Dynamic)
        && (|| Occurs(dataClass, tree, Table(name))
            || exists h :: Occurs(dataClass, tree, Helper(h)) && Occurs(dataClass, tree, Passed(h, name))))
  }

  ghost predicate Reports(facts: set<Fact>, name: string) {
    || Read(name) in facts
    || (&& Dynamic in facts
        && (Table(name) in facts || exists h :: Helper(h) in facts && Passed(h, name) in facts))
  }

  lemma ReportsIffReads(dataClass: string, tree: Node, name: string)
    ensures Reports(Facts(dataClass, {}, [], tree), name) <==> ReadsField(dataClass, tree, name)
  {
    CollectedIffOccurs(dataClass, {}, [], tree, Read(name));
    CollectedIffOccurs(dataClass, {}, [], tree, Dynamic);
    CollectedIffOccurs(dataClass, {}, [], tree, Table(name));
    forall h
      ensures Helper(h) in Facts(dataClass, {}, [], tree) <==> Occurs(dataClass, tree, Helper(h))
      ensures Passed(h, name) in Facts(dataClass, {}, [], tree) <==> Occurs(dataClass, tree, Passed(h, name))
    {
      CollectedIffOccurs(dataClass, {}, [], tree, Helper(h));
      CollectedIffOccurs(dataClass, {}, [], tree, Passed(h, name));
    }
  }

  method FieldReads(tree: Node, dataClass: string) returns (names: set<string>)
    ensures forall name :: name in names <==> ReadsField(dataClass, tree, name)
  {
    var visitor := new Visitor(dataClass);
    visitor.Visit(tree);
    names := visitor.Reported();
    assert visitor.Collected() == Facts(dataClass, {}, [], tree);
    forall name ensures name in names <==> ReadsField(dataClass, tree, name) {
      ReportsIffReads(dataClass, tree, name);
    }
  }
}
