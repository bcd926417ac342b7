/** How what is collected depends on the names that stand for the snapshot. */
module CensusLaws {
  import opened Prelude
  import opened ReaderVisitor

  // ------------------------------------------------------------------------
  // More snapshot names never lose a fact
  // ------------------------------------------------------------------------

  lemma {:induction false} BindParamsGrows(dataClass: string, a: set<string>, b: set<string>, params: seq<Param>)
    requires a <= b
    ensures BindParams(dataClass, a, params) <= BindParams(dataClass, b, params)
  {
    if params == [] {
    } else {
      BindParamsGrows(dataClass, a, b, params[..|params| - 1]);
    }
  }

  lemma {:induction false} BindGeneratorsGrows(a: set<string>, b: set<string>, generators: seq<Generator>)
    requires a <= b
    ensures BindGenerators(a, generators) <= BindGenerators(b, generators)
  {
    if generators == [] {
    } else {
      BindGeneratorsGrows(a, b, generators[..|generators| - 1]);
    }
  }

  lemma {:induction false} AssignedGrows(a: set<string>, b: set<string>, n: Node)
    requires a <= b
    ensures AssignedIn(a, n) <= AssignedIn(b, n)
    decreases n
  {
    forall c | c in Children(n)
      ensures AssignedIn(a, c) <= AssignedIn(b, c)
    {
      AssignedGrows(a, b, c);
    }
  }

  lemma InsideGrows(dataClass: string, a: set<string>, b: set<string>, n: Node)
    requires a <= b
    ensures Inside(dataClass, a, n) <= Inside(dataClass, b, n)
  {
    match n
    case Function(_, params, _, body) =>
      var p, q := BindParams(dataClass, a, params), BindParams(dataClass, b, params);
      BindParamsGrows(dataClass, a, b, params);
      forall stmt | stmt in body
        ensures AssignedIn(p, stmt) <= AssignedIn(q, stmt)
      {
        AssignedGrows(p, q, stmt);
      }
    case Comprehension(_, generators) => BindGeneratorsGrows(a, b, generators);
    case _ =>
  }

  lemma {:induction false} MoreAliasesMoreFacts(dataClass: string, a: set<string>, b: set<string>, functions: seq<string>, n: Node)
    requires a <= b
    ensures Facts(dataClass, a, functions, n) <= Facts(dataClass, b, functions, n)
    decreases n
  {
    var p, q := Inside(dataClass, a, n), Inside(dataClass, b, n);
    InsideGrows(dataClass, a, b, n);
    forall c | c in Children(n)
      ensures Facts(dataClass, p, Enclosing(functions, n), c) <= Facts(dataClass, q, Enclosing(functions, n), c)
    {
      MoreAliasesMoreFacts(dataClass, p, q, Enclosing(functions, n), c);
    }
    assert FactsAt(a, functions, n) <= FactsAt(b, functions, n);
  }

  // ------------------------------------------------------------------------
  // Only names that occur matter
  // ------------------------------------------------------------------------

  /** `a` and `b` agree on every name that occurs in `n`. */
  ghost predicate Agree(a: set<string>, b: set<string>, n: Node) {
    forall x :: x in BindingNames(n) ==> (x in a <==> x in b)
  }

  lemma AgreeBelow(a: set<string>, b: set<string>, n: Node, c: Node)
    requires Agree(a, b, n) && c in Children(n)
    ensures Agree(a, b, c)
  {
  }

  lemma {:induction false} BindParamsAgree(dataClass: string, a: set<string>, b: set<string>, params: seq<Param>, x: string)
    requires x in a <==> x in b
    ensures x in BindParams(dataClass, a, params) <==> x in BindParams(dataClass, b, params)
  {
    if params == [] {
    } else {
      BindParamsAgree(dataClass, a, b, params[..|params| - 1], x);
    }
  }

  lemma {:induction false} AssignedAgree(a: set<string>, b: set<string>, n: Node)
    requires Agree(a, b, n)
    ensures AssignedIn(a, n) == AssignedIn(b, n)
    decreases n
  {
    forall c | c in Children(n)
      ensures Agree(a, b, c) && AssignedIn(a, c) == AssignedIn(b, c)
    {
      AgreeBelow(a, b, n, c);
      AssignedAgree(a, b, c);
    }
    if n.Assign? {
      assert n.value in Children(n);
    } else if n.AnnAssign? && n.init.Some? {
      assert n.init.value in Children(n);
    }
  }

  lemma {:induction false} FlattenHas(generators: seq<Generator>, i: nat)
    requires i < |generators|
    ensures generators[i].iter in Flatten(generators)
  {
    if i == 0 {
    } else {
      FlattenHas(generators[1..], i - 1);
    }
  }

  lemma {:induction false} BindGeneratorsAgree(a: set<string>, b: set<string>, n: Node, k: nat, x: string)
    requires n.Comprehension? && k <= |n.generators| && Agree(a, b, n) && x in BindingNames(n)
    ensures x in BindGenerators(a, n.generators[..k]) <==> x in BindGenerators(b, n.generators[..k])
    decreases k
  {
    if k == 0 {
    } else {
      assert n.generators[..k][..k - 1] == n.generators[..k - 1];
      BindGeneratorsAgree(a, b, n, k - 1, x);
      var iter := n.generators[k - 1].iter;
      FlattenHas(n.generators, k - 1);
      assert iter in Children(n);
      if iter.Name? {
        assert iter.id in BindingNames(iter);
        BindGeneratorsAgree(a, b, n, k - 1, iter.id);
      }
    }
  }

  lemma InsideAgree(dataClass: string, a: set<string>, b: set<string>, n: Node, c: Node)
    requires Agree(a, b, n) && c in Children(n)
    ensures Agree(Inside(dataClass, a, n), Inside(dataClass, b, n), c)
  {
    AgreeBelow(a, b, n, c);
    match n
    case Function(_, params, _, body) =>
      var p, q := BindParams(dataClass, a, params), BindParams(dataClass, b, params);
      forall x | x in BindingNames(n)
        ensures x in p <==> x in q
      {
        BindParamsAgree(dataClass, a, b, params, x);
      }
      forall stmt | stmt in body
        ensures AssignedIn(p, stmt) == AssignedIn(q, stmt)
      {
        assert stmt in Children(n);
        AgreeBelow(p, q, n, stmt);
        AssignedAgree(p, q, stmt);
      }
      AgreeBelow(p, q, n, c);
    case Comprehension(_, generators) =>
      forall x | x in BindingNames(c)
        ensures x in Inside(dataClass, a, n) <==> x in Inside(dataClass, b, n)
      {
        assert generators[..|generators|] == generators;
        BindGeneratorsAgree(a, b, n, |generators|, x);
      }
    case _ =>
  }

  lemma {:induction false} OnlyOccurringNamesMatter(dataClass: string, a: set<string>, b: set<string>, functions: seq<string>, n: Node)
    requires Agree(a, b, n)
    ensures Facts(dataClass, a, functions, n) == Facts(dataClass, b, functions, n)
    decreases n
  {
    var p, q := Inside(dataClass, a, n), Inside(dataClass, b, n);
    forall c | c in Children(n)
      ensures Facts(dataClass, p, Enclosing(functions, n), c) == Facts(dataClass, q, Enclosing(functions, n), c)
    {
      InsideAgree(dataClass, a, b, n, c);
      OnlyOccurringNamesMatter(dataClass, p, q, Enclosing(functions, n), c);
    }
    FactsAtAgree(a, b, functions, n);
  }

  lemma SourceAgree(a: set<string>, b: set<string>, n: Node, c: Node)
    requires Agree(a, b, n) && c in Children(n)
    ensures Agree(a, b, c) && (IsSource(a, c) <==> IsSource(b, c))
  {
  }

  lemma FactsAtAgree(a: set<string>, b: set<string>, functions: seq<string>, n: Node)
    requires Agree(a, b, n)
    ensures FactsAt(a, functions, n) == FactsAt(b, functions, n)
  {
    match n
    case Attribute(base, _, _) =>
      SourceAgree(a, b, n, base);
    case AugAssign(into, _) =>
      SourceAgree(a, b, n, into);
      if into.Attribute? {
        SourceAgree(a, b, into, into.base);
      }
    case Call(_, args, _) =>
      if |args| >= 2 {
        SourceAgree(a, b, n, args[0]);
      }
    case _ =>
  }

  // ------------------------------------------------------------------------
  // Facts name by name
  // ------------------------------------------------------------------------

  /** No comprehension inside draws from a bare name: whether it keeps its targets does not depend on the names. */
  ghost predicate Plain(n: Node)
    decreases n
  {
    && (n.Comprehension? ==> forall g :: g in n.generators ==> !g.iter.Name?)
    && forall c :: c in Children(n) ==> Plain(c)
  }

  lemma {:induction false} BindParamsJoin(dataClass: string, a: set<string>, b: set<string>, params: seq<Param>)
    ensures BindParams(dataClass, a + b, params) == BindParams(dataClass, a, params) + BindParams(dataClass, b, params)
  {
    if params == [] {
    } else {
      BindParamsJoin(dataClass, a, b, params[..|params| - 1]);
    }
  }

  lemma {:induction false} BindGeneratorsJoin(a: set<string>, b: set<string>, generators: seq<Generator>)
    requires forall g :: g in generators ==> !g.iter.Name?
    ensures BindGenerators(a + b, generators) == BindGenerators(a, generators) + BindGenerators(b, generators)
  {
    if generators == [] {
    } else {
      BindGeneratorsJoin(a, b, generators[..|generators| - 1]);
    }
  }

  lemma {:induction false} AssignedJoin(a: set<string>, b: set<string>, n: Node, x: string)
    ensures x in AssignedIn(a + b, n) <==> x in AssignedIn(a, n) || x in AssignedIn(b, n)
    decreases n
  {
    forall c | c in Children(n)
      ensures x in AssignedIn(a + b, c) <==> x in AssignedIn(a, c) || x in AssignedIn(b, c)
    {
      AssignedJoin(a, b, c, x);
    }
    AssignedHereJoin(a, b, n, x);
  }

  lemma AssignedHereJoin(a: set<string>, b: set<string>, n: Node, x: string)
    ensures x in AssignedHere(a + b, n) <==> x in AssignedHere(a, n) || x in AssignedHere(b, n)
  {
  }

  lemma InsideJoin(dataClass: string, a: set<string>, b: set<string>, n: Node)
    requires Plain(n)
    ensures Inside(dataClass, a + b, n) == Inside(dataClass, a, n) + Inside(dataClass, b, n)
  {
    match n
    case Function(_, params, _, body) =>
      var p, q := BindParams(dataClass, a, params), BindParams(dataClass, b, params);
      BindParamsJoin(dataClass, a, b, params);
      forall stmt, x | stmt in body
        ensures x in AssignedIn(p + q, stmt) <==> x in AssignedIn(p, stmt) || x in AssignedIn(q, stmt)
      {
        AssignedJoin(p, q, stmt, x);
      }
      assert AssignedInAll(p + q, body) == AssignedInAll(p, body) + AssignedInAll(q, body);
    case Comprehension(_, generators) => BindGeneratorsJoin(a, b, generators);
    case _ =>
  }

  /** In a plain tree the facts of two sets of names taken together are those of each. */
  lemma {:induction false} FactsJoin(dataClass: string, a: set<string>, b: set<string>, functions: seq<string>, n: Node, f: Fact)
    requires Plain(n)
    ensures f in Facts(dataClass, a + b, functions, n)
       <==> f in Facts(dataClass, a, functions, n) || f in Facts(dataClass, b, functions, n)
    decreases n
  {
    var p, q, enclosing := Inside(dataClass, a, n), Inside(dataClass, b, n), Enclosing(functions, n);
    InsideJoin(dataClass, a, b, n);
    forall c | c in Children(n)
      ensures f in Facts(dataClass, p + q, enclosing, c)
         <==> f in Facts(dataClass, p, enclosing, c) || f in Facts(dataClass, q, enclosing, c)
    {
      FactsJoin(dataClass, p, q, enclosing, c, f);
    }
    assert f in FactsAt(a + b, functions, n) <==> f in FactsAt(a, functions, n) || f in FactsAt(b, functions, n);
  }

  /** `f` needs no name, or one of `names` alone. */
  ghost predicate HasFact(dataClass: string, names: set<string>, functions: seq<string>, n: Node, f: Fact) {
    f in Facts(dataClass, {}, functions, n) || exists x :: x in names && f in Facts(dataClass, {x}, functions, n)
  }

  /** In a plain tree, functions, lambdas and loops included, every fact needs at most one name. */
  lemma {:induction false} FactsByName(dataClass: string, names: set<string>, functions: seq<string>, n: Node, f: Fact)
    requires Plain(n)
    ensures f in Facts(dataClass, names, functions, n) <==> HasFact(dataClass, names, functions, n, f)
    decreases |names|
  {
    if names == {} {
    } else {
      var x :| x in names;
      var rest := names - {x};
      assert names == {x} + rest;
      FactsByName(dataClass, rest, functions, n, f);
      FactsJoin(dataClass, {x}, rest, functions, n, f);
      MoreAliasesMoreFacts(dataClass, {}, names, functions, n);
    }
  }

  /** `[y.f for y in x]` */
  function DrawFrom(x: string, y: string, f: string): Node {
    Comprehension([Attribute(Name(y), f, true)], [Generator(Name(y), Name(x), [])])
  }

  lemma DrawFromFacts(dataClass: string, names: set<string>, functions: seq<string>, x: string, y: string, f: string)
    ensures Facts(dataClass, names, functions, DrawFrom(x, y, f)) == if x in names && y in names then {Read(f)} else {}
  {
    var n, g, element := DrawFrom(x, y, f), Generator(Name(y), Name(x), []), Attribute(Name(y), f, true);
    assert Flatten([g]) == [Name(y), Name(x)];
    assert Children(n) == [element] + Flatten([g]) == [element, Name(y), Name(x)];
    assert [g][..|[g]| - 1] == [] && BindGenerators(names, []) == names && BindingNames(Name(y)) == {y};
    var inside := Inside(dataClass, names, n);
    assert inside == if x in names then names else names - {y};
    NameHasNoFacts(dataClass, inside, functions, x);
    NameHasNoFacts(dataClass, inside, functions, y);
    AttributeFacts(dataClass, inside, functions, y, f);
    assert FactsAt(names, functions, n) == {} && Enclosing(functions, n) == functions && element in Children(n);
    assert forall c :: c in Children(n) ==> Facts(dataClass, inside, functions, c) <= Facts(dataClass, inside, functions, element);
    assert y in inside <==> x in names && y in names;
    assert Facts(dataClass, names, functions, n) == Facts(dataClass, inside, functions, element);
  }

  lemma NameHasNoFacts(dataClass: string, names: set<string>, functions: seq<string>, x: string)
    ensures Facts(dataClass, names, functions, Name(x)) == {}
  {
    assert Children(Name(x)) == [];
  }

  lemma AttributeFacts(dataClass: string, names: set<string>, functions: seq<string>, x: string, f: string)
    ensures Facts(dataClass, names, functions, Attribute(Name(x), f, true)) == if x in names then {Read(f)} else {}
  {
    assert Children(Attribute(Name(x), f, true)) == [Name(x)];
    NameHasNoFacts(dataClass, names, functions, x);
  }

  /** Not so where a comprehension draws from a name: `[y.f for y in x]` needs both x and y. */
  lemma NamedGenerator(dataClass: string, functions: seq<string>, x: string, y: string, f: string)
    requires x != y
    ensures Read(f) in Facts(dataClass, {x, y}, functions, DrawFrom(x, y, f))
    ensures !HasFact(dataClass, {x, y}, functions, DrawFrom(x, y, f), Read(f))
  {
    DrawFromFacts(dataClass, {x, y}, functions, x, y, f);
    DrawFromFacts(dataClass, {}, functions, x, y, f);
    DrawFromFacts(dataClass, {x}, functions, x, y, f);
    DrawFromFacts(dataClass, {y}, functions, x, y, f);
  }

  // ------------------------------------------------------------------------
  // The iterable of a loop
  // ------------------------------------------------------------------------

  /** A loop leaves its iterable's facts alone when the target rebinds no snapshot name the iterable uses. */
  lemma IterableKept(dataClass: string, aliases: set<string>, functions: seq<string>, loop: Node)
    requires loop.For? && BindingNames(loop.bound) * BindingNames(loop.over) * aliases == {}
    ensures Facts(dataClass, Inside(dataClass, aliases, loop), functions, loop.over)
         == Facts(dataClass, aliases, functions, loop.over)
  {
    OnlyOccurringNamesMatter(dataClass, Inside(dataClass, aliases, loop), aliases, functions, loop.over);
  }

  /** Everything `n` has through a name of `gone` it also has without one, or through another of `names`. */
  ghost predicate Dispensable(dataClass: string, names: set<string>, gone: set<string>, functions: seq<string>, n: Node) {
    forall x, f :: x in names && x in gone && f in Facts(dataClass, {x}, functions, n)
                   ==> HasFact(dataClass, names - gone, functions, n, f)
  }

  lemma NamesKeptIff(dataClass: string, names: set<string>, gone: set<string>, functions: seq<string>, n: Node)
    requires Plain(n)
    ensures Facts(dataClass, names - gone, functions, n) == Facts(dataClass, names, functions, n)
       <==> Dispensable(dataClass, names, gone, functions, n)
  {
    forall f
      ensures f in Facts(dataClass, names, functions, n) <==> HasFact(dataClass, names, functions, n, f)
      ensures f in Facts(dataClass, names - gone, functions, n) <==> HasFact(dataClass, names - gone, functions, n, f)
    {
      FactsByName(dataClass, names, functions, n, f);
      FactsByName(dataClass, names - gone, functions, n, f);
    }
    MoreAliasesMoreFacts(dataClass, names - gone, names, functions, n);
    if Dispensable(dataClass, names, gone, functions, n) {
      forall f | f in Facts(dataClass, names, functions, n) ensures f in Facts(dataClass, names - gone, functions, n) {
        assert HasFact(dataClass, names, functions, n, f);
        assert HasFact(dataClass, names - gone, functions, n, f);
      }
    }
    if Facts(dataClass, names - gone, functions, n) == Facts(dataClass, names, functions, n) {
      forall x, f | x in names && x in gone && f in Facts(dataClass, {x}, functions, n)
        ensures HasFact(dataClass, names - gone, functions, n, f)
      {
        assert HasFact(dataClass, names, functions, n, f);
        assert f in Facts(dataClass, names, functions, n);
      }
    }
  }

  /** The names `s`, together and none without the others, give `f`. */
  ghost predicate Needs(dataClass: string, s: set<string>, functions: seq<string>, n: Node, f: Fact) {
    && f in Facts(dataClass, s, functions, n)
    && forall x :: x in s ==> f !in Facts(dataClass, s - {x}, functions, n)
  }

  lemma {:induction false} SomeNeeds(dataClass: string, names: set<string>, functions: seq<string>, n: Node, f: Fact) returns (s: set<string>)
    ensures s <= names
    ensures f in Facts(dataClass, names, functions, n) ==> Needs(dataClass, s, functions, n, f)
    decreases |names|
  {
    if x :| x in names && f in Facts(dataClass, names - {x}, functions, n) {
      s := SomeNeeds(dataClass, names - {x}, functions, n, f);
    } else {
      s := names;
    }
  }

  /** Whatever names meeting `gone` give a fact, some names that stay give it as well. */
  ghost predicate Replaceable(dataClass: string, names: set<string>, gone: set<string>, functions: seq<string>, n: Node) {
    forall s, f :: s <= names && s * gone != {} && Needs(dataClass, s, functions, n, f) ==> GivenBy(dataClass, names - gone, functions, n, f)
  }

  ghost predicate GivenBy(dataClass: string, names: set<string>, functions: seq<string>, n: Node, f: Fact) {
    exists t :: t <= names && Needs(dataClass, t, functions, n, f)
  }

  lemma GivenByIff(dataClass: string, names: set<string>, functions: seq<string>, n: Node, f: Fact)
    ensures f in Facts(dataClass, names, functions, n) <==> GivenBy(dataClass, names, functions, n, f)
  {
    if f in Facts(dataClass, names, functions, n) {
      var s := SomeNeeds(dataClass, names, functions, n, f);
    }
    if t :| t <= names && Needs(dataClass, t, functions, n, f) {
      MoreAliasesMoreFacts(dataClass, t, names, functions, n);
    }
  }

  lemma StaysGiven(dataClass: string, names: set<string>, gone: set<string>, functions: seq<string>, n: Node, f: Fact)
    ensures Replaceable(dataClass, names, gone, functions, n) && f in Facts(dataClass, names, functions, n)
        ==> f in Facts(dataClass, names - gone, functions, n)
  {
    GivenByIff(dataClass, names - gone, functions, n, f);
    if f in Facts(dataClass, names, functions, n) {
      var s := SomeNeeds(dataClass, names, functions, n, f);
      if s * gone == {} {
        forall x | x in s ensures x in names - gone {
          assert x !in s * gone;
        }
        assert GivenBy(dataClass, names - gone, functions, n, f);
      }
    }
  }

  lemma WasGiven(dataClass: string, names: set<string>, s: set<string>, functions: seq<string>, n: Node, f: Fact)
    ensures s <= names && Needs(dataClass, s, functions, n, f) ==> f in Facts(dataClass, names, functions, n)
  {
    GivenByIff(dataClass, names, functions, n, f);
  }

  /** In any tree: taking `gone` away loses nothing exactly when what is given through it is replaceable. */
  lemma FactsKeptIff(dataClass: string, names: set<string>, gone: set<string>, functions: seq<string>, n: Node)
    ensures Facts(dataClass, names - gone, functions, n) == Facts(dataClass, names, functions, n)
       <==> Replaceable(dataClass, names, gone, functions, n)
  {
    MoreAliasesMoreFacts(dataClass, names - gone, names, functions, n);
    if Replaceable(dataClass, names, gone, functions, n) {
      forall f | f in Facts(dataClass, names, functions, n) ensures f in Facts(dataClass, names - gone, functions, n) {
        StaysGiven(dataClass, names, gone, functions, n, f);
      }
    } else {
      var s, f :| s <= names && s * gone != {} && Needs(dataClass, s, functions, n, f) && !GivenBy(dataClass, names - gone, functions, n, f);
      WasGiven(dataClass, names, s, functions, n, f);
      GivenByIff(dataClass, names - gone, functions, n, f);
    }
  }

  /** What fewer names give is not needed of more. */
  lemma NeedsNoFewer(dataClass: string, s: set<string>, t: set<string>, functions: seq<string>, n: Node, f: Fact)
    ensures t <= s && f in Facts(dataClass, t, functions, n) && Needs(dataClass, s, functions, n, f) ==> t == s
  {
    forall x | x in s && x !in t && t <= s && f in Facts(dataClass, t, functions, n)
      ensures f in Facts(dataClass, s - {x}, functions, n)
    {
      MoreAliasesMoreFacts(dataClass, t, s - {x}, functions, n);
    }
  }

  lemma OneGives(dataClass: string, s: set<string>, functions: seq<string>, n: Node, f: Fact) returns (t: set<string>)
    requires Plain(n)
    ensures f in Facts(dataClass, s, functions, n) ==> t <= s && |t| <= 1 && f in Facts(dataClass, t, functions, n)
  {
    FactsByName(dataClass, s, functions, n, f);
    t := {};
    if y :| y in s && f in Facts(dataClass, {y}, functions, n) {
      t := {y};
    }
  }

  /** In a plain tree a fact needs no name or one. */
  lemma PlainNeedsOne(dataClass: string, s: set<string>, functions: seq<string>, n: Node, f: Fact)
    requires Plain(n)
    ensures Needs(dataClass, s, functions, n, f) ==> |s| <= 1
  {
    var t := OneGives(dataClass, s, functions, n, f);
    NeedsNoFewer(dataClass, s, t, functions, n, f);
  }

  /**
   Exactly when a loop keeps its iterable's facts: whatever names give one, the target
   rebinding some of them, some names that it does not rebind give it as well.
   */
  lemma IterableKeptIff(dataClass: string, aliases: set<string>, functions: seq<string>, loop: Node)
    requires loop.For?
    ensures Facts(dataClass, Inside(dataClass, aliases, loop), functions, loop.over) == Facts(dataClass, aliases, functions, loop.over)
       <==> Replaceable(dataClass, aliases, BindingNames(loop.bound), functions, loop.over)
  {
    FactsKeptIff(dataClass, aliases, BindingNames(loop.bound), functions, loop.over);
  }

  /** For a plain iterable it is enough to look at the names one by one. */
  lemma PlainIterableKeptIff(dataClass: string, aliases: set<string>, functions: seq<string>, loop: Node)
    requires loop.For? && Plain(loop.over)
    ensures Facts(dataClass, Inside(dataClass, aliases, loop), functions, loop.over) == Facts(dataClass, aliases, functions, loop.over)
       <==> Dispensable(dataClass, aliases, BindingNames(loop.bound), functions, loop.over)
  {
    NamesKeptIff(dataClass, aliases, BindingNames(loop.bound), functions, loop.over);
  }

  /** Beyond plain iterables names act together: `for x in [y.f for y in x]` loses f, which neither name gives alone. */
  lemma NamesActTogether(dataClass: string, functions: seq<string>, x: string, y: string, f: string)
    requires x != y
    ensures var loop := For(Name(x), DrawFrom(x, y, f), []);
            && Dispensable(dataClass, {x, y}, BindingNames(loop.bound), functions, loop.over)
            && Facts(dataClass, {x, y}, functions, loop.over) == {Read(f)}
            && Facts(dataClass, Inside(dataClass, {x, y}, loop), functions, loop.over) == {}
  {
    assert BindingNames(Name(x)) == {x} && {x, y} - {x} == {y};
    DrawFromFacts(dataClass, {x, y}, functions, x, y, f);
    DrawFromFacts(dataClass, {x}, functions, x, y, f);
    DrawFromFacts(dataClass, {y}, functions, x, y, f);
  }

  /** The path crosses no scope. */
  ghost predicate InPlace(n: Node, path: seq<nat>)
    requires IsPath(n, path)
    decreases path
  {
    path == [] || (!n.Function? && !n.Comprehension? && !n.For? && InPlace(Children(n)[path[0]], path[1..]))
  }

  lemma {:induction false} SameNamesInPlace(dataClass: string, aliases: set<string>, n: Node, path: seq<nat>)
    requires IsPath(n, path) && InPlace(n, path)
    ensures AliasesAt(dataClass, aliases, n, path) == aliases
    decreases path
  {
    if path == [] {
    } else {
      SameNamesInPlace(dataClass, aliases, Children(n)[path[0]], path[1..]);
    }
  }

  /** In any iterable, a read x.f outside inner scopes is recorded exactly when x is the snapshot and the target does not bind x. */
  lemma DirectRead(dataClass: string, aliases: set<string>, functions: seq<string>, loop: Node, path: seq<nat>, x: string, f: string)
    requires loop.For? && IsPath(loop.over, path) && InPlace(loop.over, path)
    requires NodeAt(loop.over, path) == Attribute(Name(x), f, true)
    ensures OccursAt(dataClass, Inside(dataClass, aliases, loop), functions, loop.over, path, Read(f))
       <==> x in aliases && x !in BindingNames(loop.bound)
  {
    SameNamesInPlace(dataClass, Inside(dataClass, aliases, loop), loop.over, path);
  }

  // ------------------------------------------------------------------------
  // What Python evaluates outside a scope
  // ------------------------------------------------------------------------

  /** Evaluated before the scope opens: a loop's iterable, the first generator's, a function's decorators, defaults and annotations. */
  ghost predicate IsOuterPart(c: Node, n: Node) {
    match n
    case For(_, over, _) => c == over
    case Comprehension(_, generators) => generators != [] && c == generators[0].iter
    case Function(_, _, extras, _) => c in extras
    case _ => false
  }

  lemma OuterPartIsChild(n: Node, c: Node)
    requires IsOuterPart(c, n)
    ensures c in Children(n)
  {
    if n.Comprehension? {
      FlattenHas(n.generators, 0);
    }
  }

  /**
   A read x.f in such a part, outside further scopes, is recorded exactly when x is the
   snapshot inside, although it is read outside.
   */
  lemma OuterRead(dataClass: string, aliases: set<string>, functions: seq<string>, n: Node, i: nat, path: seq<nat>, x: string, f: string)
    requires i < |Children(n)| && IsOuterPart(Children(n)[i], n)
    requires IsPath(Children(n)[i], path) && InPlace(Children(n)[i], path) && NodeAt(Children(n)[i], path) == Attribute(Name(x), f, true)
    ensures OccursAt(dataClass, aliases, functions, n, [i] + path, Read(f)) <==> x in Inside(dataClass, aliases, n)
  {
    var whole := [i] + path;
    assert whole[1..] == path;
    SameNamesInPlace(dataClass, Inside(dataClass, aliases, n), Children(n)[i], path);
    assert AliasesAt(dataClass, aliases, n, whole) == Inside(dataClass, aliases, n) && NodeAt(n, whole) == Attribute(Name(x), f, true);
  }

  /** `[... for d in d.f]` */
  function DrawFromField(d: string, f: string): Node {
    Comprehension([], [Generator(Name(d), Attribute(Name(d), f, true), [])])
  }

  /** `def h(d=d.f)` */
  function DefaultFromField(h: string, d: string, f: string): Node {
    Function(h, [Param(d, None)], [Attribute(Name(d), f, true)], [])
  }

  /** Such a read is lost in a comprehension, where it is not of the snapshot itself, and in a default. */
  lemma OuterReadsLost(dataClass: string, functions: seq<string>, d: string, f: string, h: string)
    ensures Facts(dataClass, {d}, functions, Attribute(Name(d), f, true)) == {Read(f)}
    ensures f != "data" ==> Facts(dataClass, {d}, functions, DrawFromField(d, f)) == {}
    ensures d != "data" ==> Facts(dataClass, {d}, functions, DefaultFromField(h, d, f)) == {}
  {
    AttributeFacts(dataClass, {d}, functions, d, f);
    if f != "data" {
      DrawsLost(dataClass, functions, d, f);
    }
    if d != "data" {
      DefaultLost(dataClass, functions, d, f, h);
    }
  }

  lemma DrawsLost(dataClass: string, functions: seq<string>, d: string, f: string)
    requires f != "data"
    ensures Facts(dataClass, {d}, functions, DrawFromField(d, f)) == {}
  {
    var n, iter := DrawFromField(d, f), Attribute(Name(d), f, true);
    var g := Generator(Name(d), iter, []);
    assert Flatten([g]) == [Name(d), iter];
    assert Children(n) == [] + Flatten([g]) == [Name(d), iter];
    assert [g][..|[g]| - 1] == [] && BindGenerators({d}, []) == {d} && BindingNames(Name(d)) == {d};
    assert Inside(dataClass, {d}, n) == {} && FactsAt({d}, functions, n) == {} && Enclosing(functions, n) == functions;
    NameHasNoFacts(dataClass, {}, functions, d);
    AttributeFacts(dataClass, {}, functions, d, f);
    assert forall c :: c in Children(n) ==> Facts(dataClass, {}, functions, c) == {};
  }

  lemma DefaultLost(dataClass: string, functions: seq<string>, d: string, f: string, h: string)
    requires d != "data"
    ensures Facts(dataClass, {d}, functions, DefaultFromField(h, d, f)) == {}
  {
    var n, initial, p := DefaultFromField(h, d, f), Attribute(Name(d), f, true), Param(d, None);
    assert [p][..|[p]| - 1] == [] && BindParams(dataClass, {d}, []) == {d} && BindParams(dataClass, {d}, [p]) == {};
    assert Children(n) == [initial] && Inside(dataClass, {d}, n) == {};
    AttributeFacts(dataClass, {}, functions + [h], d, f);
  }

  /** Such a read is lost in `for d in d.f`: the visitor has already dropped d and reports nothing. */
  lemma IterableLost(dataClass: string, functions: seq<string>, d: string, f: string)
    ensures var over := Attribute(Name(d), f, true);
            && Read(f) in Facts(dataClass, {d}, functions, over)
            && Facts(dataClass, {d}, functions, For(Name(d), over, [])) == {}
  {
    var over := Attribute(Name(d), f, true);
    var loop := For(Name(d), over, []);
    assert Children(loop) == [Name(d), over] && Inside(dataClass, {d}, loop) == {};
    assert Children(over) == [Name(d)] && Children(Name(d)) == [];
    assert Facts(dataClass, {}, functions, Name(d)) == {};
    assert Facts(dataClass, {}, functions, over) == {};
  }
}
