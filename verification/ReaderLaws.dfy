/** What a read of the census is, in terms of the module's text alone. */
module ReaderLaws {
  import opened Prelude
  import opened ReaderVisitor
  import opened CensusLaws
  import opened ReaderCensus

  // ------------------------------------------------------------------------
  // Parts of a tree
  // ------------------------------------------------------------------------

  ghost predicate PartOfGenerator(c: Node, g: Generator) {
    c == g.target || c == g.iter || c in g.ifs
  }

  /** `c` stands directly in `n`. */
  ghost predicate IsPart(c: Node, n: Node) {
    match n
    case Name(_) => false
    case Str(_) => false
    case Attribute(base, _, _) => c == base
    case Call(func, args, keywords) => c == func || c in args || c in keywords
    case Assign(targets, value) => c in targets || c == value
    case AnnAssign(target, annotation, init) => c == target || c == annotation || init == Some(c)
    case AugAssign(into, operand) => c == into || c == operand
    case Function(_, _, extras, body) => c in extras || c in body
    case Comprehension(elements, generators) => c in elements || exists g :: g in generators && PartOfGenerator(c, g)
    case For(bound, over, block) => c == bound || c == over || c in block
    case Other(children) => c in children
  }

  lemma {:induction false} PartsOfGenerators(generators: seq<Generator>, c: Node)
    ensures c in Flatten(generators) <==> exists g :: g in generators && PartOfGenerator(c, g)
  {
    if generators == [] {
    } else {
      PartsOfGenerators(generators[1..], c);
      assert forall g :: g in generators <==> g == generators[0] || g in generators[1..];
    }
  }

  /** The walk reaches every part of a node, and nothing else. */
  lemma VisitsEveryPart(n: Node, c: Node)
    ensures c in Children(n) <==> IsPart(c, n)
  {
    if n.Comprehension? {
      PartsOfGenerators(n.generators, c);
    }
  }

  /** `m` stands somewhere in `n`. */
  ghost predicate Holds(n: Node, m: Node) {
    exists path :: IsPath(n, path) && NodeAt(n, path) == m
  }

  lemma HoldsIff(n: Node, m: Node)
    ensures Holds(n, m) <==> n == m || exists c :: c in Children(n) && Holds(c, m)
  {
    assert IsPath(n, []) && NodeAt(n, []) == n;
    if path :| IsPath(n, path) && NodeAt(n, path) == m {
      if path != [] {
        var c := Children(n)[path[0]];
        assert IsPath(c, path[1..]) && NodeAt(c, path[1..]) == m;
        assert c in Children(n) && Holds(c, m);
      }
    }
    if c :| c in Children(n) && Holds(c, m) {
      var i :| 0 <= i < |Children(n)| && Children(n)[i] == c;
      var rest :| IsPath(c, rest) && NodeAt(c, rest) == m;
      var path := [i] + rest;
      assert path[1..] == rest && IsPath(n, path) && NodeAt(n, path) == m;
    }
  }

  /** A target binds x exactly when the name stands somewhere in it. */
  lemma {:induction false} BindsIff(n: Node, x: string)
    ensures x in BindingNames(n) <==> Holds(n, Name(x))
    decreases n
  {
    HoldsIff(n, Name(x));
    forall c | c in Children(n) ensures x in BindingNames(c) <==> Holds(c, Name(x)) {
      BindsIff(c, x);
    }
  }

  lemma {:induction false} LiteralIff(n: Node, t: string)
    ensures t in Strings(n) <==> Holds(n, Str(t))
    decreases n
  {
    HoldsIff(n, Str(t));
    forall c | c in Children(n) ensures t in Strings(c) <==> Holds(c, Str(t)) {
      LiteralIff(c, t);
    }
  }

  // ------------------------------------------------------------------------
  // What one node contributes
  // ------------------------------------------------------------------------

  /** An attribute called `data`, or one of the names. */
  ghost predicate IsSnapshot(names: set<string>, n: Node) {
    || (exists base, load :: n == Attribute(base, "data", load))
    || (exists x :: x in names && n == Name(x))
  }

  /** `getattr(<snapshot>, key, ...)` */
  ghost predicate AsksFor(names: set<string>, n: Node, key: Node) {
    n.Call? && n.func == Name("getattr") && |n.args| >= 2 && IsSnapshot(names, n.args[0]) && n.args[1] == key
  }

  /** Loaded off the snapshot, updated in place, or asked for by a literal. */
  ghost predicate ReadsHere(names: set<string>, n: Node, f: string) {
    || (exists base :: n == Attribute(base, f, true) && IsSnapshot(names, base))
    || (exists base, load, operand :: n == AugAssign(Attribute(base, f, load), operand) && IsSnapshot(names, base))
    || AsksFor(names, n, Str(f))
  }

  lemma ReadIff(names: set<string>, functions: seq<string>, n: Node, f: string)
    ensures Read(f) in FactsAt(names, functions, n) <==> ReadsHere(names, n, f)
  {
    match n
    case Attribute(base, attr, load) =>
      SnapshotIff(names, base);
      assert n == Attribute(base, attr, load);
    case AugAssign(into, operand) =>
      if into.Attribute? {
        SnapshotIff(names, into.base);
        assert n == AugAssign(Attribute(into.base, into.attr, into.load), operand);
      }
    case Call(_, args, _) =>
      if |args| >= 2 {
        SnapshotIff(names, args[0]);
      }
    case _ =>
  }

  lemma SnapshotIff(names: set<string>, n: Node)
    ensures IsSource(names, n) <==> IsSnapshot(names, n)
  {
    match n
    case Attribute(base, attr, load) => assert n == Attribute(base, attr, load);
    case Name(x) => assert n == Name(x);
    case _ =>
  }

  /** Asked for by anything but a literal. */
  ghost predicate AsksByName(names: set<string>, n: Node) {
    exists key: Node :: AsksFor(names, n, key) && !key.Str?
  }

  lemma DynamicIff(names: set<string>, functions: seq<string>, n: Node, h: string)
    ensures Dynamic in FactsAt(names, functions, n) <==> AsksByName(names, n)
    ensures Helper(h) in FactsAt(names, functions, n) <==> AsksByName(names, n) && h in functions
  {
    if n.Call? && |n.args| >= 2 {
      SnapshotIff(names, n.args[0]);
      assert AsksFor(names, n, n.args[1]) <==> n.func == Name("getattr") && IsSnapshot(names, n.args[0]);
    }
  }

  /** Called by this name, or as an attribute of this name. */
  ghost predicate Calls(n: Node, callee: string) {
    n.Call? && (n.func == Name(callee) || exists base, load :: n.func == Attribute(base, callee, load))
  }

  lemma PassedIff(names: set<string>, functions: seq<string>, n: Node, callee: string, t: string)
    ensures Passed(callee, t) in FactsAt(names, functions, n)
       <==> Calls(n, callee) && exists a :: (a in n.args || a in n.keywords) && Holds(a, Str(t))
  {
    if n.Call? {
      CalleeIff(n.func, callee);
      forall a | a in n.args + n.keywords ensures t in Strings(a) <==> Holds(a, Str(t)) {
        LiteralIff(a, t);
      }
    }
  }

  lemma CalleeIff(func: Node, callee: string)
    ensures Callee(func) == Some(callee) <==> func == Name(callee) || exists base, load :: func == Attribute(base, callee, load)
  {
    match func
    case Attribute(base, attr, load) => assert func == Attribute(base, attr, load);
    case _ =>
  }

  /** The value of an assignment. */
  ghost predicate Assigns(n: Node, value: Node) {
    (n.Assign? && n.value == value) || (n.AnnAssign? && n.init == Some(value))
  }

  lemma TableIff(names: set<string>, functions: seq<string>, n: Node, t: string)
    ensures Table(t) in FactsAt(names, functions, n)
       <==> functions == [] && exists value :: Assigns(n, value) && Holds(value, Str(t))
  {
    if n.Assign? {
      LiteralIff(n.value, t);
      assert Assigns(n, n.value);
    } else if n.AnnAssign? && n.init.Some? {
      LiteralIff(n.init.value, t);
      assert Assigns(n, n.init.value);
    }
  }

  // ------------------------------------------------------------------------
  // The names inside a function
  // ------------------------------------------------------------------------

  ghost predicate HasPart(text: string, part: string) {
    exists before, after :: text == before + part + after
  }

  lemma ContainsIff(text: string, part: string)
    ensures Contains(text, part) <==> HasPart(text, part)
  {
    if i :| 0 <= i <= |text| && part <= text[i..] {
      var after := text[i + |part|..];
      assert text[i..] == part + after;
      assert text == text[..i] + part + after;
    }
    if before, after :| text == before + part + after {
      assert text[|before|..] == part + after;
    }
  }

  /** Called `data` and not annotated as something definite, or annotated with the data class. */
  ghost predicate TakesSnapshot(dataClass: string, p: Param) {
    || (p.name == "data" && p.annotation in {None, Some("Any"), Some("object")})
    || (p.annotation.Some? && HasPart(p.annotation.value, dataClass))
  }

  /** `p` is the last of the parameters called so. */
  ghost predicate LastCalled(params: seq<Param>, p: Param) {
    exists k :: 0 <= k < |params| && params[k] == p && forall j :: k < j < |params| ==> params[j].name != p.name
  }

  /** By the last parameter called x if there is one, and otherwise as outside. */
  ghost predicate Taken(dataClass: string, names: set<string>, params: seq<Param>, x: string) {
    || (exists p :: LastCalled(params, p) && p.name == x && TakesSnapshot(dataClass, p))
    || (x in names && forall p :: p in params ==> p.name != x)
  }

  lemma {:induction false} TakenIff(dataClass: string, names: set<string>, params: seq<Param>, x: string)
    ensures x in BindParams(dataClass, names, params) <==> Taken(dataClass, names, params, x)
  {
    if params == [] {
    } else {
      var rest, p := params[..|params| - 1], params[|params| - 1];
      TakenIff(dataClass, names, rest, x);
      TakesIff(dataClass, p);
      assert params == rest + [p];
      if p.name == x {
        LastIsLast(rest, p);
      } else {
        TakenByOther(dataClass, names, rest, p, x);
      }
    }
  }

  lemma TakesIff(dataClass: string, p: Param)
    ensures ParamIsSnapshot(dataClass, p) <==> TakesSnapshot(dataClass, p)
  {
    if p.annotation.Some? {
      ContainsIff(p.annotation.value, dataClass);
    }
  }

  lemma LastIsLast(rest: seq<Param>, p: Param)
    ensures forall q: Param :: q.name == p.name ==> (LastCalled(rest + [p], q) <==> q == p)
  {
    var params := rest + [p];
    assert params[|rest|] == p;
    forall q: Param | q.name == p.name ensures LastCalled(params, q) <==> q == p {
      if LastCalled(params, q) {
        var k :| 0 <= k < |params| && params[k] == q && forall j :: k < j < |params| ==> params[j].name != q.name;
        assert k >= |rest|;
      }
    }
  }

  lemma OtherIsLast(rest: seq<Param>, p: Param, q: Param)
    requires p.name != q.name
    ensures LastCalled(rest + [p], q) <==> LastCalled(rest, q)
  {
    var params := rest + [p];
    if LastCalled(rest, q) {
      var k :| 0 <= k < |rest| && rest[k] == q && forall j :: k < j < |rest| ==> rest[j].name != q.name;
      assert params[k] == q && forall j :: k < j < |params| ==> params[j].name != q.name;
    }
    if LastCalled(params, q) {
      var k :| 0 <= k < |params| && params[k] == q && forall j :: k < j < |params| ==> params[j].name != q.name;
      assert k < |rest| && rest[k] == q && forall j :: k < j < |rest| ==> rest[j] == params[j];
    }
  }

  lemma TakenByOther(dataClass: string, names: set<string>, rest: seq<Param>, p: Param, x: string)
    requires p.name != x
    ensures Taken(dataClass, names, rest + [p], x) <==> Taken(dataClass, names, rest, x)
  {
    forall q: Param | q.name == x ensures LastCalled(rest + [p], q) <==> LastCalled(rest, q) {
      OtherIsLast(rest, p, q);
    }
    assert forall q :: q in rest + [p] <==> q in rest || q == p;
  }

  /** The names that stand for the snapshot once the parameters are bound. */
  ghost function TakenNames(dataClass: string, names: set<string>, params: seq<Param>): set<string> {
    set x | x in names + (set p | p in params :: p.name) && Taken(dataClass, names, params, x)
  }

  lemma TakenNamesIff(dataClass: string, names: set<string>, params: seq<Param>)
    ensures BindParams(dataClass, names, params) == TakenNames(dataClass, names, params)
  {
    forall x ensures x in BindParams(dataClass, names, params) <==> x in TakenNames(dataClass, names, params) {
      TakenIff(dataClass, names, params, x);
      if Taken(dataClass, names, params, x) && x !in names {
        var p :| LastCalled(params, p) && p.name == x;
        assert p in params;
      }
    }
  }

  /** An assignment to the bare name x. */
  ghost predicate AssignsTo(n: Node, x: string) {
    (n.Assign? && Name(x) in n.targets) || (n.AnnAssign? && n.target == Name(x))
  }

  /** Somewhere in `n`, x is assigned the snapshot. */
  ghost predicate AssignsSnapshot(names: set<string>, n: Node, x: string) {
    exists m, value :: Holds(n, m) && AssignsTo(m, x) && Assigns(m, value) && IsSnapshot(names, value)
  }

  lemma AssignedHereIff(names: set<string>, n: Node, x: string)
    ensures x in AssignedHere(names, n) <==> AssignsTo(n, x) && exists value :: Assigns(n, value) && IsSnapshot(names, value)
  {
    match n
    case Assign(targets, value) =>
      SnapshotIff(names, value);
      assert Assigns(n, value);
      assert x in (set t | t in targets && t.Name? :: t.id) <==> Name(x) in targets;
    case AnnAssign(target, _, Some(init)) =>
      SnapshotIff(names, init);
      assert Assigns(n, init);
    case _ =>
  }

  lemma {:induction false} AssignedIff(names: set<string>, n: Node, x: string)
    ensures x in AssignedIn(names, n) <==> AssignsSnapshot(names, n, x)
    decreases n
  {
    AssignedHereIff(names, n, x);
    forall c | c in Children(n) ensures x in AssignedIn(names, c) <==> AssignsSnapshot(names, c, x) {
      AssignedIff(names, c, x);
    }
    forall m ensures Holds(n, m) <==> n == m || exists c :: c in Children(n) && Holds(c, m) {
      HoldsIff(n, m);
    }
  }

  /**
   Inside a function x stands for the snapshot exactly when the last parameter called x
   takes it, or without one x does outside, or a statement anywhere in the body assigns it.
   */
  lemma InsideIff(dataClass: string, names: set<string>, n: Node, x: string)
    requires n.Function?
    ensures x in Inside(dataClass, names, n)
       <==> || Taken(dataClass, names, n.params, x)
            || exists s :: s in n.body && AssignsSnapshot(TakenNames(dataClass, names, n.params), s, x)
  {
    TakenNamesIff(dataClass, names, n.params);
    TakenIff(dataClass, names, n.params, x);
    forall s | s in n.body
      ensures x in AssignedIn(BindParams(dataClass, names, n.params), s) <==> AssignsSnapshot(TakenNames(dataClass, names, n.params), s, x)
    {
      AssignedIff(BindParams(dataClass, names, n.params), s, x);
    }
  }

  // ------------------------------------------------------------------------
  // A read in a function of the module
  // ------------------------------------------------------------------------

  lemma OccursStep(dataClass: string, names: set<string>, functions: seq<string>, n: Node, i: nat, rest: seq<nat>, fact: Fact)
    requires i < |Children(n)|
    ensures OccursAt(dataClass, names, functions, n, [i] + rest, fact)
       <==> OccursAt(dataClass, Inside(dataClass, names, n), Enclosing(functions, n), Children(n)[i], rest, fact)
  {
    var path := [i] + rest;
    assert path[1..] == rest && (IsPath(n, path) <==> IsPath(Children(n)[i], rest));
  }

  lemma {:induction false} OccursDeeper(dataClass: string, names: set<string>, functions: seq<string>, tree: Node, above: seq<nat>, below: seq<nat>, fact: Fact)
    requires IsPath(tree, above)
    ensures OccursAt(dataClass, names, functions, tree, above + below, fact)
       <==> OccursAt(dataClass, AliasesAt(dataClass, names, tree, above), FunctionsAt(functions, tree, above), NodeAt(tree, above), below, fact)
    decreases above
  {
    if above == [] {
      assert above + below == below;
    } else {
      var i, rest := above[0], above[1..];
      assert above + below == [i] + (rest + below);
      OccursStep(dataClass, names, functions, tree, i, rest + below, fact);
      OccursDeeper(dataClass, Inside(dataClass, names, tree), Enclosing(functions, tree), Children(tree)[i], rest, below, fact);
    }
  }

  /** At `path` in the tree stands the function `n`, and at `[i] + below` in it, in its body, the read x.f, with no scope between. */
  ghost predicate ReadInBody(tree: Node, path: seq<nat>, n: Node, i: nat, below: seq<nat>, x: string, f: string) {
    && IsPath(tree, path) && NodeAt(tree, path) == n && n.Function?
    && i < |n.body| && IsPath(n.body[i], below) && InPlace(n.body[i], below)
    && NodeAt(n.body[i], below) == Attribute(Name(x), f, true)
  }

  /** Where such a read stands in the tree. */
  function Whole(path: seq<nat>, n: Node, i: nat, below: seq<nat>): seq<nat>
    requires n.Function?
  {
    path + [|n.extras| + i] + below
  }

  lemma BodyReadIff(dataClass: string, names: set<string>, functions: seq<string>, n: Node, i: nat, below: seq<nat>, x: string, f: string)
    requires ReadInBody(n, [], n, i, below, x, f)
    ensures OccursAt(dataClass, names, functions, n, [|n.extras| + i] + below, Read(f)) <==> x in Inside(dataClass, names, n)
  {
    var inside, path := Inside(dataClass, names, n), [|n.extras| + i] + below;
    assert path[1..] == below && Children(n)[path[0]] == n.body[i];
    SameNamesInPlace(dataClass, inside, n.body[i], below);
    ReadIff(inside, FunctionsAt(functions, n, path), Attribute(Name(x), f, true), f);
    assert IsSnapshot(inside, Name(x)) <==> x in inside;
  }

  /**
   A read x.f in a function's body, x being a parameter: recorded exactly when the last
   parameter called x takes the snapshot, or a statement of the body assigns x from it.
   Whatever is recorded is reported.
   */
  lemma ParameterRead(dataClass: string, tree: Node, path: seq<nat>, n: Node, i: nat, below: seq<nat>, p: Param, f: string)
    requires ReadInBody(tree, path, n, i, below, p.name, f) && LastCalled(n.params, p)
    ensures OccursAt(dataClass, {}, [], tree, Whole(path, n, i, below), Read(f))
       <==> || TakesSnapshot(dataClass, p)
            || exists s :: s in n.body && AssignsSnapshot(TakenNames(dataClass, AliasesAt(dataClass, {}, tree, path), n.params), s, p.name)
    ensures OccursAt(dataClass, {}, [], tree, Whole(path, n, i, below), Read(f)) ==> ReadsField(dataClass, tree, f)
  {
    var names := AliasesAt(dataClass, {}, tree, path);
    var functions := FunctionsAt([], tree, path);
    assert Whole(path, n, i, below) == path + ([|n.extras| + i] + below);
    OccursDeeper(dataClass, {}, [], tree, path, [|n.extras| + i] + below, Read(f));
    BodyReadIff(dataClass, names, functions, n, i, below, p.name, f);
    InsideIff(dataClass, names, n, p.name);
    TakenByLast(dataClass, names, n.params, p);
  }

  lemma TakenByLast(dataClass: string, names: set<string>, params: seq<Param>, p: Param)
    requires LastCalled(params, p)
    ensures Taken(dataClass, names, params, p.name) <==> TakesSnapshot(dataClass, p)
  {
    var k :| 0 <= k < |params| && params[k] == p && forall j :: k < j < |params| ==> params[j].name != p.name;
    assert p in params;
    forall q | LastCalled(params, q) && q.name == p.name ensures q == p {
      var m :| 0 <= m < |params| && params[m] == q && forall j :: m < j < |params| ==> params[j].name != q.name;
    }
  }

  /** No statement of the body assigns x. */
  ghost predicate NeverAssigned(n: Node, x: string)
    requires n.Function?
  {
    forall s, m :: s in n.body && Holds(s, m) ==> !AssignsTo(m, x)
  }

  /**
   `def h(data): ... data.f` reads f, and so does an annotation with the data class, or a
   `data` annotated `Any` or `object`; under any other name or annotation, and with no
   assignment to it, the read is not recorded.
   */
  lemma ParameterReads(dataClass: string, tree: Node, path: seq<nat>, n: Node, i: nat, below: seq<nat>, x: string, annotation: Option<string>, f: string)
    requires ReadInBody(tree, path, n, i, below, x, f) && LastCalled(n.params, Param(x, annotation))
    ensures x == "data" && annotation == None ==> ReadsField(dataClass, tree, f)
    ensures (exists a, b :: annotation == Some(a + dataClass + b)) ==> ReadsField(dataClass, tree, f)
    ensures x == "data" && (annotation == Some("Any") || annotation == Some("object")) ==> ReadsField(dataClass, tree, f)
    ensures NeverAssigned(n, x)
        && (x != "data" || (annotation.Some? && annotation != Some("Any") && annotation != Some("object")))
        && !(exists a, b :: annotation == Some(a + dataClass + b))
        ==> !OccursAt(dataClass, {}, [], tree, Whole(path, n, i, below), Read(f))
  {
    var p := Param(x, annotation);
    ParameterRead(dataClass, tree, path, n, i, below, p, f);
    assert annotation.Some? ==> (HasPart(annotation.value, dataClass) <==> exists a, b :: annotation == Some(a + dataClass + b));
    if NeverAssigned(n, x) {
      var names := TakenNames(dataClass, AliasesAt(dataClass, {}, tree, path), n.params);
      assert !exists s :: s in n.body && AssignsSnapshot(names, s, x);
    }
  }
}
