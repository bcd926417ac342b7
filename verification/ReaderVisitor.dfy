/**
 The reader census of the dead-code gate: a visitor that walks a module with a
 mutable set of names standing for the coordinator snapshot, saved and restored
 around every scope, and collects what is read off that snapshot.
 */
module ReaderVisitor {
  import opened Prelude

  // ------------------------------------------------------------------------
  // Syntax trees
  // ------------------------------------------------------------------------

  /** A parameter and the source text of its annotation, if it has one. */
  datatype Param = Param(name: string, annotation: Option<string>)

  datatype Generator = Generator(target: Node, iter: Node, ifs: seq<Node>)

  datatype Node =
    | Name(id: string)
    | Str(text: string)
    | Attribute(base: Node, attr: string, load: bool)
    | Call(func: Node, args: seq<Node>, keywords: seq<Node>)
    | Assign(targets: seq<Node>, value: Node)
    | AnnAssign(target: Node, annotation: Node, init: Option<Node>)
    | AugAssign(into: Node, operand: Node)
      // `extras` are the decorators, defaults and annotations; a lambda is named "<lambda>"
    | Function(name: string, params: seq<Param>, extras: seq<Node>, body: seq<Node>)
    | Comprehension(elements: seq<Node>, generators: seq<Generator>)
    | For(bound: Node, over: Node, block: seq<Node>)
    | Other(children: seq<Node>)

  function Flatten(generators: seq<Generator>): (nodes: seq<Node>)
    ensures forall n :: n in nodes ==> exists g :: g in generators && (n == g.target || n == g.iter || n in g.ifs)
  {
    if generators == [] then [] else
      [generators[0].target, generators[0].iter] + generators[0].ifs + Flatten(generators[1..])
  }

  function Children(n: Node): (cs: seq<Node>)
    ensures forall c :: c in cs ==> c < n
  {
    match n
    case Name(_) => []
    case Str(_) => []
    case Attribute(base, _, _) => [base]
    case Call(func, args, keywords) => [func] + args + keywords
    case Assign(targets, value) => targets + [value]
    case AnnAssign(target, annotation, init) =>
      [target, annotation] + (if init.Some? then [init.value] else [])
    case AugAssign(into, operand) => [into, operand]
    case Function(_, _, extras, body) => extras + body
    case Comprehension(elements, generators) => elements + Flatten(generators)
    case For(bound, over, block) => [bound, over] + block
    case Other(children) => children
  }

  /** The plain names in a target, wherever they occur in it. */
  function BindingNames(n: Node): set<string> {
    (if n.Name? then {n.id} else {}) + set c, x | c in Children(n) && x in BindingNames(c) :: x
  }

  /** Every string literal inside a tree. */
  function Strings(n: Node): set<string> {
    (if n.Str? then {n.text} else {}) + set c, x | c in Children(n) && x in Strings(c) :: x
  }

  function StringsIn(nodes: seq<Node>): set<string> {
    set n, x | n in nodes && x in Strings(n) :: x
  }

  // ------------------------------------------------------------------------
  // What is the snapshot
  // ------------------------------------------------------------------------

  predicate IsSource(aliases: set<string>, n: Node) {
    (n.Attribute? && n.attr == "data") || (n.Name? && n.id in aliases)
  }

  predicate Contains(text: string, part: string) {
    exists i :: 0 <= i <= |text| && part <= text[i..]
  }

  predicate ParamIsSnapshot(dataClass: string, p: Param) {
    match p.annotation
    case None => p.name == "data"
    case Some(text) => Contains(text, dataClass) || (p.name == "data" && text in {"Any", "object"})
  }

  function BindParams(dataClass: string, aliases: set<string>, params: seq<Param>): set<string> {
    if params == [] then aliases else
      var before := BindParams(dataClass, aliases, params[..|params| - 1]);
      var p := params[|params| - 1];
      if ParamIsSnapshot(dataClass, p) then before + {p.name} else before - {p.name}
  }

  /** Names this very statement assigns from the snapshot. */
  function AssignedHere(aliases: set<string>, n: Node): set<string> {
    match n
    case Assign(targets, value) =>
      if IsSource(aliases, value) then set t | t in targets && t.Name? :: t.id else {}
    case AnnAssign(target, _, Some(init)) =>
      if IsSource(aliases, init) && target.Name? then {target.id} else {}
    case _ => {}
  }

  /** Names assigned from the snapshot anywhere inside. */
  ghost function AssignedIn(aliases: set<string>, n: Node): set<string> {
    AssignedHere(aliases, n) + set c, x | c in Children(n) && x in AssignedIn(aliases, c) :: x
  }

  ghost function AssignedInAll(aliases: set<string>, nodes: seq<Node>): set<string> {
    set n, x | n in nodes && x in AssignedIn(aliases, n) :: x
  }

  function BindGenerators(aliases: set<string>, generators: seq<Generator>): set<string> {
    if generators == [] then aliases else
      var before := BindGenerators(aliases, generators[..|generators| - 1]);
      var g := generators[|generators| - 1];
      if IsSource(before, g.iter) then before else before - BindingNames(g.target)
  }

  // ------------------------------------------------------------------------
  // The meaning of a module: facts at occurrences, environments along paths
  // ------------------------------------------------------------------------

  datatype Fact =
    | Read(name: string)                      // snapshot field read by this name
    | Dynamic                                 // getattr(snapshot, <non-literal>)
    | Helper(name: string)                    // function around such a getattr
    | Table(text: string)                     // literal in a module- or class-level assignment
    | Passed(callee: string, text: string)    // literal passed to this callee

  /** The names that stand for the snapshot among the children of `n`. */
  ghost function Inside(dataClass: string, aliases: set<string>, n: Node): set<string> {
    match n
    case Function(_, params, _, body) =>
      var bound := BindParams(dataClass, aliases, params);
      bound + AssignedInAll(bound, body)
    case Comprehension(_, generators) => BindGenerators(aliases, generators)
    case For(bound, _, _) => aliases - BindingNames(bound)
    case _ => aliases
  }

  function Enclosing(functions: seq<string>, n: Node): seq<string> {
    if n.Function? then functions + [n.name] else functions
  }

  predicate IsGetattr(aliases: set<string>, n: Node) {
    n.Call? && n.func == Name("getattr") && |n.args| >= 2 && IsSource(aliases, n.args[0])
  }

  function Callee(func: Node): Option<string> {
    match func
    case Name(id) => Some(id)
    case Attribute(_, attr, _) => Some(attr)
    case _ => None
  }

  ghost function GetattrFacts(aliases: set<string>, functions: seq<string>, n: Node): set<Fact> {
    if !IsGetattr(aliases, n) then {}
    else if n.args[1].Str? then {Read(n.args[1].text)}
    else {Dynamic} + set f | f in functions :: Helper(f)
  }

  ghost function PassedFacts(n: Node): set<Fact>
    requires n.Call?
  {
    match Callee(n.func)
    case None => {}
    case Some(callee) => set x | x in StringsIn(n.args + n.keywords) :: Passed(callee, x)
  }

  ghost function TableFacts(functions: seq<string>, values: seq<Node>): set<Fact> {
    if functions != [] then {} else set x | x in StringsIn(values) :: Table(x)
  }

  /** What one node contributes by itself, in the environment it stands in. */
  ghost function FactsAt(aliases: set<string>, functions: seq<string>, n: Node): set<Fact> {
    match n
    case Attribute(base, attr, load) =>
      if load && IsSource(aliases, base) then {Read(attr)} else {}
    case AugAssign(into, _) =>
      if into.Attribute? && IsSource(aliases, into.base) then {Read(into.attr)} else {}
    case Call(_, _, _) => GetattrFacts(aliases, functions, n) + PassedFacts(n)
    case Assign(_, value) => TableFacts(functions, [value])
    case AnnAssign(_, _, Some(init)) => TableFacts(functions, [init])
    case _ => {}
  }

  /** Everything a tree contributes, by recursion that passes the environment down. */
  ghost function Facts(dataClass: string, aliases: set<string>, functions: seq<string>, n: Node): set<Fact>
    decreases n
  {
    FactsAt(aliases, functions, n)
    + set c, f | c in Children(n) && f in Facts(dataClass, Inside(dataClass, aliases, n), Enclosing(functions, n), c) :: f
  }

  ghost function FactsOfAll(dataClass: string, aliases: set<string>, functions: seq<string>, nodes: seq<Node>): set<Fact> {
    set c, f | c in nodes && f in Facts(dataClass, aliases, functions, c) :: f
  }

  // A path leads from a tree to one of its descendants, child index by child index.

  ghost predicate IsPath(n: Node, path: seq<nat>)
    decreases path
  {
    path == [] || (path[0] < |Children(n)| && IsPath(Children(n)[path[0]], path[1..]))
  }

  ghost function NodeAt(n: Node, path: seq<nat>): Node
    requires IsPath(n, path)
    decreases path
  {
    if path == [] then n else NodeAt(Children(n)[path[0]], path[1..])
  }

  /** The snapshot's names at the end of a path: each scope on the way has its effect. */
  ghost function AliasesAt(dataClass: string, aliases: set<string>, n: Node, path: seq<nat>): set<string>
    requires IsPath(n, path)
    decreases path
  {
    if path == [] then aliases
    else AliasesAt(dataClass, Inside(dataClass, aliases, n), Children(n)[path[0]], path[1..])
  }

  ghost function FunctionsAt(functions: seq<string>, n: Node, path: seq<nat>): seq<string>
    requires IsPath(n, path)
    decreases path
  {
    if path == [] then functions
    else FunctionsAt(Enclosing(functions, n), Children(n)[path[0]], path[1..])
  }

  /** The node at the end of `path` contributes `fact`, seen in the scopes around it. */
  ghost predicate OccursAt(dataClass: string, aliases: set<string>, functions: seq<string>, n: Node, path: seq<nat>, fact: Fact) {
    IsPath(n, path)
    && fact in FactsAt(AliasesAt(dataClass, aliases, n, path), FunctionsAt(functions, n, path), NodeAt(n, path))
  }

  ghost predicate Occurs(dataClass: string, n: Node, fact: Fact) {
    exists path :: OccursAt(dataClass, {}, [], n, path, fact)
  }

  /** The recursion collects a fact exactly when some occurrence in the tree contributes it. */
  lemma CollectedIffOccurs(dataClass: string, aliases: set<string>, functions: seq<string>, n: Node, fact: Fact)
    ensures fact in Facts(dataClass, aliases, functions, n)
       <==> exists path :: OccursAt(dataClass, aliases, functions, n, path, fact)
  {
    if fact in Facts(dataClass, aliases, functions, n) {
      var path := PathTo(dataClass, aliases, functions, n, fact);
    }
    forall path | OccursAt(dataClass, aliases, functions, n, path, fact)
      ensures fact in Facts(dataClass, aliases, functions, n)
    {
      PathCollects(dataClass, aliases, functions, n, path, fact);
    }
  }

  lemma {:induction false} PathTo(dataClass: string, aliases: set<string>, functions: seq<string>, n: Node, fact: Fact) returns (path: seq<nat>)
    requires fact in Facts(dataClass, aliases, functions, n)
    ensures OccursAt(dataClass, aliases, functions, n, path, fact)
    decreases n
  {
    path := [];
    if fact in FactsAt(aliases, functions, n) {
    } else {
      var inside, enclosing := Inside(dataClass, aliases, n), Enclosing(functions, n);
      var i :| 0 <= i < |Children(n)| && fact in Facts(dataClass, inside, enclosing, Children(n)[i]);
      assert Children(n)[i] in Children(n);
      var rest := PathTo(dataClass, inside, enclosing, Children(n)[i], fact);
      path := [i] + rest;
      OccursBelow(dataClass, aliases, functions, n, i, rest, fact);
    }
  }

  lemma OccursBelow(dataClass: string, aliases: set<string>, functions: seq<string>, n: Node, i: nat, rest: seq<nat>, fact: Fact)
    requires i < |Children(n)|
    requires OccursAt(dataClass, Inside(dataClass, aliases, n), Enclosing(functions, n), Children(n)[i], rest, fact)
    ensures OccursAt(dataClass, aliases, functions, n, [i] + rest, fact)
  {
    var path := [i] + rest;
    assert path[1..] == rest;
  }

  lemma {:induction false} PathCollects(dataClass: string, aliases: set<string>, functions: seq<string>, n: Node, path: seq<nat>, fact: Fact)
    requires OccursAt(dataClass, aliases, functions, n, path, fact)
    ensures fact in Facts(dataClass, aliases, functions, n)
    decreases path
  {
    if path == [] {
    } else {
      var c := Children(n)[path[0]];
      assert c in Children(n);
      PathCollects(dataClass, Inside(dataClass, aliases, n), Enclosing(functions, n), c, path[1..], fact);
    }
  }
}
