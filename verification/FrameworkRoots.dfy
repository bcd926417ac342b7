/**
 Which framework imports every package class derives from: chaotic iteration over
 a class graph in which several classes may share a name and cycles are possible.
 */
module FrameworkRoots {
  import opened Prelude

  /** One class statement: the leftmost names of its bases, and what its module imports from the framework. */
  datatype ClassDef = ClassDef(name: string, bases: set<string>, imported: set<string>)

  type Graph = map<string, set<string>>

  function Get(m: Graph, c: string): set<string> {
    if c in m then m[c] else {}
  }

  /** An absent class has no entry. */
  lemma GetIff(m: Graph, c: string, r: string)
    ensures r in Get(m, c) <==> c in m && r in m[c]
  {
  }

  function Extend(m: Graph, c: string, more: set<string>): Graph {
    m[c := Get(m, c) + more]
  }

  // ------------------------------------------------------------------------
  // What it means to derive from an import
  // ------------------------------------------------------------------------

  ghost predicate BaseOf(defs: seq<ClassDef>, c: string, b: string) {
    exists d :: d in defs && d.name == c && b in d.bases
  }

  ghost predicate DirectRoot(defs: seq<ClassDef>, c: string, r: string) {
    exists d :: d in defs && d.name == c && r in d.bases && r in d.imported
  }

  /** A chain of class names, each naming the next among its bases. */
  ghost predicate IsChain(defs: seq<ClassDef>, chain: seq<string>) {
    chain != [] && forall i :: 0 <= i < |chain| - 1 ==> BaseOf(defs, chain[i], chain[i + 1])
  }

  ghost predicate Via(defs: seq<ClassDef>, c: string, r: string, chain: seq<string>) {
    IsChain(defs, chain) && chain[0] == c && DirectRoot(defs, chain[|chain| - 1], r)
  }

  ghost predicate Derives(defs: seq<ClassDef>, c: string, r: string) {
    exists chain :: Via(defs, c, r, chain)
  }

  lemma DerivesDirectly(defs: seq<ClassDef>, c: string, r: string)
    requires DirectRoot(defs, c, r)
    ensures Derives(defs, c, r)
  {
    assert Via(defs, c, r, [c]);
  }

  lemma DerivesThrough(defs: seq<ClassDef>, c: string, b: string, r: string)
    requires BaseOf(defs, c, b) && Derives(defs, b, r)
    ensures Derives(defs, c, r)
  {
    var chain :| Via(defs, b, r, chain);
    var longer := [c] + chain;
    assert forall i :: 0 < i < |longer| ==> longer[i] == chain[i - 1];
    assert Via(defs, c, r, longer);
  }

  // ------------------------------------------------------------------------
  // Fixpoints
  // ------------------------------------------------------------------------

  ghost predicate HasDirect(defs: seq<ClassDef>, roots: Graph) {
    forall c, r :: DirectRoot(defs, c, r) ==> r in Get(roots, c)
  }

  ghost predicate Inherits(defs: seq<ClassDef>, roots: Graph, c: string) {
    forall b :: BaseOf(defs, c, b) ==> Get(roots, b) <= Get(roots, c)
  }

  /** Closed under both rules: what is derived directly, and what a base derives. */
  ghost predicate IsClosed(defs: seq<ClassDef>, roots: Graph) {
    HasDirect(defs, roots) && forall c :: Inherits(defs, roots, c)
  }

  /** Derivation is the least closed assignment: it lies inside every other. */
  lemma DerivesIsLeast(defs: seq<ClassDef>, roots: Graph, c: string, r: string)
    requires IsClosed(defs, roots) && Derives(defs, c, r)
    ensures r in Get(roots, c)
  {
    var chain :| Via(defs, c, r, chain);
    ChainInside(defs, roots, c, r, chain);
  }

  lemma {:induction false} ChainInside(defs: seq<ClassDef>, roots: Graph, c: string, r: string, chain: seq<string>)
    requires IsClosed(defs, roots) && Via(defs, c, r, chain)
    ensures r in Get(roots, c)
    decreases |chain|
  {
    if |chain| == 1 {
    } else {
      var rest := chain[1..];
      assert BaseOf(defs, c, rest[0]);
      assert forall i :: 0 <= i < |rest| ==> rest[i] == chain[i + 1];
      ChainInside(defs, roots, rest[0], r, rest);
      assert Inherits(defs, roots, c);
    }
  }

  // ------------------------------------------------------------------------
  // The computation
  // ------------------------------------------------------------------------

  ghost predicate Sound(defs: seq<ClassDef>, roots: Graph) {
    forall c, r :: r in Get(roots, c) ==> Derives(defs, c, r)
  }

  ghost predicate NoEmptyEntry(roots: Graph) {
    forall c :: c in roots ==> roots[c] != {}
  }

  /** Between nothing and the answer: direct roots are in, and nothing that is not derived. */
  ghost predicate Partial(defs: seq<ClassDef>, roots: Graph) {
    Sound(defs, roots) && HasDirect(defs, roots) && NoEmptyEntry(roots)
  }

  ghost predicate IsBaseGraph(defs: seq<ClassDef>, bases: Graph) {
    && (forall c, b :: b in Get(bases, c) <==> BaseOf(defs, c, b))
    && (forall d :: d in defs ==> d.name in bases)
  }

  /** The pairs still missing: every class name with every base name, but those present. */
  ghost function Missing(defs: seq<ClassDef>, roots: Graph): set<(string, string)> {
    set d, e, r | d in defs && e in defs && r in e.bases && r !in Get(roots, d.name) :: (d.name, r)
  }

  method Roots(defs: seq<ClassDef>) returns (roots: Graph)
    ensures forall c, r :: r in Get(roots, c) <==> Derives(defs, c, r)
    ensures forall c :: c in roots <==> exists r :: Derives(defs, c, r)
  {
    var bases;
    bases, roots := Collect(defs);
    forall c, r | r in Get(roots, c) ensures Derives(defs, c, r) {
      DerivesDirectly(defs, c, r);
    }
    var changed := true;
    while changed
      invariant Partial(defs, roots)
      invariant !changed ==> forall c :: c in bases ==> Inherits(defs, roots, c)
      decreases Missing(defs, roots), changed
    {
      roots, changed := Pass(defs, bases, roots);
    }
    forall c ensures Inherits(defs, roots, c) {
      if c !in bases {
        assert forall b :: !BaseOf(defs, c, b);
      }
    }
    forall c, r | Derives(defs, c, r) ensures r in Get(roots, c) {
      DerivesIsLeast(defs, roots, c, r);
    }
    forall c ensures c in roots <==> exists r :: Derives(defs, c, r) {
      if c in roots {
        var r :| r in roots[c];
        assert r in Get(roots, c);
      }
    }
  }

  /** Merges all class statements by name. */
  method Collect(defs: seq<ClassDef>) returns (bases: Graph, roots: Graph)
    ensures IsBaseGraph(defs, bases)
    ensures IsDirectGraph(defs, roots)
  {
    bases, roots := map[], map[];
    for i := 0 to |defs|
      invariant IsBaseGraph(defs[..i], bases)
      invariant IsDirectGraph(defs[..i], roots)
    {
      var d := defs[i];
      assert defs[..i + 1] == defs[..i] + [d];
      BasesNext(defs[..i], d, bases);
      DirectNext(defs[..i], d, roots);
      bases := Extend(bases, d.name, d.bases);
      if d.bases * d.imported != {} {
        roots := Extend(roots, d.name, d.bases * d.imported);
      }
    }
    assert defs[..|defs|] == defs;
  }

  ghost predicate IsDirectGraph(defs: seq<ClassDef>, roots: Graph) {
    && (forall c, r :: r in Get(roots, c) <==> DirectRoot(defs, c, r))
    && NoEmptyEntry(roots)
  }

  lemma BasesNext(defs: seq<ClassDef>, d: ClassDef, bases: Graph)
    requires IsBaseGraph(defs, bases)
    ensures IsBaseGraph(defs + [d], Extend(bases, d.name, d.bases))
  {
    forall c, b ensures BaseOf(defs + [d], c, b) <==> BaseOf(defs, c, b) || (c == d.name && b in d.bases) {
      assert d in defs + [d];
      assert forall e :: e in defs ==> e in defs + [d];
    }
  }

  lemma DirectNext(defs: seq<ClassDef>, d: ClassDef, roots: Graph)
    requires IsDirectGraph(defs, roots)
    ensures var more := d.bases * d.imported;
            IsDirectGraph(defs + [d], if more != {} then Extend(roots, d.name, more) else roots)
  {
    forall c, r ensures DirectRoot(defs + [d], c, r) <==> DirectRoot(defs, c, r) || (c == d.name && r in d.bases * d.imported) {
      assert d in defs + [d];
      assert forall e :: e in defs ==> e in defs + [d];
    }
  }

  /** One sweep over the classes, in whatever order the dictionary gives them. */
  method Pass(ghost defs: seq<ClassDef>, bases: Graph, before: Graph) returns (roots: Graph, changed: bool)
    requires IsBaseGraph(defs, bases) && Partial(defs, before)
    ensures Partial(defs, roots)
    ensures changed ==> Missing(defs, roots) < Missing(defs, before)
    ensures !changed ==> roots == before && forall c :: c in bases ==> Inherits(defs, roots, c)
  {
    roots, changed := before, false;
    var todo := bases.Keys;
    while todo != {}
      invariant todo <= bases.Keys
      invariant Partial(defs, roots)
      invariant changed ==> Missing(defs, roots) < Missing(defs, before)
      invariant !changed ==> roots == before && forall c :: c in bases && c !in todo ==> Inherits(defs, roots, c)
      decreases todo
    {
      var c := Choose(todo);
      todo := todo - {c};
      var grew;
      roots, grew := InheritFromBases(defs, bases, roots, c);
      changed := changed || grew;
    }
  }

  method InheritFromBases(ghost defs: seq<ClassDef>, bases: Graph, before: Graph, c: string) returns (roots: Graph, grew: bool)
    requires IsBaseGraph(defs, bases) && Partial(defs, before) && c in bases
    ensures Partial(defs, roots)
    ensures grew ==> Missing(defs, roots) < Missing(defs, before)
    ensures !grew ==> roots == before && Inherits(defs, roots, c)
  {
    var inherited := set p, r | p in bases[c] && r in Get(before, p) :: r;
    if inherited <= Get(before, c) {
      forall b | BaseOf(defs, c, b) ensures Get(before, b) <= Get(before, c) {
        assert b in Get(bases, c);
      }
      return before, false;
    }
    forall r | r in inherited ensures Derives(defs, c, r) {
      var p :| p in bases[c] && r in Get(before, p);
      assert p in Get(bases, c);
      DerivesThrough(defs, c, p, r);
    }
    ExtendKeepsPartial(defs, before, c, inherited);
    ExtendShrinksMissing(defs, before, c, inherited);
    return Extend(before, c, inherited), true;
  }

  lemma ExtendKeepsSound(defs: seq<ClassDef>, roots: Graph, c: string, more: set<string>)
    requires Sound(defs, roots) && forall r :: r in more ==> Derives(defs, c, r)
    ensures Sound(defs, Extend(roots, c, more))
  {
  }

  lemma ExtendKeepsDirect(defs: seq<ClassDef>, roots: Graph, c: string, more: set<string>)
    requires HasDirect(defs, roots)
    ensures HasDirect(defs, Extend(roots, c, more))
  {
  }

  lemma ExtendKeepsPartial(defs: seq<ClassDef>, roots: Graph, c: string, more: set<string>)
    requires Partial(defs, roots) && more != {} && forall r :: r in more ==> Derives(defs, c, r)
    ensures Partial(defs, Extend(roots, c, more))
  {
    ExtendKeepsSound(defs, roots, c, more);
    ExtendKeepsDirect(defs, roots, c, more);
  }

  lemma ExtendShrinksMissing(defs: seq<ClassDef>, roots: Graph, c: string, more: set<string>)
    requires !(more <= Get(roots, c)) && forall r :: r in more ==> Derives(defs, c, r)
    ensures Missing(defs, Extend(roots, c, more)) < Missing(defs, roots)
  {
    var wider := Extend(roots, c, more);
    assert Get(wider, c) == Get(roots, c) + more;
    assert forall x :: x != c ==> Get(wider, x) == Get(roots, x);
    var r :| r in more && r !in Get(roots, c);
    var d, e := NamedIn(defs, c, r);
    assert (d.name, r) in Missing(defs, roots) && (d.name, r) !in Missing(defs, wider);
  }

  /** A class that derives from an import is defined, and the import is some class's base. */
  lemma NamedIn(defs: seq<ClassDef>, c: string, r: string) returns (d: ClassDef, e: ClassDef)
    requires Derives(defs, c, r)
    ensures d in defs && d.name == c && e in defs && r in e.bases
  {
    var chain :| Via(defs, c, r, chain);
    e :| e in defs && e.name == chain[|chain| - 1] && r in e.bases && r in e.imported;
    if |chain| == 1 {
      d := e;
    } else {
      assert BaseOf(defs, chain[0], chain[1]);
      d :| d in defs && d.name == c && chain[1] in d.bases;
    }
  }
}
