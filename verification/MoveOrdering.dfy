/** Which move statement must run before which: the dependency test behind the
    execution order of `moved` blocks, why it misses no hand-over, and why any order
    that respects it will do. */
module MoveOrdering {
  import opened Addrs
  import opened MovePatterns
  import opened MoveDestination

  datatype MoveStatement = MoveStatement(from: Endpoint, to: Endpoint)

  predicate ValidStatement(s: MoveStatement) {
    && Statement(s.from, s.to)
    && ValidEndpoint(s.from) && ValidEndpoint(s.to)
    && Proper(s.from) && Proper(s.to)
  }

  /** The statement changes instance keys of a module and nothing else. A call
      renamed to itself is not one, whatever its name. */
  predicate IsModuleReIndex(from: Endpoint, to: Endpoint) {
    && ModuleKind(from.rel) && ModuleKind(to.rel)
    && !(from.rel.ModuleCall? && to.rel.ModuleCall?)
    && StaticPath(FullPath(from.rel, NoKey)) == StaticPath(FullPath(to.rel, NoKey))
  }

  predicate NestingDependency(a: MoveStatement, b: MoveStatement) {
    || NestedWithin(a.from, b.to)
    || NestedWithin(a.to, b.to)
    || NestedWithin(b.from, a.from)
    || NestedWithin(b.to, a.from)
  }

  predicate ReIndexException(a: MoveStatement, b: MoveStatement) {
    |a.to.decl| < |b.to.decl| && IsModuleReIndex(a.from, a.to)
  }

  /** Statement `b` must run before statement `a`. */
  predicate DependsOn(a: MoveStatement, b: MoveStatement) {
    || CanChainFrom(a.from, b.to)
    || (NestingDependency(a, b) && !ReIndexException(a, b))
  }

  /** What a match says about the address, in the terms of the pattern tests. */
  predicate Matches(x: Moveable, e: Endpoint) {
    var n := |Synth(e)|;
    && n <= |x.path| && PathSelects(Synth(e), x.path[..n])
    && match e.rel
       case AbsResource(_, r) =>
         n == |x.path| && (x.AbsResource? || x.AbsResourceInstance?) && x.resource == r
       case AbsResourceInstance(_, r, k) =>
         n == |x.path| && x.AbsResourceInstance? && x.resource == r && x.key == k
       case _ => true
  }

  lemma MovedAddressMatches(x: Moveable, from: Endpoint, to: Endpoint)
    requires ValidStatement(MoveStatement(from, to)) && !x.ModuleCall?
    ensures Move(x, from, to).Moved? <==> Matches(x, from)
  {
    if ModuleKind(from.rel) {
      ModuleMoveMatchesSelectedPrefix(x.path, from, to);
    } else {
      ExactMatchIsSelected(x.path, from);
      assert x.path[..|x.path|] == x.path;
    }
  }

  lemma ExactMatchIsSelected(m: ModuleInstance, e: Endpoint)
    requires ValidEndpoint(e) && !ModuleKind(e.rel)
    ensures MatchPrefix(e.decl, m).Split? && MatchPrefix(e.decl, m).rest == e.rel.path
       <==> PathSelects(Synth(e), m)
  {
  }

  /** A statement matches an address exactly when its `from` pattern covers the
      address or covers something that the address lies inside. */
  lemma MoveMatchesCoveredObjects(x: Moveable, s: MoveStatement)
    requires ValidStatement(s) && !x.ModuleCall? && Actual(x)
    ensures Move(x, s.from, s.to).Moved?
       <==> exists c :: Covers(s.from, c) && (x == c || Inside(x, c))
  {
    MovedAddressMatches(x, s.from, s.to);
    if Matches(x, s.from) {
      var c := MatchedObject(x, s.from);
    }
    if c :| Covers(s.from, c) && (x == c || Inside(x, c)) {
      CoveredObjectMatches(x, s.from, c);
    }
  }

  lemma MatchedObject(x: Moveable, e: Endpoint) returns (c: Moveable)
    requires ValidEndpoint(e) && !x.ModuleCall? && Actual(x) && Matches(x, e)
    ensures Covers(e, c) && (x == c || Inside(x, c))
  {
    var w := x.path[..|Synth(e)|];
    if ModuleKind(e.rel) {
      c := ModuleInst(w);
      SelectsModuleIsCovers(e, w);
    } else {
      c := WithPath(e.rel, x.path);
      assert w == x.path;
      SelectedPathIsDenoted(e, w);
    }
    InsideIsPathInside(x, c);
  }

  lemma CoveredObjectMatches(x: Moveable, e: Endpoint, c: Moveable)
    requires ValidEndpoint(e) && !x.ModuleCall? && Covers(e, c) && (x == c || Inside(x, c))
    ensures Matches(x, e)
  {
    CoveredPathIsSelected(e, c);
    CoveredHasKind(e, c);
    InsideIsPathInside(x, c);
    assert x.path[..|c.path|] == c.path;
  }

  lemma CoveredHasKind(e: Endpoint, c: Moveable)
    requires ValidEndpoint(e) && Covers(e, c)
    ensures ModuleKind(e.rel) ==> c.ModuleInst?
    ensures !ModuleKind(e.rel) ==> c == WithPath(e.rel, c.path)
  {
  }

  /** The two patterns chain, or one is nested in the other. */
  predicate Related(e: Endpoint, o: Endpoint) {
    CanChainFrom(e, o) || NestedWithin(e, o) || NestedWithin(o, e)
  }

  lemma CommonMatchIsRelated(x: Moveable, e: Endpoint, o: Endpoint)
    requires Matches(x, e) && Matches(x, o)
    ensures Related(e, o)
  {
  }

  lemma RelatedHasCommonMatch(e: Endpoint, o: Endpoint) returns (x: Moveable)
    requires ValidEndpoint(e) && ValidEndpoint(o) && Related(e, o)
    ensures !x.ModuleCall? && Matches(x, e) && Matches(x, o)
  {
    if CanChainFrom(e, o) || NestedWithin(e, o) {
      x := CommonMatch(e, o);
    } else {
      x := CommonMatch(o, e);
    }
  }

  lemma CommonMatch(e: Endpoint, o: Endpoint) returns (x: Moveable)
    requires ValidEndpoint(e) && ValidEndpoint(o) && (CanChainFrom(e, o) || NestedWithin(e, o))
    ensures !x.ModuleCall? && Matches(x, e) && Matches(x, o)
  {
    SynthIsActualOrAny(e);
    SynthIsActualOrAny(o);
    var w := Merge(Synth(o), Synth(e));
    MergeIsSelected(Synth(o), Synth(e));
    x := if ModuleKind(e.rel) then ModuleInst(w) else WithPath(e.rel, w);
    assert w[..|w|] == w;
  }

  /** `b` moves `x` to an address that `a` would then move. */
  predicate HandsOver(x: Moveable, b: MoveStatement, a: MoveStatement) {
    && !x.ModuleCall? && Move(x, b.from, b.to).Moved?
    && var y := Move(x, b.from, b.to).addr;
    && !y.ModuleCall? && Move(y, a.from, a.to).Moved?
  }

  lemma HandOverIsRelated(a: MoveStatement, b: MoveStatement, x: Moveable)
    requires ValidStatement(a) && ValidStatement(b) && HandsOver(x, b, a)
    ensures Related(a.from, b.to)
  {
    var y := Move(x, b.from, b.to).addr;
    MoveRoundTrip(x, b.from, b.to);
    MovedAddressMatches(y, b.to, b.from);
    MovedAddressMatches(y, a.from, a.to);
    CommonMatchIsRelated(y, a.from, b.to);
  }

  /** The tests on patterns find exactly the hand-overs: `b` can hand something over
      to `a` exactly if the target of `b` and the source of `a` chain or nest. */
  lemma HandOverPossibleIff(a: MoveStatement, b: MoveStatement)
    requires ValidStatement(a) && ValidStatement(b)
    ensures (exists x :: HandsOver(x, b, a)) <==> Related(a.from, b.to)
  {
    if x :| HandsOver(x, b, a) {
      HandOverIsRelated(a, b, x);
    }
    if Related(a.from, b.to) {
      var y := RelatedHasCommonMatch(a.from, b.to);
      MovedAddressMatches(y, a.from, a.to);
      MovedAddressMatches(y, b.to, b.from);
      MoveRoundTrip(y, b.to, b.from);
      assert HandsOver(Move(y, b.to, b.from).addr, b, a);
    }
  }

  /** When `b` hands an address over to `a`, `a` is made to depend on `b`, unless
      the re-index rule applies and the two statements do not chain outright. */
  lemma HandOverIsOrdered(a: MoveStatement, b: MoveStatement, x: Moveable)
    requires ValidStatement(a) && ValidStatement(b) && HandsOver(x, b, a)
    ensures DependsOn(a, b) <==> CanChainFrom(a.from, b.to) || !ReIndexException(a, b)
  {
    HandOverIsRelated(a, b, x);
  }

  // ------------------------------------------- the dependency test, in objects

  /** The statement is about module instances and never changes a module name. */
  ghost predicate OnlyChangesKeys(s: MoveStatement) {
    && s.from.rel.ModuleInst?
    && forall x: Moveable :: !x.ModuleCall? && Move(x, s.from, s.to).Moved? ==>
         StaticPath(Move(x, s.from, s.to).addr.path) == StaticPath(x.path)
  }

  /** The re-index test asks for exactly that. */
  lemma ReIndexIffOnlyKeysChange(s: MoveStatement)
    requires ValidStatement(s)
    ensures IsModuleReIndex(s.from, s.to) <==> OnlyChangesKeys(s)
  {
    if IsModuleReIndex(s.from, s.to) {
      forall x: Moveable | !x.ModuleCall? && Move(x, s.from, s.to).Moved?
        ensures StaticPath(Move(x, s.from, s.to).addr.path) == StaticPath(x.path)
      {
        ReIndexKeepsStaticPath(s, x);
      }
    }
    if OnlyChangesKeys(s) {
      var inst := seq(|s.from.decl|, i requires 0 <= i < |s.from.decl| => Step(s.from.decl[i], NoKey));
      var x := ModuleInst(inst + s.from.rel.path);
      assert x.path == inst + s.from.rel.path + [];
      ModuleMoveIsComplete(x.path, s.from, s.to, inst, NoKey, []);
      var y := Move(x, s.from, s.to).addr;
      assert y.path == inst + s.to.rel.path;
      CancelStaticPrefix(inst, s.from.rel.path, s.to.rel.path);
      assert FullPath(s.from.rel, NoKey) == s.from.rel.path && FullPath(s.to.rel, NoKey) == s.to.rel.path;
    }
  }

  lemma ReIndexKeepsStaticPath(s: MoveStatement, x: Moveable)
    requires ValidStatement(s) && IsModuleReIndex(s.from, s.to) && !x.ModuleCall?
    requires Move(x, s.from, s.to).Moved?
    ensures StaticPath(Move(x, s.from, s.to).addr.path) == StaticPath(x.path)
  {
    var y := Move(x, s.from, s.to).addr;
    var inst, key, suffix := ModuleMoveIsSound(x.path, s.from, s.to);
    assert FullPath(s.from.rel, key) == s.from.rel.path == FullPath(s.from.rel, NoKey);
    assert FullPath(s.to.rel, key) == s.to.rel.path == FullPath(s.to.rel, NoKey);
    StaticPathOfParts(inst, s.from.rel.path, suffix);
    StaticPathOfParts(inst, s.to.rel.path, suffix);
  }

  lemma StaticPathOfParts(a: ModuleInstance, b: ModuleInstance, c: ModuleInstance)
    ensures StaticPath(a + b + c) == StaticPath(a) + StaticPath(b) + StaticPath(c)
  {
  }

  lemma CancelStaticPrefix(a: ModuleInstance, b: ModuleInstance, c: ModuleInstance)
    requires StaticPath(a + b) == StaticPath(a + c)
    ensures StaticPath(b) == StaticPath(c)
  {
    assert StaticPath(b) == StaticPath(a + b)[|a|..];
    assert StaticPath(c) == StaticPath(a + c)[|a|..];
  }

  /** Some absolute object belongs to both patterns. */
  ghost predicate Overlap(e: Endpoint, o: Endpoint) {
    exists x :: Covers(e, x) && Covers(o, x)
  }

  /** Some object that `e` names lies inside one that `o` names. */
  ghost predicate SomeInside(e: Endpoint, o: Endpoint) {
    exists x, y :: Denotes(e, x) && Denotes(o, y) && Inside(x, y)
  }

  /** Exactly when `b` must run before `a`: a target of `b` is a source of `a`; or an
      object of the one lies inside an object of the other in one of four ways, and
      `a` is not declared further out and changes keys only. */
  lemma DependsOnIff(a: MoveStatement, b: MoveStatement)
    requires ValidStatement(a) && ValidStatement(b)
    ensures DependsOn(a, b) <==>
              || Overlap(a.from, b.to)
              || (&& (|| SomeInside(a.from, b.to)
                      || SomeInside(a.to, b.to)
                      || SomeInside(b.from, a.from)
                      || SomeInside(b.to, a.from))
                  && !(|a.from.decl| < |b.from.decl| && OnlyChangesKeys(a)))
  {
    CanChainFromIsOverlap(a.from, b.to);
    OverlapHasKind(a.from, b.to);
    NestedWithinIsContainment(a.from, b.to);
    NestedWithinIsContainment(a.to, b.to);
    NestedWithinIsContainment(b.from, a.from);
    NestedWithinIsContainment(b.to, a.from);
    ReIndexIffOnlyKeysChange(a);
  }

  lemma OverlapHasKind(e: Endpoint, o: Endpoint)
    ensures Overlap(e, o) ==> SameChainKind(e.rel, o.rel)
  {
  }

  // ------------------------------------------------------ running statements

  /** Where one statement takes an address, if nothing is in the way there. */
  function Apply(x: Moveable, s: MoveStatement): (y: Moveable)
    requires !x.ModuleCall?
    ensures !y.ModuleCall?
  {
    match Move(x, s.from, s.to)
    case Moved(y) => y
    case _ => x
  }

  function ApplyAll(x: Moveable, stmts: seq<MoveStatement>): (y: Moveable)
    requires !x.ModuleCall?
    ensures !y.ModuleCall?
    decreases |stmts|
  {
    if stmts == [] then x else ApplyAll(Apply(x, stmts[0]), stmts[1..])
  }

  predicate Unordered(a: MoveStatement, b: MoveStatement) {
    !DependsOn(a, b) && !DependsOn(b, a)
  }

  /** The statement says nothing: it moves everything to where it is. */
  predicate Redundant(s: MoveStatement) {
    s.from == s.to
  }

  lemma RedundantMovesNothing(s: MoveStatement, x: Moveable)
    requires ValidStatement(s) && !x.ModuleCall?
    ensures Move(x, s.from, s.to).Moved? ==> (Apply(x, s) == x <==> Redundant(s))
  {
    if Move(x, s.from, s.to).Moved? {
      MoveIsSound(x, s.from, s.to);
      var y := Apply(x, s);
      var inst, key, suffix :| MovesWith(x, y, s.from, s.to, inst, key, suffix);
      SameSubject(s.from, s.to, x, y, inst, key, suffix);
    }
  }

  lemma SameSubject(from: Endpoint, to: Endpoint, x: Moveable, y: Moveable,
                    inst: ModuleInstance, key: InstanceKey, suffix: ModuleInstance)
    requires Statement(from, to) && MovesWith(x, y, from, to, inst, key, suffix)
    ensures x == y <==> from == to
  {
    if x == y {
      if ModuleKind(from.rel) {
        var f, t := FullPath(from.rel, key), FullPath(to.rel, key);
        CancelEnds(inst, f, t, suffix);
        if from.rel.ModuleCall? {
          assert from.rel.path == f[..|f| - 1] && to.rel.path == t[..|t| - 1];
          assert f[|f| - 1] == t[|t| - 1];
        } else {
          assert f == from.rel.path && t == to.rel.path;
        }
      } else {
        CancelEnds(inst, from.rel.path, to.rel.path, []);
      }
    }
  }

  lemma CancelEnds(a: ModuleInstance, f: ModuleInstance, t: ModuleInstance, b: ModuleInstance)
    requires a + f + b == a + t + b || (b == [] && a + f == a + t)
    ensures f == t
  {
    assert |f| == |t|;
    assert f == (a + f + b)[|a|..|a| + |f|] && t == (a + t + b)[|a|..|a| + |t|];
  }

  /** Whether two unordered statements may run in either order on one address. They
      may unless one hands it over to the other, or both move it and to different
      places; a redundant statement does not matter. */
  predicate AgreeOn(x: Moveable, a: MoveStatement, b: MoveStatement)
    requires !x.ModuleCall?
  {
    || Redundant(a) || Redundant(b)
    || (&& !HandsOver(x, a, b) && !HandsOver(x, b, a)
        && (Move(x, a.from, a.to).Moved? && Move(x, b.from, b.to).Moved? ==> Apply(x, a) == Apply(x, b)))
  }

  /** Both ways of a hand-over need the re-index rule, which applies to the statement
      that is declared further out: there is only one way. */
  lemma HandOverIsOneWay(a: MoveStatement, b: MoveStatement, x: Moveable)
    requires ValidStatement(a) && ValidStatement(b) && Unordered(a, b)
    ensures !(HandsOver(x, a, b) && HandsOver(x, b, a))
  {
    if HandsOver(x, a, b) && HandsOver(x, b, a) {
      HandOverIsOrdered(a, b, x);
      HandOverIsOrdered(b, a, x);
      assert false;
    }
  }

  /** Exactly when two unordered statements commute on an address. */
  lemma UnorderedCommuteIff(a: MoveStatement, b: MoveStatement, x: Moveable)
    requires ValidStatement(a) && ValidStatement(b) && Unordered(a, b) && !x.ModuleCall?
    ensures Apply(Apply(x, a), b) == Apply(Apply(x, b), a) <==> AgreeOn(x, a, b)
  {
    if Redundant(a) || Redundant(b) {
      var s, t := if Redundant(a) then a else b, if Redundant(a) then b else a;
      RedundantMovesNothing(s, x);
      RedundantMovesNothing(s, Apply(x, t));
    } else {
      HandOverIsOneWay(a, b, x);
      if HandsOver(x, b, a) {
        HandOverDisagrees(a, b, x);
      } else if HandsOver(x, a, b) {
        HandOverDisagrees(b, a, x);
      }
    }
  }

  lemma HandOverDisagrees(a: MoveStatement, b: MoveStatement, x: Moveable)
    requires ValidStatement(a) && ValidStatement(b) && !Redundant(a) && !Redundant(b)
    requires HandsOver(x, b, a) && !HandsOver(x, a, b)
    ensures Apply(Apply(x, a), b) != Apply(Apply(x, b), a)
  {
    var y := Apply(x, b);
    RedundantMovesNothing(b, x);
    RedundantMovesNothing(a, y);
    if Move(x, a.from, a.to).Moved? && Apply(x, a) == Apply(y, a) {
      MoveIsInjective(x, y, a.from, a.to);
    }
  }

  /** The re-index rule takes away an order that nesting asks for. */
  predicate Suppressed(a: MoveStatement, b: MoveStatement) {
    NestingDependency(a, b) && ReIndexException(a, b)
  }

  /** Unordered statements agree everywhere if they take nothing from the same place
      and the re-index rule is not the reason that they are unordered. */
  lemma UnorderedStatementsCommute(a: MoveStatement, b: MoveStatement, x: Moveable)
    requires ValidStatement(a) && ValidStatement(b) && Unordered(a, b) && !x.ModuleCall?
    requires !CanChainFrom(a.from, b.from) && !Suppressed(a, b) && !Suppressed(b, a)
    ensures AgreeOn(x, a, b) && Apply(Apply(x, a), b) == Apply(Apply(x, b), a)
  {
    UnorderedCommuteIff(a, b, x);
    MovedAddressMatches(x, a.from, a.to);
    MovedAddressMatches(x, b.from, b.to);
    if Matches(x, a.from) && Matches(x, b.from) {
      CommonMatchIsRelated(x, a.from, b.from);
      assert false;
    }
    if HandsOver(x, a, b) {
      HandOverIsRelated(b, a, x);
    }
    if HandsOver(x, b, a) {
      HandOverIsRelated(a, b, x);
    }
  }

  /** The two are ordered, or agree on every address. */
  ghost predicate Regular(a: MoveStatement, b: MoveStatement) {
    Unordered(a, b) ==> forall x: Moveable :: !x.ModuleCall? ==> AgreeOn(x, a, b)
  }

  /** No statement runs before one that it depends on. */
  predicate Topological(stmts: seq<MoveStatement>) {
    forall i, j :: 0 <= i < j < |stmts| ==> !DependsOn(stmts[i], stmts[j])
  }

  predicate Distinct(stmts: seq<MoveStatement>) {
    forall i, j :: 0 <= i < j < |stmts| ==> stmts[i] != stmts[j]
  }

  /** An order in which the statements may run. */
  predicate Order(stmts: seq<MoveStatement>) {
    Distinct(stmts) && Topological(stmts) && forall s :: s in stmts ==> ValidStatement(s)
  }

  ghost predicate WellFormed(stmts: seq<MoveStatement>) {
    && Order(stmts)
    && (forall s, t :: s in stmts && t in stmts && s != t ==> Regular(s, t))
  }

  lemma {:induction false} ApplyConcat(x: Moveable, p: seq<MoveStatement>, q: seq<MoveStatement>)
    requires !x.ModuleCall?
    ensures ApplyAll(x, p + q) == ApplyAll(ApplyAll(x, p), q)
    decreases |p|
  {
    if p == [] {
      assert p + q == q;
    } else {
      ApplyConcat(Apply(x, p[0]), p[1..], q);
      assert (p + q)[1..] == p[1..] + q;
    }
  }

  ghost predicate IndependentOf(stmts: seq<MoveStatement>, a: MoveStatement) {
    forall s :: s in stmts ==> ValidStatement(s) && Unordered(s, a) && Regular(s, a)
  }

  /** A statement may be run before those that it is not ordered with. */
  lemma {:induction false} RunEarlier(x: Moveable, before: seq<MoveStatement>, a: MoveStatement)
    requires !x.ModuleCall? && ValidStatement(a) && IndependentOf(before, a)
    ensures Apply(ApplyAll(x, before), a) == ApplyAll(Apply(x, a), before)
    decreases |before|
  {
    if before != [] {
      assert before[0] in before;
      RunEarlier(Apply(x, before[0]), before[1..], a);
      UnorderedCommuteIff(before[0], a, x);
    }
  }

  function Without(stmts: seq<MoveStatement>, k: nat): seq<MoveStatement>
    requires k < |stmts|
  {
    stmts[..k] + stmts[k + 1..]
  }

  lemma BringToFront(x: Moveable, stmts: seq<MoveStatement>, k: nat)
    requires !x.ModuleCall? && k < |stmts| && ValidStatement(stmts[k]) && IndependentOf(stmts[..k], stmts[k])
    ensures ApplyAll(x, stmts) == ApplyAll(Apply(x, stmts[k]), Without(stmts, k))
  {
    var before, rest, after := stmts[..k], stmts[k..], stmts[k + 1..];
    RunEarlier(x, before, stmts[k]);
    ApplyConcat(x, before, rest);
    ApplyConcat(Apply(x, stmts[k]), before, after);
    assert before + rest == stmts;
    assert rest[1..] == after;
  }

  ghost predicate SameStatements(p: seq<MoveStatement>, q: seq<MoveStatement>) {
    forall s :: s in p <==> s in q
  }

  lemma WithoutIsWellFormed(stmts: seq<MoveStatement>, k: nat)
    requires WellFormed(stmts) && k < |stmts|
    ensures WellFormed(Without(stmts, k))
    ensures forall s :: s in Without(stmts, k) <==> s in stmts && s != stmts[k]
  {
  }

  lemma WithoutSame(p: seq<MoveStatement>, q: seq<MoveStatement>, k: nat)
    requires WellFormed(p) && WellFormed(q) && SameStatements(p, q)
    requires p != [] && k < |q| && q[k] == p[0]
    ensures WellFormed(p[1..]) && WellFormed(Without(q, k)) && SameStatements(p[1..], Without(q, k))
  {
    WithoutIsWellFormed(p, 0);
    WithoutIsWellFormed(q, k);
    assert Without(p, 0) == p[1..];
  }

  /** What stands before `p[0]` in another order is not ordered with it. */
  lemma IndependentOfFirst(p: seq<MoveStatement>, q: seq<MoveStatement>) returns (k: nat)
    requires WellFormed(p) && WellFormed(q) && SameStatements(p, q) && p != []
    ensures k < |q| && q[k] == p[0] && ValidStatement(p[0]) && IndependentOf(q[..k], p[0])
  {
    assert p[0] in p;
    k :| 0 <= k < |q| && q[k] == p[0];
    forall s | s in q[..k]
      ensures ValidStatement(s) && Unordered(s, p[0]) && Regular(s, p[0])
    {
      var i :| 0 <= i < k && q[i] == s;
      assert s in p;
      var j :| 0 <= j < |p| && p[j] == s;
    }
  }

  lemma HasFirst(stmts: seq<MoveStatement>)
    ensures stmts == [] || stmts[0] in stmts
  {
  }

  /** Every order that respects the dependencies takes every address to the same
      place. */
  lemma {:induction false} OrderDoesNotMatter(x: Moveable, p: seq<MoveStatement>, q: seq<MoveStatement>)
    requires !x.ModuleCall? && WellFormed(p) && WellFormed(q) && SameStatements(p, q)
    ensures ApplyAll(x, p) == ApplyAll(x, q)
    decreases |p|
  {
    HasFirst(q);
    if p != [] {
      var k := IndependentOfFirst(p, q);
      BringToFront(x, q, k);
      WithoutSame(p, q, k);
      OrderDoesNotMatter(Apply(x, p[0]), p[1..], Without(q, k));
    }
  }

  ghost predicate PairwiseRegular(stmts: set<MoveStatement>) {
    forall s, t :: s in stmts && t in stmts && s != t ==> Regular(s, t)
  }

  /** Two orders of the same statements out of these. */
  ghost predicate OrdersOf(stmts: set<MoveStatement>, p: seq<MoveStatement>, q: seq<MoveStatement>) {
    Order(p) && Order(q) && SameStatements(p, q) && forall s :: s in p ==> s in stmts
  }

  /** Within these statements the order makes no difference. */
  ghost predicate OrderNeverMatters(stmts: set<MoveStatement>) {
    forall x: Moveable, p, q :: !x.ModuleCall? && OrdersOf(stmts, p, q) ==> ApplyAll(x, p) == ApplyAll(x, q)
  }

  /** The order of statements never matters, whichever of them occur, exactly if each
      two of them are ordered or agree on every address. */
  lemma OrderNeverMattersIff(stmts: set<MoveStatement>)
    requires forall s :: s in stmts ==> ValidStatement(s)
    ensures OrderNeverMatters(stmts) <==> PairwiseRegular(stmts)
  {
    if PairwiseRegular(stmts) {
      forall x: Moveable, p, q | !x.ModuleCall? && OrdersOf(stmts, p, q)
        ensures ApplyAll(x, p) == ApplyAll(x, q)
      {
        RegularOrdersAgree(stmts, x, p, q);
      }
    }
    if OrderNeverMatters(stmts) {
      forall s, t | s in stmts && t in stmts && s != t
        ensures Regular(s, t)
      {
        OrdersShowRegular(stmts, s, t);
      }
    }
  }

  lemma RegularOrdersAgree(stmts: set<MoveStatement>, x: Moveable, p: seq<MoveStatement>, q: seq<MoveStatement>)
    requires PairwiseRegular(stmts) && !x.ModuleCall? && OrdersOf(stmts, p, q)
    ensures ApplyAll(x, p) == ApplyAll(x, q)
  {
    OrderDoesNotMatter(x, p, q);
  }

  lemma OrdersShowRegular(stmts: set<MoveStatement>, s: MoveStatement, t: MoveStatement)
    requires OrderNeverMatters(stmts) && s in stmts && t in stmts && s != t
    requires ValidStatement(s) && ValidStatement(t)
    ensures Regular(s, t)
  {
    if Unordered(s, t) {
      TwoOrders(stmts, s, t);
      forall x: Moveable | !x.ModuleCall?
        ensures AgreeOn(x, s, t)
      {
        ApplyTwo(x, s, t);
        ApplyTwo(x, t, s);
        UnorderedCommuteIff(s, t, x);
      }
    }
  }

  lemma TwoOrders(stmts: set<MoveStatement>, s: MoveStatement, t: MoveStatement)
    requires s in stmts && t in stmts && s != t && Unordered(s, t) && ValidStatement(s) && ValidStatement(t)
    ensures OrdersOf(stmts, [s, t], [t, s])
  {
  }

  lemma ApplyTwo(x: Moveable, s: MoveStatement, t: MoveStatement)
    requires !x.ModuleCall?
    ensures ApplyAll(x, [s, t]) == Apply(Apply(x, s), t)
  {
    var y := Apply(x, s);
    assert [s, t][1..] == [t];
    assert ApplyAll(y, [t]) == ApplyAll(Apply(y, t), [t][1..]);
  }

  /** The re-index rule can leave a hand-over with no order at all. The root
      module re-indexes `module.a.module.b[0]` to `module.a.module.b[1]`, while
      module `a` moves a resource of its own into `module.b[0]`. Neither
      statement depends on the other, and the two orders disagree. */
  lemma ReIndexRuleLeavesHandOverUnordered()
    returns (a: MoveStatement, b: MoveStatement, x: Moveable)
    ensures ValidStatement(a) && ValidStatement(b) && HandsOver(x, b, a)
    ensures !DependsOn(a, b) && !DependsOn(b, a)
    ensures var y := Move(x, b.from, b.to).addr;
            Move(x, a.from, a.to) == NoMatch && Move(y, a.from, a.to) != Moved(y)
  {
    var r := Resource(Managed, "foo", "x");
    var ab0 := [Step("a", NoKey), Step("b", IntKey(0))];
    var ab1 := [Step("a", NoKey), Step("b", IntKey(1))];
    var b0 := [Step("b", IntKey(0))];
    a := MoveStatement(Endpoint([], ModuleInst(ab0)), Endpoint([], ModuleInst(ab1)));
    b := MoveStatement(Endpoint(["a"], AbsResource([], r)), Endpoint(["a"], AbsResource(b0, r)));
    var atA := [Step("a", NoKey)];
    x := AbsResource(atA, r);

    assert MatchPrefix(["a"], atA) == Split(atA, []);
    var y := AbsResource(atA + b0, r);
    assert Move(x, b.from, b.to) == Moved(y);
    assert atA + b0 == ab0;
    assert MatchPrefix([], ab0) == Split([], ab0);
    assert Move(y, a.from, a.to) == Moved(AbsResource([] + ab1 + ab0[2..], r));
    assert ([] + ab1 + ab0[2..])[1] == Step("b", IntKey(1));

    assert Synth(a.from) == ab0 && Synth(a.to) == ab1;
    var anyA := Step("a", AnyKey);
    assert Synth(b.from) == [anyA];
    assert Synth(b.to) == [anyA, Step("b", IntKey(0))];
    assert StaticPath(FullPath(a.from.rel, NoKey)) == ["a", "b"] == StaticPath(FullPath(a.to.rel, NoKey));
    assert !StepCanMatch(Synth(a.to)[1], Synth(b.to)[1]);
  }

  /** Sources that overlap are not ordered either. The root module moves
      `module.x[0].foo.r` to `module.x[0].foo.s`, while module `x` moves `foo.r` to
      `foo.t`. Neither statement depends on the other, and the first one wins. */
  lemma OverlappingSourcesDisagree() returns (a: MoveStatement, b: MoveStatement, x: Moveable)
    ensures ValidStatement(a) && ValidStatement(b) && Unordered(a, b) && !x.ModuleCall?
    ensures !Suppressed(a, b) && !Suppressed(b, a)
    ensures Apply(Apply(x, a), b) != Apply(Apply(x, b), a)
  {
    var r, s, t := Resource(Managed, "foo", "r"), Resource(Managed, "foo", "s"), Resource(Managed, "foo", "t");
    var x0 := [Step("x", IntKey(0))];
    a := MoveStatement(Endpoint([], AbsResource(x0, r)), Endpoint([], AbsResource(x0, s)));
    b := MoveStatement(Endpoint(["x"], AbsResource([], r)), Endpoint(["x"], AbsResource([], t)));
    x := AbsResource(x0, r);
    assert MatchPrefix([], x0) == Split([], x0) && [] + x0 == x0;
    assert MatchPrefix(["x"], x0) == Split(x0, []) && x0 + [] == x0;
    assert Move(x, a.from, a.to) == Moved(AbsResource(x0, s));
    assert Move(x, b.from, b.to) == Moved(AbsResource(x0, t));
    UnorderedCommuteIff(a, b, x);
  }
}
