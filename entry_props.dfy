/** Properties of the entry points that consume a parse: the S-expression
    is the rendering of the tree, direct interpretation is the total
    partial evaluation, and the two partial evaluators keep the meaning of
    the formula and report its free names. */
module EntryProperties {
  import opened Types
  import opened Intrinsics
  import opened Interpret
  import opened Evaluate
  import opened Legacy
  import opened Parser

  // ----- S-expressions -----

  /** The S-expression of a tree: a literal is its name, an operator node
      is its name and its arguments' renderings, space-separated, in one
      pair of parentheses. */
  function Render<V>(t: AstNode<V>): string
    decreases t
  {
    match t
    case Res(_) => ""
    case Val(x) => x
    case Opr(op, args) =>
      "(" + op.name + " " + Join(seq(|args|, i requires 0 <= i < |args| => Render(args[i]))) + ")"
  }

  lemma {:induction false} SExprFoldIsRender<V>(t: AstNode<V>)
    requires Parsed(t)
    ensures FoldTree(t, SExprNode, SExprLeaf) == Ok(Render(t))
    decreases t, 1
  {
    if t.Opr? {
      SExprFoldAllIsRender(t.args);
    }
  }

  lemma {:induction false} SExprFoldAllIsRender<V>(ts: seq<AstNode<V>>)
    requires AllParsed(ts)
    ensures FoldAll(ts, SExprNode, SExprLeaf) == Ok(seq(|ts|, i requires 0 <= i < |ts| => Render(ts[i])))
    decreases ts, 0
  {
    if ts != [] {
      var init := ts[..|ts| - 1];
      assert AllParsed(init) && Parsed(ts[|ts| - 1]);
      SExprFoldAllIsRender(init);
      SExprFoldIsRender(ts[|ts| - 1]);
      var whole := seq(|ts|, i requires 0 <= i < |ts| => Render(ts[i]));
      var front := seq(|init|, i requires 0 <= i < |init| => Render(init[i]));
      assert whole == front + [Render(ts[|ts| - 1])];
      assert FoldAll(ts, SExprNode, SExprLeaf) == Ok(whole);
    } else {
      assert seq(|ts|, i requires 0 <= i < |ts| => Render(ts[i])) == [];
    }
  }

  /** `parseToSExpr` renders the tree `parseToAST` builds, and fails
      exactly when it fails, with the same error. */
  lemma SExprRendersTheTree<V(!new)>(cfg: Config, tokens: seq<string>)
    ensures var em := Parse(cfg, tokens);
      (Build<V>(em).Ok? ==> Consume(em, SExprNode, SExprLeaf) == Ok(Render(Build<V>(em).value))) &&
      (Build<V>(em).Err? ==> Consume(em, SExprNode, SExprLeaf) == Err(Build<V>(em).error))
  {
    var em := Parse(cfg, tokens);
    assert Total(SExprNode, SExprLeaf);
    ShapeErrors<V, string>(em, SExprNode, SExprLeaf);
    if Build<V>(em).Ok? {
      ConsumersFoldTheTree<V, string>(em, SExprNode, SExprLeaf);
      SExprFoldIsRender(Build<V>(em).value);
    }
  }

  // ----- Direct interpretation -----

  /** A fold of a list succeeds exactly when the fold of each element
      does, and then holds their results in order. */
  lemma {:induction false} FoldAllPointwise<V, T>(ts: seq<AstNode<V>>, impl: (OpInfo, seq<T>) -> Result<T>,
                                                 lift: string -> Result<T>)
    requires AllParsed(ts)
    ensures FoldAll(ts, impl, lift).Ok? <==> forall i | 0 <= i < |ts| :: FoldTree(ts[i], impl, lift).Ok?
    ensures FoldAll(ts, impl, lift).Ok? ==>
      forall i | 0 <= i < |ts| :: FoldTree(ts[i], impl, lift) == Ok(FoldAll(ts, impl, lift).value[i])
    decreases |ts|
  {
    if ts != [] {
      var init := ts[..|ts| - 1];
      assert AllParsed(init);
      FoldAllPointwise(init, impl, lift);
      assert forall i | 0 <= i < |init| :: init[i] == ts[i];
    }
  }

  /** The free names of a list are empty exactly when each element's are. */
  lemma {:induction false} NothingFreeAll<V>(wrap: string -> Option<V>, ts: seq<AstNode<V>>)
    ensures FreeOpsAll(ts) == {} <==> forall i | 0 <= i < |ts| :: FreeOps(ts[i]) == {}
    ensures FailingAll(wrap, ts) == {} <==> forall i | 0 <= i < |ts| :: Failing(wrap, ts[i]) == {}
    decreases |ts|
  {
    if ts != [] {
      NothingFreeAll(wrap, ts[1..]);
      assert FailingAll(wrap, ts) == Failing(wrap, ts[0]) + FailingAll(wrap, ts[1..]);
      assert forall i | 1 <= i < |ts| :: ts[i] == ts[1..][i - 1];
    }
  }

  /** Direct interpretation of a tree succeeds exactly when every operator
      has an implementation and every literal's lookup succeeds. */
  lemma {:induction false} InterpretSucceedsIff<V>(sem: Semantics<V>, wrap: string -> Option<V>, t: AstNode<V>)
    requires Parsed(t)
    ensures FoldTree(t, ExtractImpl(sem), Lift(wrap)).Ok? <==> FreeOps(t) == {} && Failing(wrap, t) == {}
    decreases t, 1
  {
    match t
    case Val(x) =>
      assert Names(t) == {x};
      if wrap(x).None? {
        assert x in Failing(wrap, t);
      } else {
        assert Failing(wrap, t) == {};
      }
    case Opr(op, args) =>
      FoldAllPointwise(args, ExtractImpl(sem), Lift(wrap));
      NothingFreeAll(wrap, args);
      forall i | 0 <= i < |args|
        ensures FoldTree(args[i], ExtractImpl(sem), Lift(wrap)).Ok? <==>
                FreeOps(args[i]) == {} && Failing(wrap, args[i]) == {}
      {
        InterpretSucceedsIff(sem, wrap, args[i]);
      }
      assert Failing(wrap, t) == FailingAll(wrap, args);
  }

  /** What direct interpretation computes is what partial evaluation
      folds the tree to. */
  lemma {:induction false} InterpretIsSimplify<V>(sem: Semantics<V>, wrap: string -> Option<V>, t: AstNode<V>, v: V)
    requires Parsed(t) && Fits(t)
    requires FoldTree(t, ExtractImpl(sem), Lift(wrap)) == Ok(v)
    ensures Simplify(sem, wrap, t) == Res(v)
    decreases t, 1
  {
    if t.Opr? {
      var vs := FoldAll(t.args, ExtractImpl(sem), Lift(wrap)).value;
      FoldAllPointwise(t.args, ExtractImpl(sem), Lift(wrap));
      SimplifyAllFits(sem, wrap, t.args);
      var args := SimplifyAll(sem, wrap, t.args);
      forall i | 0 <= i < |t.args| ensures args[i] == Res(vs[i]) {
        InterpretIsSimplify(sem, wrap, t.args[i], vs[i]);
      }
      assert AllResults(args);
      assert Values(args) == vs;
    }
  }

  /** What direct interpretation computes is the meaning of the tree, in
      any environment. */
  lemma {:induction false} InterpretIsDenote<V>(sem: Semantics<V>, wrap: string -> Option<V>, env: string -> V,
                                               ops: (string, seq<V>) -> V, t: AstNode<V>, v: V)
    requires Parsed(t)
    requires FoldTree(t, ExtractImpl(sem), Lift(wrap)) == Ok(v)
    ensures Denote(sem, wrap, env, ops, t) == v
    decreases t, 1
  {
    if t.Opr? {
      var vs := FoldAll(t.args, ExtractImpl(sem), Lift(wrap)).value;
      FoldAllPointwise(t.args, ExtractImpl(sem), Lift(wrap));
      forall i | 0 <= i < |t.args| ensures DenoteAll(sem, wrap, env, ops, t.args)[i] == vs[i] {
        InterpretIsDenote(sem, wrap, env, ops, t.args[i], vs[i]);
        DenoteAllIndex(sem, wrap, env, ops, t.args, i);
      }
      assert DenoteAll(sem, wrap, env, ops, t.args) == vs;
    }
  }

  /** `interpret` against `partial` on the same tokens: interpretation
      succeeds exactly when the parsed tree has no unimplemented operator
      and no failing literal, its value is then the meaning of the tree,
      and the partial evaluator folds the tree to that value with nothing
      free; a formula the parser or the tree builder rejects is rejected by
      `interpret` too. */
  lemma InterpretAgreesWithPartial<V(!new)>(cfg: Config, sem: Semantics<V>, wrap: string -> Option<V>,
                                             env: string -> V, ops: (string, seq<V>) -> V, tokens: seq<string>)
    requires RegistryFits(cfg)
    ensures var em := Parse(cfg, tokens);
      var r := Consume(em, ExtractImpl(sem), Lift(wrap));
      (Build<V>(em).Err? ==> r.Err?) &&
      (Build<V>(em).Ok? ==>
         (r.Ok? <==> FreeOps(Build<V>(em).value) == {} && Failing(wrap, Build<V>(em).value) == {})) &&
      (r.Ok? ==>
         Build<V>(em).Ok? && Denote(sem, wrap, env, ops, Build<V>(em).value) == r.value &&
         PartialOf(cfg, sem, wrap, tokens) == Ok(PartialResult(Res(r.value), {}, {})))
  {
    var em := Parse(cfg, tokens);
    ShapeErrors<V, V>(em, ExtractImpl(sem), Lift(wrap));
    if Build<V>(em).Ok? {
      var t := Build<V>(em).value;
      ConsumersFoldTheTree<V, V>(em, ExtractImpl(sem), Lift(wrap));
      InterpretSucceedsIff(sem, wrap, t);
      var r := Consume(em, ExtractImpl(sem), Lift(wrap));
      if r.Ok? {
        ParsedTreeFits<V>(cfg, tokens);
        InterpretIsDenote(sem, wrap, env, ops, t, r.value);
        InterpretIsSimplify(sem, wrap, t, r.value);
        PartialIsSimplify(sem, wrap, t);
      }
    }
  }

  // ----- The partial evaluators -----

  /** `partial` fails exactly when the tree builder does, with the same
      error; otherwise its tree is the simplification of the parsed tree,
      already simplified, and its free names are among the failing
      literals and the unimplemented operators of the parsed tree. */
  lemma PartialOfSpec<V(!new)>(cfg: Config, sem: Semantics<V>, wrap: string -> Option<V>, tokens: seq<string>)
    requires RegistryFits(cfg)
    ensures var b := Build<V>(Parse(cfg, tokens));
      var p := PartialOf(cfg, sem, wrap, tokens);
      (p.Err? <==> b.Err?) && (p.Err? ==> p.error == b.error) &&
      (p.Ok? ==>
         Fits(b.value) && p.value.ast == Simplify(sem, wrap, b.value) &&
         Fits(p.value.ast) && Simplify(sem, wrap, p.value.ast) == p.value.ast &&
         p.value.vars <= Failing(wrap, b.value) && p.value.ops <= FreeOps(b.value))
  {
    var b := Build<V>(Parse(cfg, tokens));
    if b.Ok? {
      ParsedTreeFits<V>(cfg, tokens);
      PartialIsSimplify(sem, wrap, b.value);
      SimplifyIdempotent(sem, wrap, b.value);
      FreeAfterSimplify(sem, wrap, b.value);
    }
  }

  /** `partial` keeps the meaning of the formula when the intrinsics obey
      their algebraic laws and every intrinsic node has its intrinsic's
      number of operands. */
  lemma PartialOfSound<V(!new)>(cfg: Config, sem: Semantics<V>, wrap: string -> Option<V>,
                                  env: string -> V, ops: (string, seq<V>) -> V, tokens: seq<string>)
    requires RegistryFits(cfg) && Lawful(sem)
    requires Build<V>(Parse(cfg, tokens)).Ok? && Exact(Build<V>(Parse(cfg, tokens)).value)
    ensures PartialOf(cfg, sem, wrap, tokens).Ok?
    ensures Denote(sem, wrap, env, ops, PartialOf(cfg, sem, wrap, tokens).value.ast) ==
            Denote(sem, wrap, env, ops, Build<V>(Parse(cfg, tokens)).value)
  {
    var t := Build<V>(Parse(cfg, tokens)).value;
    ParsedTreeFits<V>(cfg, tokens);
    PartialIsSimplify(sem, wrap, t);
    SimplifySound(sem, wrap, env, ops, t);
  }

  /** The older `partial` fails exactly when the tree builder does, with the
      same error; otherwise its tree is the identity-free fold of the parsed
      tree, with the same meaning, its free operators are every
      unimplemented operator of the parsed tree and its free literals every
      failing literal. */
  lemma LegacyPartialOfSpec<V(!new)>(cfg: Config, sem: Semantics<V>, wrap: string -> Option<V>,
                                    env: string -> V, ops: (string, seq<V>) -> V, tokens: seq<string>)
    ensures var b := Build<V>(Parse(cfg, tokens));
      var p := LegacyPartialOf(cfg, sem, wrap, tokens);
      (p.Err? <==> b.Err?) && (p.Err? ==> p.error == b.error) &&
      (p.Ok? ==>
         p.value.ast == FoldOnly(sem, wrap, b.value) &&
         Denote(sem, wrap, env, ops, p.value.ast) == Denote(sem, wrap, env, ops, b.value) &&
         p.value.ops == FreeOps(b.value) && p.value.vars == Failing(wrap, b.value))
  {
    var em := Parse(cfg, tokens);
    assert Total(LegacyNode(sem), LegacyLeaf(wrap));
    ShapeErrors<V, AstNode<V>>(em, LegacyNode(sem), LegacyLeaf(wrap));
    if Build<V>(em).Ok? {
      var t := Build<V>(em).value;
      ConsumersFoldTheTree<V, AstNode<V>>(em, LegacyNode(sem), LegacyLeaf(wrap));
      LegacyFoldIsFoldOnly(sem, wrap, t);
      FoldOnlySound(sem, wrap, env, ops, t);
      FoldOnlyFree(sem, wrap, t);
    }
  }

  /** With the older `partial`, direct interpretation succeeds exactly when
      nothing is left free. */
  lemma LegacyNothingFreeIffInterpret<V(!new)>(cfg: Config, sem: Semantics<V>, wrap: string -> Option<V>,
                                              tokens: seq<string>)
    ensures var em := Parse(cfg, tokens);
      var p := LegacyPartialOf(cfg, sem, wrap, tokens);
      Consume(em, ExtractImpl(sem), Lift(wrap)).Ok? <==> p.Ok? && p.value.ops == {} && p.value.vars == {}
  {
    var em := Parse(cfg, tokens);
    LegacyPartialOfSpec(cfg, sem, wrap, (x: string) => sem.zero, (n: string, vs: seq<V>) => sem.zero, tokens);
    ShapeErrors<V, V>(em, ExtractImpl(sem), Lift(wrap));
    if Build<V>(em).Ok? {
      ConsumersFoldTheTree<V, V>(em, ExtractImpl(sem), Lift(wrap));
      InterpretSucceedsIff(sem, wrap, Build<V>(em).value);
    }
  }

  /** On a formula with no intrinsic-tagged operator the two `partial`s
      give the same tree; the newer one may report fewer free names only
      through its identity rules, which need intrinsics. */
  lemma PartialsAgreeWithoutIntrinsics<V(!new)>(cfg: Config, sem: Semantics<V>, wrap: string -> Option<V>,
                                                  tokens: seq<string>)
    requires RegistryFits(cfg)
    requires Build<V>(Parse(cfg, tokens)).Ok? && HostOnly(Build<V>(Parse(cfg, tokens)).value)
    ensures PartialOf(cfg, sem, wrap, tokens).Ok? && LegacyPartialOf(cfg, sem, wrap, tokens).Ok?
    ensures PartialOf(cfg, sem, wrap, tokens) == LegacyPartialOf(cfg, sem, wrap, tokens)
  {
    var t := Build<V>(Parse(cfg, tokens)).value;
    LegacyPartialOfSpec(cfg, sem, wrap, (x: string) => sem.zero, (n: string, vs: seq<V>) => sem.zero, tokens);
    AgreeWithoutIntrinsics(sem, wrap, t);
    PartialIsSimplify(sem, wrap, t);
  }
}
