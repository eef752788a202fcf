/** The partial evaluator of the older monolithic copy (`partial` of
    index.ts): it folds while the postfix stream is being reduced, has no
    identity rules, and collects the free names as it goes. */
module Legacy {
  import opened Types
  import opened Intrinsics
  import opened Interpret
  import opened Evaluate

  /** The reducer's work on one operator: fold when the operator has an
      implementation and every argument is resolved, else keep the node. */
  function FoldNode<V>(sem: Semantics<V>, op: OpInfo, args: seq<AstNode<V>>): AstNode<V> {
    if op.fn.Some? && AllResults(args) then Res(Apply(sem, op.fn.value, Values(args))) else Opr(op, args)
  }

  function LegacyNode<V>(sem: Semantics<V>): (OpInfo, seq<AstNode<V>>) -> Result<AstNode<V>> {
    (op: OpInfo, args: seq<AstNode<V>>) => Ok(FoldNode(sem, op, args))
  }

  /** The lifter: a known literal becomes a result, an unknown one stays a
      name (the lookup's throw is caught). */
  function LegacyLeaf<V>(wrap: string -> Option<V>): string -> Result<AstNode<V>> {
    (x: string) => if wrap(x).Some? then Ok(Res(wrap(x).value)) else Ok(Val(x))
  }

  /** Folding a whole tree bottom-up without identity rules. */
  function FoldOnly<V>(sem: Semantics<V>, wrap: string -> Option<V>, t: AstNode<V>): AstNode<V>
    decreases t
  {
    match t
    case Res(_) => t
    case Val(x) => if wrap(x).Some? then Res(wrap(x).value) else t
    case Opr(op, args) =>
      FoldNode(sem, op, seq(|args|, i requires 0 <= i < |args| => FoldOnly(sem, wrap, args[i])))
  }

  /** Reducing a tree's postfix order with the older reducers gives the
      fold of the tree. */
  lemma {:induction false} LegacyFoldIsFoldOnly<V>(sem: Semantics<V>, wrap: string -> Option<V>, t: AstNode<V>)
    requires Parsed(t)
    ensures FoldTree(t, LegacyNode(sem), LegacyLeaf(wrap)) == Ok(FoldOnly(sem, wrap, t))
    decreases t, 1
  {
    if t.Opr? {
      LegacyFoldAllIsFoldOnly(sem, wrap, t.args);
    }
  }

  lemma {:induction false} LegacyFoldAllIsFoldOnly<V>(sem: Semantics<V>, wrap: string -> Option<V>, ts: seq<AstNode<V>>)
    requires AllParsed(ts)
    ensures FoldAll(ts, LegacyNode(sem), LegacyLeaf(wrap)) ==
            Ok(seq(|ts|, i requires 0 <= i < |ts| => FoldOnly(sem, wrap, ts[i])))
    decreases ts, 0
  {
    if ts != [] {
      var init := ts[..|ts| - 1];
      assert AllParsed(init) && Parsed(ts[|ts| - 1]);
      LegacyFoldAllIsFoldOnly(sem, wrap, init);
      LegacyFoldIsFoldOnly(sem, wrap, ts[|ts| - 1]);
      var whole := seq(|ts|, i requires 0 <= i < |ts| => FoldOnly(sem, wrap, ts[i]));
      var front := seq(|init|, i requires 0 <= i < |init| => FoldOnly(sem, wrap, init[i]));
      assert whole == front + [FoldOnly(sem, wrap, ts[|ts| - 1])];
      assert FoldAll(init, LegacyNode(sem), LegacyLeaf(wrap)) == Ok(front);
      assert FoldTree(ts[|ts| - 1], LegacyNode(sem), LegacyLeaf(wrap)) == Ok(FoldOnly(sem, wrap, ts[|ts| - 1]));
      assert FoldAll(ts, LegacyNode(sem), LegacyLeaf(wrap)) == Ok(whole);
    } else {
      assert FoldAll(ts, LegacyNode(sem), LegacyLeaf(wrap)) == Ok([]);
      assert seq(|ts|, i requires 0 <= i < |ts| => FoldOnly(sem, wrap, ts[i])) == [];
    }
  }

  /** Folding without identity rules needs no algebraic laws to preserve
      meaning. */
  lemma {:induction false} FoldOnlySound<V>(sem: Semantics<V>, wrap: string -> Option<V>, env: string -> V,
                                           ops: (string, seq<V>) -> V, t: AstNode<V>)
    ensures Denote(sem, wrap, env, ops, FoldOnly(sem, wrap, t)) == Denote(sem, wrap, env, ops, t)
    decreases t
  {
    if t.Opr? {
      var args := seq(|t.args|, i requires 0 <= i < |t.args| => FoldOnly(sem, wrap, t.args[i]));
      forall i | 0 <= i < |t.args|
        ensures DenoteAll(sem, wrap, env, ops, args)[i] == DenoteAll(sem, wrap, env, ops, t.args)[i]
      {
        FoldOnlySound(sem, wrap, env, ops, t.args[i]);
        DenoteAllIndex(sem, wrap, env, ops, args, i);
        DenoteAllIndex(sem, wrap, env, ops, t.args, i);
      }
      var vs := DenoteAll(sem, wrap, env, ops, t.args);
      assert DenoteAll(sem, wrap, env, ops, args) == vs;
      if t.op.fn.Some? && AllResults(args) {
        assert Values(args) == vs by {
          forall i | 0 <= i < |args| ensures Values(args)[i] == vs[i] {
            DenoteAllIndex(sem, wrap, env, ops, args, i);
          }
        }
      }
    }
  }

  /** Without identity rules nothing is dropped: the unimplemented
      operators of the tree all survive, and the free literals are exactly
      those whose lookup fails. */
  lemma {:induction false} FoldOnlyFree<V>(sem: Semantics<V>, wrap: string -> Option<V>, t: AstNode<V>)
    ensures FreeOps(FoldOnly(sem, wrap, t)) == FreeOps(t)
    ensures FreeVars(FoldOnly(sem, wrap, t)) == Failing(wrap, t)
    decreases t
  {
    if t.Opr? {
      var args := seq(|t.args|, i requires 0 <= i < |t.args| => FoldOnly(sem, wrap, t.args[i]));
      forall i | 0 <= i < |t.args| ensures FreeOps(args[i]) == FreeOps(t.args[i]) && FreeVars(args[i]) == Failing(wrap, t.args[i]) {
        FoldOnlyFree(sem, wrap, t.args[i]);
      }
      FreePointwise(sem, wrap, t.args, args);
      assert Failing(wrap, t) == FailingAll(wrap, t.args);
      if t.op.fn.Some? && AllResults(args) {
        NoFreeInResults(args);
      }
    }
  }

  lemma {:induction false} FreePointwise<V>(sem: Semantics<V>, wrap: string -> Option<V>, ts: seq<AstNode<V>>, us: seq<AstNode<V>>)
    requires |ts| == |us|
    requires forall i | 0 <= i < |ts| :: FreeOps(us[i]) == FreeOps(ts[i]) && FreeVars(us[i]) == Failing(wrap, ts[i])
    ensures FreeOpsAll(us) == FreeOpsAll(ts) && FreeVarsAll(us) == FailingAll(wrap, ts)
    decreases |ts|
  {
    if ts != [] {
      FreePointwise(sem, wrap, ts[1..], us[1..]);
      assert FailingAll(wrap, ts) == Failing(wrap, ts[0]) + FailingAll(wrap, ts[1..]);
    }
  }

  lemma {:induction false} NoFreeInResults<V>(ts: seq<AstNode<V>>)
    requires AllResults(ts)
    ensures FreeOpsAll(ts) == {} && FreeVarsAll(ts) == {}
    decreases |ts|
  {
    if ts != [] {
      NoFreeInResults(ts[1..]);
    }
  }

  /** One reduction step keeps the free names of its arguments and adds the
      operator's own name when it has no implementation. */
  lemma FoldNodeFree<V>(sem: Semantics<V>, op: OpInfo, args: seq<AstNode<V>>)
    ensures FreeOps(FoldNode(sem, op, args)) == FreeOpsAll(args) + if op.fn.None? then {op.name} else {}
    ensures FreeVars(FoldNode(sem, op, args)) == FreeVarsAll(args)
  {
    if op.fn.Some? && AllResults(args) {
      NoFreeInResults(args);
    }
  }

  /** No node tagged with an intrinsic. */
  predicate HostOnly<V>(t: AstNode<V>)
    decreases t
  {
    match t
    case Res(_) => true
    case Val(_) => true
    case Opr(op, args) => !(op.fn.Some? && op.fn.value.Builtin?) && forall i | 0 <= i < |args| :: HostOnly(args[i])
  }

  /** The two partial evaluators differ only by the identity rules: on a
      tree without intrinsic tags they agree. */
  lemma {:induction false} AgreeWithoutIntrinsics<V>(sem: Semantics<V>, wrap: string -> Option<V>, t: AstNode<V>)
    requires HostOnly(t)
    ensures Fits(t)
    ensures Simplify(sem, wrap, t) == FoldOnly(sem, wrap, t)
    decreases t
  {
    if t.Opr? {
      forall i | 0 <= i < |t.args| ensures Fits(t.args[i]) && Simplify(sem, wrap, t.args[i]) == FoldOnly(sem, wrap, t.args[i]) {
        AgreeWithoutIntrinsics(sem, wrap, t.args[i]);
      }
      SimplifyAllFits(sem, wrap, t.args);
      assert SimplifyAll(sem, wrap, t.args) == seq(|t.args|, i requires 0 <= i < |t.args| => FoldOnly(sem, wrap, t.args[i]));
    }
  }

  // ----- The reducers of index.ts's `partial`, run in place -----

  /** The operator reducer of index.ts's `partial`: an operator without an
      implementation is recorded as missing and kept; one with an
      implementation folds when every argument is resolved. */
  method LegacyImpl<V>(sem: Semantics<V>, op: OpInfo, args: seq<AstNode<V>>, missing0: set<string>)
    returns (node: AstNode<V>, missing: set<string>)
    ensures node == FoldNode(sem, op, args)
    ensures missing == missing0 + (if op.fn.None? then {op.name} else {})
    ensures FreeOps(node) == FreeOpsAll(args) + (if op.fn.None? then {op.name} else {})
    ensures FreeVars(node) == FreeVarsAll(args)
  {
    missing := missing0;
    if op.fn.None? {
      missing := missing + {op.name};
      node := Opr(op, args);
    } else if AllResults(args) {
      node := Res(Apply(sem, op.fn.value, Values(args)));
    } else {
      node := Opr(op, args);
    }
    FoldNodeFree(sem, op, args);
  }

  /** The literal lifter of index.ts's `partial`: a literal already known
      to be missing is not looked up again; otherwise a successful lookup
      gives a result and a throwing one records the literal. With every
      recorded literal one whose lookup throws, this is the uncached lifter. */
  method LegacyVal<V>(wrap: string -> Option<V>, x: string, missing0: set<string>)
    returns (node: AstNode<V>, missing: set<string>)
    requires forall y | y in missing0 :: wrap(y).None?
    ensures LegacyLeaf(wrap)(x) == Ok(node)
    ensures missing == missing0 + (if wrap(x).None? then {x} else {})
    ensures forall y | y in missing :: wrap(y).None?
    ensures FreeOps(node) == {}
    ensures FreeVars(node) == (if wrap(x).None? then {x} else {})
  {
    missing := missing0;
    if x in missing {
      node := Val(x);
    } else if wrap(x).Some? {
      node := Res(wrap(x).value);
    } else {
      missing := missing + {x};
      node := Val(x);
    }
  }

  /** The reducer loop of index.ts (`_interpret`) run with the reducers of
      its `partial`: the stack it leaves is the older reducers' reduction,
      and the sets hold exactly the free names left on that stack. */
  method LegacyReduce<V>(sem: Semantics<V>, wrap: string -> Option<V>, toks: seq<Token>)
    returns (r: Result<seq<AstNode<V>>>, missingImpls: set<string>, missingVals: set<string>)
    ensures r == ReduceAll([], toks, LegacyNode(sem), LegacyLeaf(wrap))
    ensures r.Ok? ==> missingImpls == FreeOpsAll(r.value) && missingVals == FreeVarsAll(r.value)
  {
    var impl := LegacyNode(sem);
    var lift := LegacyLeaf(wrap);
    var vstack: seq<AstNode<V>> := [];
    missingImpls, missingVals := {}, {};
    for i := 0 to |toks|
      invariant ReduceAll([], toks, impl, lift) == ReduceAll(vstack, toks[i..], impl, lift)
      invariant missingImpls == FreeOpsAll(vstack) && missingVals == FreeVarsAll(vstack)
      invariant forall x | x in missingVals :: wrap(x).None?
    {
      var node: AstNode<V>;
      var below: seq<AstNode<V>>;
      match toks[i] {
        case OperatorToken(op) =>
          var arity := Arity(op);
          if |vstack| < arity {
            assert toks[i..][0] == toks[i];
            return Err(MissingValues), missingImpls, missingVals;
          }
          var args := vstack[|vstack| - arity..];
          below := vstack[..|vstack| - arity];
          assert vstack == below + args;
          FreeAllAppend(below, args);
          node, missingImpls := LegacyImpl(sem, op, args, missingImpls);
        case ValueToken(x) =>
          below := vstack;
          node, missingVals := LegacyVal(wrap, x, missingVals);
      }
      assert Push(vstack, toks[i], impl, lift) == Ok(below + [node]);
      ReduceStep(vstack, toks, i, impl, lift, below + [node]);
      FreeAllAppend(below, [node]);
      FreeAllSingle(node);
      vstack := below + [node];
    }
    assert toks[|toks|..] == [];
    r := Ok(vstack);
  }
}
