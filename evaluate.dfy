/** Partial evaluation (`partial` of evaluate.ts): resolve the literals the
    lookup knows, fold operators whose arguments are all resolved, and apply
    the identity-rewrite table to intrinsic operators with mixed arguments.
    A lookup that failed once is remembered and never retried. */
module Evaluate {
  import opened Types
  import opened Intrinsics

  // ----- Shape requirements -----

  /** Every operator node tagged with an intrinsic has at least the
      operands that intrinsic's rewrite rule reads. */
  predicate Fits<V>(t: AstNode<V>)
    decreases t
  {
    match t
    case Res(_) => true
    case Val(_) => true
    case Opr(op, args) =>
      (op.fn.Some? && op.fn.value.Builtin? ==> |args| >= TagArity(op.fn.value.tag)) &&
      forall i | 0 <= i < |args| :: Fits(args[i])
  }

  /** Every operator node tagged with an intrinsic has exactly that
      intrinsic's number of operands, as the algebraic laws are stated for. */
  predicate Exact<V>(t: AstNode<V>)
    decreases t
  {
    match t
    case Res(_) => true
    case Val(_) => true
    case Opr(op, args) =>
      (op.fn.Some? && op.fn.value.Builtin? ==> |args| == TagArity(op.fn.value.tag)) &&
      forall i | 0 <= i < |args| :: Exact(args[i])
  }

  lemma {:induction false} ExactFits<V>(t: AstNode<V>)
    requires Exact(t)
    ensures Fits(t)
    decreases t
  {
    if t.Opr? {
      forall i | 0 <= i < |t.args| ensures Fits(t.args[i]) {
        ExactFits(t.args[i]);
      }
    }
  }

  // ----- One node, given its simplified arguments -----

  predicate AllResults<V>(args: seq<AstNode<V>>) {
    forall i | 0 <= i < |args| :: args[i].Res?
  }

  function Values<V>(args: seq<AstNode<V>>): seq<V>
    requires AllResults(args)
  {
    seq(|args|, i requires 0 <= i < |args| => args[i].value)
  }

  /** What `eval_node` makes of an operator once its arguments are
      simplified: kept when unimplemented, folded when every argument is
      resolved, otherwise rewritten by the intrinsic's rule or kept. */
  function Reduce<V(==)>(sem: Semantics<V>, op: OpInfo, args: seq<AstNode<V>>): AstNode<V>
    requires op.fn.Some? && op.fn.value.Builtin? ==> |args| >= TagArity(op.fn.value.tag)
  {
    match op.fn
    case None => Opr(op, args)
    case Some(impl) =>
      if AllResults(args) then Res(Apply(sem, impl, Values(args)))
      else if impl.Builtin? then Rewrite(sem, impl.tag, Opr(op, args), args)
      else Opr(op, args)
  }

  // ----- The evaluator with its failed-lookup cache -----

  /** The lookup bookkeeping of one `partial` call: the names whose lookup
      failed (`mvals`) and, for the record, every lookup made, in order. */
  datatype Lookups = Lookups(failed: set<string>, calls: seq<string>)

  /** `eval_node`: the simplified node and the bookkeeping after it. */
  function EvalNode<V(==)>(sem: Semantics<V>, wrap: string -> Option<V>, m: Lookups, t: AstNode<V>)
    : (r: (AstNode<V>, Lookups))
    requires Fits(t)
    ensures m.failed <= r.1.failed
    ensures |m.calls| <= |r.1.calls| && r.1.calls[..|m.calls|] == m.calls
    decreases t, 1
  {
    match t
    case Res(_) => (t, m)
    case Val(x) =>
      if x in m.failed then (t, m)
      else
        var called := m.(calls := m.calls + [x]);
        (match wrap(x)
         case Some(v) => (Res(v), called)
         case None => (t, called.(failed := m.failed + {x})))
    case Opr(op, params) =>
      var (args, m') := EvalArgs(sem, wrap, m, params);
      (Reduce(sem, op, args), m')
  }

  /** `params.map(eval_node)`: the arguments left to right, sharing the
      bookkeeping. */
  function EvalArgs<V(==)>(sem: Semantics<V>, wrap: string -> Option<V>, m: Lookups, ts: seq<AstNode<V>>)
    : (r: (seq<AstNode<V>>, Lookups))
    requires forall i | 0 <= i < |ts| :: Fits(ts[i])
    ensures |r.0| == |ts|
    ensures m.failed <= r.1.failed
    ensures |m.calls| <= |r.1.calls| && r.1.calls[..|m.calls|] == m.calls
    decreases ts, 0
  {
    if ts == [] then ([], m)
    else
      var (a, m1) := EvalNode(sem, wrap, m, ts[0]);
      var (rest, m2) := EvalArgs(sem, wrap, m1, ts[1..]);
      ([a] + rest, m2)
  }

  /** `partial(ast, wrap)`: evaluation starts with no failed names. */
  function Partial<V(==)>(sem: Semantics<V>, wrap: string -> Option<V>, t: AstNode<V>): AstNode<V>
    requires Fits(t)
  {
    EvalNode(sem, wrap, Lookups({}, []), t).0
  }

  // ----- The cache-free reference -----

  /** The simplification `eval_node` computes, without any cache: every
      literal is looked up. */
  function Simplify<V(==)>(sem: Semantics<V>, wrap: string -> Option<V>, t: AstNode<V>): AstNode<V>
    requires Fits(t)
    decreases t, 1
  {
    match t
    case Res(_) => t
    case Val(x) => if wrap(x).Some? then Res(wrap(x).value) else t
    case Opr(op, params) => Reduce(sem, op, SimplifyAll(sem, wrap, params))
  }

  function SimplifyAll<V(==)>(sem: Semantics<V>, wrap: string -> Option<V>, ts: seq<AstNode<V>>): (r: seq<AstNode<V>>)
    requires forall i | 0 <= i < |ts| :: Fits(ts[i])
    ensures |r| == |ts|
    decreases ts, 0
  {
    if ts == [] then [] else [Simplify(sem, wrap, ts[0])] + SimplifyAll(sem, wrap, ts[1..])
  }

  /** The names of the literal leaves of a tree. */
  function Names<V>(t: AstNode<V>): set<string>
    decreases t, 1
  {
    match t
    case Res(_) => {}
    case Val(x) => {x}
    case Opr(_, args) => NamesAll(args)
  }

  function NamesAll<V>(ts: seq<AstNode<V>>): set<string>
    decreases ts, 0
  {
    if ts == [] then {} else Names(ts[0]) + NamesAll(ts[1..])
  }

  /** The names of a tree whose lookup fails. */
  function Failing<V>(wrap: string -> Option<V>, t: AstNode<V>): set<string> {
    set x | x in Names(t) && wrap(x).None?
  }

  function FailingAll<V>(wrap: string -> Option<V>, ts: seq<AstNode<V>>): set<string> {
    set x | x in NamesAll(ts) && wrap(x).None?
  }

  /** The bookkeeping agrees with the lookup: every name recorded as failed
      does fail. */
  ghost predicate Consistent<V>(wrap: string -> Option<V>, m: Lookups) {
    forall x | x in m.failed :: wrap(x).None?
  }

  /** The cache is transparent: with consistent bookkeeping, `eval_node`
      computes the cache-free simplification, and the failed set grows by
      exactly the failing names of the tree. */
  lemma {:induction false} EvalNodeIsSimplify<V>(sem: Semantics<V>, wrap: string -> Option<V>, m: Lookups, t: AstNode<V>)
    requires Fits(t) && Consistent(wrap, m)
    ensures EvalNode(sem, wrap, m, t).0 == Simplify(sem, wrap, t)
    ensures EvalNode(sem, wrap, m, t).1.failed == m.failed + Failing(wrap, t)
    decreases t, 1
  {
    match t
    case Res(_) =>
    case Val(x) =>
    case Opr(op, params) =>
      EvalArgsIsSimplifyAll(sem, wrap, m, params);
      assert Failing(wrap, t) == FailingAll(wrap, params);
  }

  lemma {:induction false} EvalArgsIsSimplifyAll<V>(sem: Semantics<V>, wrap: string -> Option<V>, m: Lookups, ts: seq<AstNode<V>>)
    requires forall i | 0 <= i < |ts| :: Fits(ts[i])
    requires Consistent(wrap, m)
    ensures EvalArgs(sem, wrap, m, ts).0 == SimplifyAll(sem, wrap, ts)
    ensures EvalArgs(sem, wrap, m, ts).1.failed == m.failed + FailingAll(wrap, ts)
    decreases ts, 0
  {
    if ts != [] {
      var (a, m1) := EvalNode(sem, wrap, m, ts[0]);
      EvalNodeIsSimplify(sem, wrap, m, ts[0]);
      EvalArgsIsSimplifyAll(sem, wrap, m1, ts[1..]);
      assert FailingAll(wrap, ts) == Failing(wrap, ts[0]) + FailingAll(wrap, ts[1..]);
    }
  }

  /** Hence `partial` is the cache-free simplification, and the names it
      remembers as failed are exactly the tree's failing names. */
  lemma PartialIsSimplify<V>(sem: Semantics<V>, wrap: string -> Option<V>, t: AstNode<V>)
    requires Fits(t)
    ensures Partial(sem, wrap, t) == Simplify(sem, wrap, t)
    ensures EvalNode(sem, wrap, Lookups({}, []), t).1.failed == Failing(wrap, t)
  {
    EvalNodeIsSimplify(sem, wrap, Lookups({}, []), t);
  }

  /** The lookups made between bookkeeping `m` and `r` respect the cache:
      each is a name of `names` not already failed, each failing one was
      recorded as failed, and no failing name was looked up twice. */
  ghost predicate Disciplined<V>(wrap: string -> Option<V>, m: Lookups, r: Lookups, names: set<string>)
    requires |m.calls| <= |r.calls|
  {
    (forall i | |m.calls| <= i < |r.calls| :: r.calls[i] !in m.failed && r.calls[i] in names) &&
    (forall i | |m.calls| <= i < |r.calls| && wrap(r.calls[i]).None? :: r.calls[i] in r.failed) &&
    (forall i, j | |m.calls| <= i < j < |r.calls| && r.calls[i] == r.calls[j] :: wrap(r.calls[i]).Some?)
  }

  /** A failed name is never looked up again: the lookups one evaluation
      makes are names of the tree not already failed, each failing name is
      looked up at most once, and every failing lookup is recorded. */
  lemma {:induction false} NoRetry<V>(sem: Semantics<V>, wrap: string -> Option<V>, m: Lookups, t: AstNode<V>)
    requires Fits(t)
    ensures Disciplined(wrap, m, EvalNode(sem, wrap, m, t).1, Names(t))
    decreases t, 1
  {
    if t.Opr? {
      NoRetryAll(sem, wrap, m, t.args);
      assert EvalNode(sem, wrap, m, t).1 == EvalArgs(sem, wrap, m, t.args).1;
      assert Names(t) == NamesAll(t.args);
    }
  }

  lemma {:induction false} NoRetryAll<V>(sem: Semantics<V>, wrap: string -> Option<V>, m: Lookups, ts: seq<AstNode<V>>)
    requires forall i | 0 <= i < |ts| :: Fits(ts[i])
    ensures Disciplined(wrap, m, EvalArgs(sem, wrap, m, ts).1, NamesAll(ts))
    decreases ts, 0
  {
    if ts != [] {
      var m1 := EvalNode(sem, wrap, m, ts[0]).1;
      var m2 := EvalArgs(sem, wrap, m1, ts[1..]).1;
      NoRetry(sem, wrap, m, ts[0]);
      NoRetryAll(sem, wrap, m1, ts[1..]);
      assert EvalArgs(sem, wrap, m, ts).1 == m2;
      assert NamesAll(ts) == Names(ts[0]) + NamesAll(ts[1..]);
      var lo, mid, hi := |m.calls|, |m1.calls|, |m2.calls|;
      assert forall i | 0 <= i < mid :: m2.calls[i] == m2.calls[..mid][i] == m1.calls[i];
      forall i | lo <= i < hi
        ensures m2.calls[i] !in m.failed && m2.calls[i] in NamesAll(ts)
        ensures wrap(m2.calls[i]).None? ==> m2.calls[i] in m2.failed
      {
        if i < mid {
          assert m1.calls[i] !in m.failed && m1.calls[i] in Names(ts[0]);
          assert wrap(m1.calls[i]).None? ==> m1.calls[i] in m1.failed;
        } else {
          assert m2.calls[i] !in m1.failed && m2.calls[i] in NamesAll(ts[1..]);
        }
      }
      forall i, j | lo <= i < j < hi && m2.calls[i] == m2.calls[j]
        ensures wrap(m2.calls[i]).Some?
      {
        if j < mid {
          assert m1.calls[i] == m1.calls[j];
        } else if i < mid {
          assert m2.calls[j] !in m1.failed;
          assert m2.calls[i] == m1.calls[i];
        }
      }
    }
  }

  // ----- What the simplified tree means -----

  /** The value of a tree: resolved leaves are their value, literals their
      lookup, or else the environment's value for the name; operators apply
      their implementation, or else the environment's meaning of the
      operator's name. */
  function Denote<V>(sem: Semantics<V>, wrap: string -> Option<V>, env: string -> V,
                     ops: (string, seq<V>) -> V, t: AstNode<V>): V
    decreases t, 1
  {
    match t
    case Res(v) => v
    case Val(x) => if wrap(x).Some? then wrap(x).value else env(x)
    case Opr(op, args) =>
      var vs := DenoteAll(sem, wrap, env, ops, args);
      if op.fn.Some? then Apply(sem, op.fn.value, vs) else ops(op.name, vs)
  }

  function DenoteAll<V>(sem: Semantics<V>, wrap: string -> Option<V>, env: string -> V,
                        ops: (string, seq<V>) -> V, ts: seq<AstNode<V>>): (r: seq<V>)
    ensures |r| == |ts|
    decreases ts, 0
  {
    if ts == [] then [] else [Denote(sem, wrap, env, ops, ts[0])] + DenoteAll(sem, wrap, env, ops, ts[1..])
  }

  lemma {:induction false} DenoteAllIndex<V>(sem: Semantics<V>, wrap: string -> Option<V>, env: string -> V,
                                            ops: (string, seq<V>) -> V, ts: seq<AstNode<V>>, i: nat)
    requires i < |ts|
    ensures DenoteAll(sem, wrap, env, ops, ts)[i] == Denote(sem, wrap, env, ops, ts[i])
    decreases i
  {
    if i > 0 {
      DenoteAllIndex(sem, wrap, env, ops, ts[1..], i - 1);
    }
  }

  /** A rewrite by the identity table preserves the value of the node,
      provided the intrinsics obey the laws the table presumes. */
  lemma RewriteSound<V(!new)>(sem: Semantics<V>, wrap: string -> Option<V>, env: string -> V,
                            ops: (string, seq<V>) -> V, tag: Intrinsic, op: OpInfo, args: seq<AstNode<V>>)
    requires Lawful(sem)
    requires op.fn == Some(Builtin(tag)) && |args| == TagArity(tag)
    ensures Denote(sem, wrap, env, ops, Rewrite(sem, tag, Opr(op, args), args)) ==
            Denote(sem, wrap, env, ops, Opr(op, args))
  {
    var vs := DenoteAll(sem, wrap, env, ops, args);
    DenoteAllIndex(sem, wrap, env, ops, args, 0);
    if TagArity(tag) == 2 {
      DenoteAllIndex(sem, wrap, env, ops, args, 1);
      assert vs == [vs[0], vs[1]];
      if tag == SUB && !Is(args[1], sem.zero) && Is(args[0], sem.zero) && !args[1].Res? {
        var neg := Opr(NegInfo, [args[1]]);
        DenoteAllIndex(sem, wrap, env, ops, [args[1]], 0);
        assert DenoteAll(sem, wrap, env, ops, [args[1]]) == [vs[1]];
      }
    }
  }

  /** Partial evaluation preserves meaning: under the laws, for every
      environment for the names left free, the simplified tree has the value
      of the original. */
  lemma {:induction false} SimplifySound<V(!new)>(sem: Semantics<V>, wrap: string -> Option<V>, env: string -> V,
                                               ops: (string, seq<V>) -> V, t: AstNode<V>)
    requires Lawful(sem) && Exact(t)
    ensures Fits(t)
    ensures Denote(sem, wrap, env, ops, Simplify(sem, wrap, t)) == Denote(sem, wrap, env, ops, t)
    decreases t, 1
  {
    ExactFits(t);
    match t
    case Res(_) =>
    case Val(_) =>
    case Opr(op, params) =>
      var args := SimplifyAll(sem, wrap, params);
      SimplifyAllSound(sem, wrap, env, ops, params);
      var vs := DenoteAll(sem, wrap, env, ops, params);
      assert DenoteAll(sem, wrap, env, ops, args) == vs;
      if op.fn.Some? {
        var impl := op.fn.value;
        if AllResults(args) {
          assert Values(args) == vs by {
            forall i | 0 <= i < |args| ensures Values(args)[i] == vs[i] {
              DenoteAllIndex(sem, wrap, env, ops, args, i);
            }
          }
        } else if impl.Builtin? {
          RewriteSound(sem, wrap, env, ops, impl.tag, op, args);
        }
      }
  }

  lemma {:induction false} SimplifyAllSound<V(!new)>(sem: Semantics<V>, wrap: string -> Option<V>, env: string -> V,
                                                  ops: (string, seq<V>) -> V, ts: seq<AstNode<V>>)
    requires Lawful(sem)
    requires forall i | 0 <= i < |ts| :: Exact(ts[i])
    ensures forall i | 0 <= i < |ts| :: Fits(ts[i])
    ensures DenoteAll(sem, wrap, env, ops, SimplifyAll(sem, wrap, ts)) == DenoteAll(sem, wrap, env, ops, ts)
    decreases ts, 0
  {
    if ts != [] {
      SimplifySound(sem, wrap, env, ops, ts[0]);
      SimplifyAllSound(sem, wrap, env, ops, ts[1..]);
      assert forall i | 1 <= i < |ts| :: ts[i] == ts[1..][i - 1];
    }
  }

  // ----- Shape of the simplified tree -----

  /** Simplification keeps the shape requirement, so it can be run again. */
  lemma {:induction false} SimplifyFits<V>(sem: Semantics<V>, wrap: string -> Option<V>, t: AstNode<V>)
    requires Fits(t)
    ensures Fits(Simplify(sem, wrap, t))
    decreases t, 1
  {
    if t.Opr? {
      var args := SimplifyAll(sem, wrap, t.args);
      SimplifyAllFits(sem, wrap, t.args);
      assert Fits(Opr(t.op, args));
      if t.op.fn.Some? && !AllResults(args) && t.op.fn.value.Builtin? {
        var r := Rewrite(sem, t.op.fn.value.tag, Opr(t.op, args), args);
        if t.op.fn.value.tag == SUB && r == Opr(NegInfo, [args[1]]) {
          assert Fits(args[1]);
        }
      }
    }
  }

  lemma {:induction false} SimplifyAllFits<V>(sem: Semantics<V>, wrap: string -> Option<V>, ts: seq<AstNode<V>>)
    requires forall i | 0 <= i < |ts| :: Fits(ts[i])
    ensures forall i | 0 <= i < |ts| :: Fits(SimplifyAll(sem, wrap, ts)[i])
    ensures forall i | 0 <= i < |ts| :: SimplifyAll(sem, wrap, ts)[i] == Simplify(sem, wrap, ts[i])
    decreases ts, 0
  {
    if ts != [] {
      SimplifyFits(sem, wrap, ts[0]);
      SimplifyAllFits(sem, wrap, ts[1..]);
      assert forall i | 1 <= i < |ts| :: ts[i] == ts[1..][i - 1];
    }
  }

  /** Simplification is idempotent: a simplified tree has nothing left to
      fold, look up or rewrite. */
  lemma {:induction false} SimplifyIdempotent<V>(sem: Semantics<V>, wrap: string -> Option<V>, t: AstNode<V>)
    requires Fits(t)
    ensures Fits(Simplify(sem, wrap, t))
    ensures Simplify(sem, wrap, Simplify(sem, wrap, t)) == Simplify(sem, wrap, t)
    decreases t, 1
  {
    SimplifyFits(sem, wrap, t);
    if t.Opr? {
      var op := t.op;
      var args := SimplifyAll(sem, wrap, t.args);
      SimplifyAllFits(sem, wrap, t.args);
      SimplifyAllIdempotent(sem, wrap, t.args);
      assert SimplifyAll(sem, wrap, args) == args;
      var r := Simplify(sem, wrap, t);
      if op.fn.Some? && !AllResults(args) && op.fn.value.Builtin? {
        if op.fn.value.tag == SUB && r == Opr(NegInfo, [args[1]]) {
          assert Simplify(sem, wrap, args[1]) == args[1];
          assert SimplifyAll(sem, wrap, [args[1]]) == [args[1]];
        } else if r == args[0] {
          assert Simplify(sem, wrap, args[0]) == args[0];
        } else if TagArity(op.fn.value.tag) == 2 && r == args[1] {
          assert Simplify(sem, wrap, args[1]) == args[1];
        }
      }
    }
  }

  lemma {:induction false} SimplifyAllIdempotent<V>(sem: Semantics<V>, wrap: string -> Option<V>, ts: seq<AstNode<V>>)
    requires forall i | 0 <= i < |ts| :: Fits(ts[i])
    ensures forall i | 0 <= i < |ts| :: Fits(SimplifyAll(sem, wrap, ts)[i])
    ensures forall i | 0 <= i < |ts| ::
      Simplify(sem, wrap, SimplifyAll(sem, wrap, ts)[i]) == SimplifyAll(sem, wrap, ts)[i]
    ensures SimplifyAll(sem, wrap, SimplifyAll(sem, wrap, ts)) == SimplifyAll(sem, wrap, ts)
    decreases ts, 0
  {
    if ts != [] {
      SimplifyIdempotent(sem, wrap, ts[0]);
      SimplifyAllIdempotent(sem, wrap, ts[1..]);
      var a := SimplifyAll(sem, wrap, ts);
      assert a == [Simplify(sem, wrap, ts[0])] + SimplifyAll(sem, wrap, ts[1..]);
      assert a[1..] == SimplifyAll(sem, wrap, ts[1..]);
      forall i | 0 <= i < |ts| ensures Fits(a[i]) && Simplify(sem, wrap, a[i]) == a[i] {
        if i > 0 {
          assert a[i] == a[1..][i - 1];
        }
      }
    }
  }

  // ----- The free names of a tree -----

  /** The names of the literal leaves left in a tree (`vars`). */
  function FreeVars<V>(t: AstNode<V>): set<string>
    decreases t, 1
  {
    match t
    case Res(_) => {}
    case Val(x) => {x}
    case Opr(_, args) => FreeVarsAll(args)
  }

  function FreeVarsAll<V>(ts: seq<AstNode<V>>): set<string>
    decreases ts, 0
  {
    if ts == [] then {} else FreeVars(ts[0]) + FreeVarsAll(ts[1..])
  }

  /** The names of the operators left in a tree with no implementation
      (`ops`). */
  function FreeOps<V>(t: AstNode<V>): set<string>
    decreases t, 1
  {
    match t
    case Res(_) => {}
    case Val(_) => {}
    case Opr(op, args) => FreeOpsAll(args) + if op.fn.None? then {op.name} else {}
  }

  function FreeOpsAll<V>(ts: seq<AstNode<V>>): set<string>
    decreases ts, 0
  {
    if ts == [] then {} else FreeOps(ts[0]) + FreeOpsAll(ts[1..])
  }

  /** The free names are what the value depends on: two environments that
      agree on the free literals and the free operators give a tree the same
      value. */
  lemma {:induction false} DenoteDependsOnFree<V>(sem: Semantics<V>, wrap: string -> Option<V>,
                                                 env1: string -> V, ops1: (string, seq<V>) -> V,
                                                 env2: string -> V, ops2: (string, seq<V>) -> V, t: AstNode<V>)
    requires forall x | x in FreeVars(t) :: env1(x) == env2(x)
    requires forall n, vs | n in FreeOps(t) :: ops1(n, vs) == ops2(n, vs)
    ensures Denote(sem, wrap, env1, ops1, t) == Denote(sem, wrap, env2, ops2, t)
    decreases t, 1
  {
    if t.Opr? {
      DenoteAllDependsOnFree(sem, wrap, env1, ops1, env2, ops2, t.args);
    }
  }

  lemma {:induction false} DenoteAllDependsOnFree<V>(sem: Semantics<V>, wrap: string -> Option<V>,
                                                    env1: string -> V, ops1: (string, seq<V>) -> V,
                                                    env2: string -> V, ops2: (string, seq<V>) -> V, ts: seq<AstNode<V>>)
    requires forall x | x in FreeVarsAll(ts) :: env1(x) == env2(x)
    requires forall n, vs | n in FreeOpsAll(ts) :: ops1(n, vs) == ops2(n, vs)
    ensures DenoteAll(sem, wrap, env1, ops1, ts) == DenoteAll(sem, wrap, env2, ops2, ts)
    decreases ts, 0
  {
    if ts != [] {
      DenoteDependsOnFree(sem, wrap, env1, ops1, env2, ops2, ts[0]);
      DenoteAllDependsOnFree(sem, wrap, env1, ops1, env2, ops2, ts[1..]);
    }
  }

  /** Every literal left free by simplification is one whose lookup fails,
      and every free operator is an unimplemented operator of the original
      tree. */
  lemma {:induction false} FreeAfterSimplify<V>(sem: Semantics<V>, wrap: string -> Option<V>, t: AstNode<V>)
    requires Fits(t)
    ensures FreeVars(Simplify(sem, wrap, t)) <= Failing(wrap, t)
    ensures FreeOps(Simplify(sem, wrap, t)) <= FreeOps(t)
    decreases t, 1
  {
    if t.Opr? {
      var args := SimplifyAll(sem, wrap, t.args);
      FreeAfterSimplifyAll(sem, wrap, t.args);
      assert Failing(wrap, t) == FailingAll(wrap, t.args);
      var r := Simplify(sem, wrap, t);
      if t.op.fn.Some? && !AllResults(args) && t.op.fn.value.Builtin? {
        FreeOfMember(args, 0);
        if TagArity(t.op.fn.value.tag) == 2 {
          FreeOfMember(args, 1);
          if r == Opr(NegInfo, [args[1]]) {
            assert FreeVarsAll([args[1]]) == FreeVars(args[1]);
            assert FreeOpsAll([args[1]]) == FreeOps(args[1]);
          }
        }
      }
    }
  }

  lemma {:induction false} FreeAfterSimplifyAll<V>(sem: Semantics<V>, wrap: string -> Option<V>, ts: seq<AstNode<V>>)
    requires forall i | 0 <= i < |ts| :: Fits(ts[i])
    ensures FreeVarsAll(SimplifyAll(sem, wrap, ts)) <= FailingAll(wrap, ts)
    ensures FreeOpsAll(SimplifyAll(sem, wrap, ts)) <= FreeOpsAll(ts)
    decreases ts, 0
  {
    if ts != [] {
      FreeAfterSimplify(sem, wrap, ts[0]);
      FreeAfterSimplifyAll(sem, wrap, ts[1..]);
      assert FailingAll(wrap, ts) == Failing(wrap, ts[0]) + FailingAll(wrap, ts[1..]);
    }
  }

  lemma {:induction false} FreeOfMember<V>(ts: seq<AstNode<V>>, i: nat)
    requires i < |ts|
    ensures FreeVars(ts[i]) <= FreeVarsAll(ts) && FreeOps(ts[i]) <= FreeOpsAll(ts)
    decreases i
  {
    if i > 0 {
      FreeOfMember(ts[1..], i - 1);
    }
  }

  /** The free names of a list of trees add up over concatenation. */
  lemma {:induction false} FreeAllAppend<V>(a: seq<AstNode<V>>, b: seq<AstNode<V>>)
    ensures FreeOpsAll(a + b) == FreeOpsAll(a) + FreeOpsAll(b)
    ensures FreeVarsAll(a + b) == FreeVarsAll(a) + FreeVarsAll(b)
    decreases |a|
  {
    if a == [] {
      assert a + b == b;
    } else {
      assert (a + b)[0] == a[0];
      assert (a + b)[1..] == a[1..] + b;
      FreeAllAppend(a[1..], b);
    }
  }

  lemma FreeAllSingle<V>(t: AstNode<V>)
    ensures FreeOpsAll([t]) == FreeOps(t) && FreeVarsAll([t]) == FreeVars(t)
  {
    assert [t][1..] == [];
  }
}

