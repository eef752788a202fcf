/** The entry points of the class in src/parser.ts as written: they hand
    curried reducers (`op => (...args) => ...`, and `extract_impl`, which
    returns an implementation instead of applying it) to the uncurried
    reducer loop of src/interpret.ts, which calls `impl(op, ...args)`. Every
    operator therefore pushes a closure instead of a value, and `partial`,
    which simplifies what `parseToAST` returns, then throws. The corrected
    entry points, which the rest of the model uses, are the methods of
    `Parser.Railyard`. */
module Findings {
  import opened Types
  import opened Interpret
  import opened Evaluate
  import opened Parser
  import opened Scenarios

  /** An entry of the reducer stack as written: a lifted literal, or the
      closure a curried reducer returned for an operator. */
  datatype Pushed<T> = Lifted(value: T) | Closure(op: OpInfo)

  /** A curried reducer (the ones of `parseToAST` and `parseToSExpr`)
      called with the operator and its operands: the operands are dropped
      and the closure for the operator is pushed. */
  function Curried<T>(op: OpInfo, args: seq<Pushed<T>>): Result<Pushed<T>> {
    Ok(Closure(op))
  }

  /** `extract_impl` called with the operator and its operands: it throws
      for an operator without an implementation and otherwise returns that
      implementation unapplied. */
  function ExtractUncurried<T>(op: OpInfo, args: seq<Pushed<T>>): Result<Pushed<T>> {
    match op.fn
    case None => Err(NoImplementation(op.name))
    case Some(_) => Ok(Closure(op))
  }

  /** The lifter of a literal, unchanged. */
  function LiftPushed<T>(lift: string -> Result<T>): string -> Result<Pushed<T>> {
    (x: string) =>
      match lift(x)
      case Ok(v) => Ok(Lifted(v))
      case Err(e) => Err(e)
  }

  /** `parseToAST` as written. */
  function AsWrittenParseToAST<V>(cfg: Config, tokens: seq<string>): Result<Pushed<AstNode<V>>> {
    Consume(Parse(cfg, tokens), Curried, LiftPushed(BuildLeaf))
  }

  /** `parseToSExpr` as written. */
  function AsWrittenParseToSExpr(cfg: Config, tokens: seq<string>): Result<Pushed<string>> {
    Consume(Parse(cfg, tokens), Curried, LiftPushed(SExprLeaf))
  }

  /** `interpret` as written. */
  function AsWrittenInterpret<V>(cfg: Config, wrap: string -> Option<V>, tokens: seq<string>): Result<Pushed<V>> {
    Consume(Parse(cfg, tokens), ExtractUncurried, LiftPushed(Lift(wrap)))
  }

  /** `parseToAST` as written fails exactly where the corrected one does;
      otherwise it returns the tree only for a single literal, and for any
      formula with an operator the closure of the root operator. */
  lemma AsWrittenParseToASTRoot<V(!new)>(cfg: Config, tokens: seq<string>)
    ensures Build<V>(Parse(cfg, tokens)).Err? ==>
      AsWrittenParseToAST<V>(cfg, tokens) == Err(Build<V>(Parse(cfg, tokens)).error)
    ensures Build<V>(Parse(cfg, tokens)).Ok? && Build<V>(Parse(cfg, tokens)).value.Val? ==>
      AsWrittenParseToAST<V>(cfg, tokens) == Ok(Lifted(Build<V>(Parse(cfg, tokens)).value))
    ensures Build<V>(Parse(cfg, tokens)).Ok? && Build<V>(Parse(cfg, tokens)).value.Opr? ==>
      AsWrittenParseToAST<V>(cfg, tokens) == Ok(Closure(Build<V>(Parse(cfg, tokens)).value.op))
  {
    var em := Parse(cfg, tokens);
    var leaf := BuildLeaf<V>;
    assert forall x :: leaf(x) == Ok(Val(x));
    var lift := LiftPushed(leaf);
    assert Total(Curried, lift);
    ShapeErrors<V, Pushed<AstNode<V>>>(em, Curried, lift);
    if Build<V>(em).Ok? {
      ConsumersFoldTheTree<V, Pushed<AstNode<V>>>(em, Curried, lift);
    }
  }

  /** `parseToSExpr` as written: the literal itself for a single literal,
      and for any formula with an operator the closure of the root operator
      instead of the rendered string. */
  lemma AsWrittenParseToSExprRoot<V(!new)>(cfg: Config, tokens: seq<string>)
    ensures Build<V>(Parse(cfg, tokens)).Err? ==>
      AsWrittenParseToSExpr(cfg, tokens) == Err(Build<V>(Parse(cfg, tokens)).error)
    ensures Build<V>(Parse(cfg, tokens)).Ok? && Build<V>(Parse(cfg, tokens)).value.Val? ==>
      AsWrittenParseToSExpr(cfg, tokens) == Ok(Lifted(Build<V>(Parse(cfg, tokens)).value.name))
    ensures Build<V>(Parse(cfg, tokens)).Ok? && Build<V>(Parse(cfg, tokens)).value.Opr? ==>
      AsWrittenParseToSExpr(cfg, tokens) == Ok(Closure(Build<V>(Parse(cfg, tokens)).value.op))
  {
    var em := Parse(cfg, tokens);
    var leaf := SExprLeaf;
    assert forall x :: leaf(x) == Ok(x);
    var lift := LiftPushed(leaf);
    assert Total(Curried, lift);
    ShapeErrors<V, Pushed<string>>(em, Curried, lift);
    if Build<V>(em).Ok? {
      ConsumersFoldTheTree<V, Pushed<string>>(em, Curried, lift);
    }
  }

  /** Two outcomes that fail together, with the same error. */
  predicate SameFailure<X, Y>(a: Result<X>, b: Result<Y>) {
    (a.Err? <==> b.Err?) && (a.Err? ==> a.error == b.error)
  }

  /** Folding a tree with `extract_impl` applied and with it called
      uncurried: they fail on the same operator or literal, and where they
      succeed the uncurried fold yields the literal's value for a literal
      and the root operator's closure otherwise. */
  lemma {:induction false} UncurriedFold<V>(sem: Semantics<V>, wrap: string -> Option<V>, t: AstNode<V>)
    requires Parsed(t)
    ensures SameFailure(FoldTree(t, ExtractImpl(sem), Lift(wrap)), FoldTree(t, ExtractUncurried, LiftPushed(Lift(wrap))))
    ensures t.Val? && FoldTree(t, ExtractImpl(sem), Lift(wrap)).Ok? ==>
      FoldTree(t, ExtractUncurried, LiftPushed(Lift(wrap))) == Ok(Lifted(FoldTree(t, ExtractImpl(sem), Lift(wrap)).value))
    ensures t.Opr? && FoldTree(t, ExtractUncurried, LiftPushed(Lift(wrap))).Ok? ==>
      FoldTree(t, ExtractUncurried, LiftPushed(Lift(wrap))).value == Closure(t.op)
    decreases t, 1
  {
    match t
    case Val(x) =>
    case Opr(op, args) =>
      UncurriedFoldAll(sem, wrap, args);
  }

  lemma {:induction false} UncurriedFoldAll<V>(sem: Semantics<V>, wrap: string -> Option<V>, ts: seq<AstNode<V>>)
    requires AllParsed(ts)
    ensures SameFailure(FoldAll(ts, ExtractImpl(sem), Lift(wrap)), FoldAll(ts, ExtractUncurried, LiftPushed(Lift(wrap))))
    decreases ts, 0
  {
    if ts != [] {
      var init := ts[..|ts| - 1];
      assert AllParsed(init);
      UncurriedFoldAll(sem, wrap, init);
      UncurriedFold(sem, wrap, ts[|ts| - 1]);
    }
  }

  /** `interpret` as written fails exactly where the corrected one does,
      with the same error, on every formula the tree builder accepts, and
      fails too on every formula it rejects; where it succeeds it returns
      the value only for a single literal, and for any formula with an
      operator the root operator's unapplied implementation. */
  lemma AsWrittenInterpretRoot<V(!new)>(cfg: Config, sem: Semantics<V>, wrap: string -> Option<V>, tokens: seq<string>)
    ensures Build<V>(Parse(cfg, tokens)).Err? ==>
      AsWrittenInterpret(cfg, wrap, tokens).Err? &&
      Consume(Parse(cfg, tokens), ExtractImpl(sem), Lift(wrap)).Err?
    ensures Build<V>(Parse(cfg, tokens)).Ok? ==>
      SameFailure(Consume(Parse(cfg, tokens), ExtractImpl(sem), Lift(wrap)), AsWrittenInterpret(cfg, wrap, tokens))
    ensures Build<V>(Parse(cfg, tokens)).Ok? && Build<V>(Parse(cfg, tokens)).value.Val? &&
            Consume(Parse(cfg, tokens), ExtractImpl(sem), Lift(wrap)).Ok? ==>
      AsWrittenInterpret(cfg, wrap, tokens) == Ok(Lifted(Consume(Parse(cfg, tokens), ExtractImpl(sem), Lift(wrap)).value))
    ensures Build<V>(Parse(cfg, tokens)).Ok? && Build<V>(Parse(cfg, tokens)).value.Opr? &&
            AsWrittenInterpret(cfg, wrap, tokens).Ok? ==>
      AsWrittenInterpret(cfg, wrap, tokens).value == Closure(Build<V>(Parse(cfg, tokens)).value.op)
  {
    var em := Parse(cfg, tokens);
    ShapeErrors<V, Pushed<V>>(em, ExtractUncurried, LiftPushed(Lift(wrap)));
    ShapeErrors<V, V>(em, ExtractImpl(sem), Lift(wrap));
    if Build<V>(em).Ok? {
      ConsumersFoldTheTree<V, Pushed<V>>(em, ExtractUncurried, LiftPushed(Lift(wrap)));
      ConsumersFoldTheTree<V, V>(em, ExtractImpl(sem), Lift(wrap));
      UncurriedFold(sem, wrap, Build<V>(em).value);
    }
  }

  /** How `partial` of src/parser.ts ends as written: with the result it
      returns, with the error the parse throws, or with the TypeError `walk`
      throws when it reads `type` of `undefined`. `eval_node` returns
      `undefined` for the closure it is handed, since no case of its switch
      matches a function. */
  datatype PartialOutcome<V> = Returned(result: PartialResult<V>) | Threw(error: Error) | WalkTypeError

  /** What `parseToAST` as written lifts is a literal's leaf. */
  lemma AsWrittenLifted<V(!new)>(cfg: Config, tokens: seq<string>)
    ensures AsWrittenParseToAST<V>(cfg, tokens).Ok? && AsWrittenParseToAST<V>(cfg, tokens).value.Lifted? ==>
      AsWrittenParseToAST<V>(cfg, tokens).value.value.Val?
  {
    var em := Parse(cfg, tokens);
    AsWrittenParseToASTRoot<V>(cfg, tokens);
    if Build<V>(em).Ok? {
      ConsumersFoldTheTree<V, AstNode<V>>(em, BuildNode, BuildLeaf);
    }
  }

  /** `partial` as written: `eval_node` and the walk run on whatever
      `parseToAST` as written returns. */
  function AsWrittenPartial<V(==,!new)>(cfg: Config, sem: Semantics<V>, wrap: string -> Option<V>, tokens: seq<string>)
    : PartialOutcome<V>
  {
    match AsWrittenParseToAST<V>(cfg, tokens)
    case Err(e) => Threw(e)
    case Ok(Closure(_)) => WalkTypeError
    case Ok(Lifted(t)) =>
      AsWrittenLifted<V>(cfg, tokens);
      var ast := Partial(sem, wrap, t);
      Returned(PartialResult(ast, FreeOps(ast), FreeVars(ast)))
  }

  /** `partial` as written throws the parse's error where the corrected one
      does, agrees with it on a one-literal formula, and throws a TypeError
      on every formula with an operator, where the corrected one succeeds. */
  lemma AsWrittenPartialRoot<V(!new)>(cfg: Config, sem: Semantics<V>, wrap: string -> Option<V>, tokens: seq<string>)
    requires RegistryFits(cfg)
    ensures Build<V>(Parse(cfg, tokens)).Err? ==>
      PartialOf(cfg, sem, wrap, tokens) == Err(Build<V>(Parse(cfg, tokens)).error) &&
      AsWrittenPartial(cfg, sem, wrap, tokens) == Threw(Build<V>(Parse(cfg, tokens)).error)
    ensures Build<V>(Parse(cfg, tokens)).Ok? && Build<V>(Parse(cfg, tokens)).value.Val? ==>
      PartialOf(cfg, sem, wrap, tokens).Ok? &&
      AsWrittenPartial(cfg, sem, wrap, tokens) == Returned(PartialOf(cfg, sem, wrap, tokens).value)
    ensures Build<V>(Parse(cfg, tokens)).Ok? && Build<V>(Parse(cfg, tokens)).value.Opr? ==>
      PartialOf(cfg, sem, wrap, tokens).Ok? &&
      AsWrittenPartial(cfg, sem, wrap, tokens) == WalkTypeError
  {
    AsWrittenParseToASTRoot<V>(cfg, tokens);
  }

  /** `partial` of `3 ( 2 + 1 )` with `*` implicit and unimplemented and
      `+` the intrinsic ADD: the corrected entry point returns `*` over two
      results with `*` free; as written it throws a TypeError. */
  lemma JuxtaposedSumPartialAsWritten<V(!new)>(sem: Semantics<V>, num: string -> V)
    ensures PartialOf(Unimplemented, sem, (x: string) => Some(num(x)), ["3", "(", "2", "+", "1", ")"]) ==
      Ok(PartialResult(Opr(Times, [Res(num("3")), Res(sem.intrinsic(ADD, [num("2"), num("1")]))]), {"*"}, {}))
    ensures AsWrittenPartial(Unimplemented, sem, (x: string) => Some(num(x)), ["3", "(", "2", "+", "1", ")"]) == WalkTypeError
  {
    JuxtaposedSumPartial(sem, num);
    JuxtaposedSumTree<V>();
    AsWrittenPartialRoot(Unimplemented, sem, (x: string) => Some(num(x)), ["3", "(", "2", "+", "1", ")"]);
  }

  /** The postfix form of `3 * ( 2 + 1 )`. */
  function ThreeTimesSumTokens(): seq<Token> {
    [ValueToken("3"), ValueToken("2"), ValueToken("1"), OperatorToken(Add), OperatorToken(Mul)]
  }

  /** Any reduction of that form first pushes the three literals... */
  lemma OperandsPushed<T>(impl: (OpInfo, seq<T>) -> Result<T>, lift: string -> Result<T>, a: T, b: T, c: T)
    requires lift("3") == Ok(a) && lift("2") == Ok(b) && lift("1") == Ok(c)
    ensures ReduceAll([], ThreeTimesSumTokens(), impl, lift) ==
      ReduceAll([a, b, c], ThreeTimesSumTokens()[3..], impl, lift)
  {
    var toks := ThreeTimesSumTokens();
    var e: seq<T> := [];
    assert toks[0..] == toks;
    assert ReduceAll(e, toks[0..], impl, lift) == ReduceAll([a], toks[1..], impl, lift) by {
      assert e + [a] == [a];
      ReduceStep(e, toks, 0, impl, lift, [a]);
    }
    assert ReduceAll([a], toks[1..], impl, lift) == ReduceAll([a, b], toks[2..], impl, lift) by {
      assert [a] + [b] == [a, b];
      ReduceStep([a], toks, 1, impl, lift, [a, b]);
    }
    assert ReduceAll([a, b], toks[2..], impl, lift) == ReduceAll([a, b, c], toks[3..], impl, lift) by {
      assert [a, b] + [c] == [a, b, c];
      ReduceStep([a, b], toks, 2, impl, lift, [a, b, c]);
    }
  }

  /** ...then applies the reducer to `+` over the last two and to `*` over
      the first and that sum. */
  lemma OperatorsApplied<T>(impl: (OpInfo, seq<T>) -> Result<T>, lift: string -> Result<T>,
                            a: T, b: T, c: T, sum: T, product: T)
    requires impl(Add, [b, c]) == Ok(sum) && impl(Mul, [a, sum]) == Ok(product)
    ensures ReduceAll([a, b, c], ThreeTimesSumTokens()[3..], impl, lift) == Ok([product])
  {
    var toks := ThreeTimesSumTokens();
    assert ReduceAll([a, b, c], toks[3..], impl, lift) == ReduceAll([a, sum], toks[4..], impl, lift) by {
      var s3 := [a, b, c];
      assert s3[3 - 2..] == [b, c] && s3[..3 - 2] + [sum] == [a, sum];
      ReduceStep(s3, toks, 3, impl, lift, [a, sum]);
    }
    assert ReduceAll([a, sum], toks[4..], impl, lift) == ReduceAll([product], toks[5..], impl, lift) by {
      var s4 := [a, sum];
      assert s4[2 - 2..] == s4 && s4[..2 - 2] + [product] == [product];
      ReduceStep(s4, toks, 4, impl, lift, [product]);
    }
    assert toks[5..] == [];
  }

  /** Its reduction with `*` and `+` implemented by the host: the corrected
      reducer applies both. */
  lemma ThreeTimesSumApplied<V>(sem: Semantics<V>, num: string -> V)
    ensures Consume(Emission(ThreeTimesSumTokens(), None), ExtractImpl(sem), Lift((x: string) => Some(num(x)))) ==
      Ok(sem.host(0, [num("3"), sem.host(1, [num("2"), num("1")])]))
  {
    var impl := ExtractImpl(sem);
    var lift := Lift((x: string) => Some(num(x)));
    var sum := sem.host(1, [num("2"), num("1")]);
    OperandsPushed(impl, lift, num("3"), num("2"), num("1"));
    OperatorsApplied(impl, lift, num("3"), num("2"), num("1"), sum, sem.host(0, [num("3"), sum]));
  }

  /** The same reduction as written yields the closure of `*`. */
  lemma ThreeTimesSumClosure<V>(num: string -> V)
    ensures Consume(Emission(ThreeTimesSumTokens(), None), ExtractUncurried, LiftPushed(Lift((x: string) => Some(num(x))))) ==
      Ok(Closure(Mul))
  {
    var impl := ExtractUncurried<V>;
    var lift := LiftPushed(Lift((x: string) => Some(num(x))));
    var a, b, c: Pushed<V> := Lifted(num("3")), Lifted(num("2")), Lifted(num("1"));
    assert impl(Add, [b, c]) == Ok(Closure(Add)) && impl(Mul, [a, Closure(Add)]) == Ok(Closure(Mul));
    OperandsPushed(impl, lift, a, b, c);
    OperatorsApplied(impl, lift, a, b, c, Closure(Add), Closure(Mul));
  }

  /** `interpret` of `3 * ( 2 + 1 )` with `*` and `+` implemented by the
      host: the corrected entry point computes `3 * (2 + 1)`, the one as
      written returns the implementation of `*` itself. */
  lemma ThreeTimesSumAsWritten<V>(sem: Semantics<V>, num: string -> V)
    ensures Consume(Parse(Arith, ["3", "*", "(", "2", "+", "1", ")"]), ExtractImpl(sem), Lift((x: string) => Some(num(x)))) ==
      Ok(sem.host(0, [num("3"), sem.host(1, [num("2"), num("1")])]))
    ensures AsWrittenInterpret(Arith, (x: string) => Some(num(x)), ["3", "*", "(", "2", "+", "1", ")"]) == Ok(Closure(Mul))
  {
    ThreeTimesSumPostfix();
    ThreeTimesSumApplied(sem, num);
    ThreeTimesSumClosure<V>(num);
  }
}
