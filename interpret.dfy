/** The postfix reducer: a fold over a postfix token stream with a value
    stack, parameterised by a reducer for operators and a lifter for
    literals. Building trees, rendering S-expressions and direct evaluation
    are all instances of it. */
module Interpret {
  import opened Types

  /** Applying one token to the value stack. A literal pushes its lifted
      value; an operator of arity k replaces the top k entries, passed
      oldest first, by the reducer's result. */
  function Push<T>(stack: seq<T>, tok: Token, impl: (OpInfo, seq<T>) -> Result<T>, lift: string -> Result<T>)
    : Result<seq<T>>
  {
    match tok
    case ValueToken(x) =>
      (match lift(x)
       case Ok(v) => Ok(stack + [v])
       case Err(e) => Err(e))
    case OperatorToken(op) =>
      var k := Arity(op);
      if |stack| < k then Err(MissingValues)
      else
        match impl(op, stack[|stack| - k..])
        case Ok(v) => Ok(stack[..|stack| - k] + [v])
        case Err(e) => Err(e)
  }

  /** Applying the tokens in order; the first error stops the fold. */
  function ReduceAll<T>(stack: seq<T>, toks: seq<Token>, impl: (OpInfo, seq<T>) -> Result<T>, lift: string -> Result<T>)
    : Result<seq<T>>
    decreases |toks|
  {
    if toks == [] then Ok(stack)
    else
      match Push(stack, toks[0], impl, lift)
      case Ok(s) => ReduceAll(s, toks[1..], impl, lift)
      case Err(e) => Err(e)
  }

  /** One token of a reduction that does not throw. */
  lemma ReduceStep<T>(stack: seq<T>, toks: seq<Token>, i: nat, impl: (OpInfo, seq<T>) -> Result<T>,
                      lift: string -> Result<T>, next: seq<T>)
    requires i < |toks| && Push(stack, toks[i], impl, lift) == Ok(next)
    ensures ReduceAll(stack, toks[i..], impl, lift) == ReduceAll(next, toks[i + 1..], impl, lift)
  {
    assert toks[i..][0] == toks[i] && toks[i..][1..] == toks[i + 1..];
  }

  /** The end of the stream: exactly one entry is the result. */
  function Settle<T>(stack: seq<T>): Result<T> {
    if |stack| == 0 then Err(EmptyFormula)
    else if |stack| > 1 then Err(MissingOperators)
    else Ok(stack[0])
  }

  /** Reducing what a parse yields: the tokens yielded are reduced first, so
      a reducer error on them wins over the parse error that follows. */
  function Consume<T>(em: Emission, impl: (OpInfo, seq<T>) -> Result<T>, lift: string -> Result<T>): Result<T> {
    match ReduceAll([], em.out, impl, lift)
    case Err(e) => Err(e)
    case Ok(stack) => if em.err.Some? then Err(em.err.value) else Settle(stack)
  }

  /** The reducer loop (`interpret`). */
  method Interpret<T>(em: Emission, impl: (OpInfo, seq<T>) -> Result<T>, wrap: string -> Result<T>)
    returns (r: Result<T>)
    ensures r == Consume(em, impl, wrap)
  {
    var vstack: seq<T> := [];
    for i := 0 to |em.out|
      invariant ReduceAll([], em.out, impl, wrap) == ReduceAll(vstack, em.out[i..], impl, wrap)
    {
      assert em.out[i..][1..] == em.out[i + 1..];
      match em.out[i] {
        case OperatorToken(opInfo) =>
          var arity := Arity(opInfo);
          if |vstack| < arity {
            return Err(MissingValues);
          }
          var args := vstack[|vstack| - arity..];
          vstack := vstack[..|vstack| - arity];
          var v := impl(opInfo, args);
          if v.Err? {
            return Err(v.error);
          }
          vstack := vstack + [v.value];
        case ValueToken(x) =>
          var v := wrap(x);
          if v.Err? {
            return Err(v.error);
          }
          vstack := vstack + [v.value];
      }
    }
    assert em.out[|em.out|..] == [];
    if em.err.Some? {
      return Err(em.err.value);
    }
    if |vstack| == 0 {
      return Err(EmptyFormula);
    }
    if |vstack| > 1 {
      return Err(MissingOperators);
    }
    return Ok(vstack[0]);
  }

  // ----- Which streams the reducer rejects -----

  /** A reducer and lifter that never throw (tree building, rendering). */
  ghost predicate Total<T(!new)>(impl: (OpInfo, seq<T>) -> Result<T>, lift: string -> Result<T>) {
    (forall op, args :: impl(op, args).Ok?) && (forall x :: lift(x).Ok?)
  }

  /** Some operator of `toks`, replayed from stack height `h`, finds fewer
      entries than its arity. */
  predicate Underflows(h: nat, toks: seq<Token>)
    decreases |toks|
  {
    if toks == [] then false
    else if toks[0].ValueToken? then Underflows(h + 1, toks[1..])
    else h < Arity(toks[0].op) || Underflows(h - Arity(toks[0].op) + 1, toks[1..])
  }

  /** The stack height after replaying `toks` from height `h`. */
  function Height(h: int, toks: seq<Token>): int
    decreases |toks|
  {
    if toks == [] then h
    else if toks[0].ValueToken? then Height(h + 1, toks[1..])
    else Height(h - Arity(toks[0].op) + 1, toks[1..])
  }

  /** With a reducer that never throws, whether and how the fold fails
      depends only on stack heights: it fails, with "Missing Values",
      exactly when some operator underflows, and otherwise leaves a stack of
      the replayed height. */
  lemma {:induction false} ReduceHeights<T(!new)>(stack: seq<T>, toks: seq<Token>,
                                                 impl: (OpInfo, seq<T>) -> Result<T>, lift: string -> Result<T>)
    requires Total(impl, lift)
    ensures ReduceAll(stack, toks, impl, lift).Err? <==> Underflows(|stack|, toks)
    ensures ReduceAll(stack, toks, impl, lift).Err? ==> ReduceAll(stack, toks, impl, lift).error == MissingValues
    ensures ReduceAll(stack, toks, impl, lift).Ok? ==> |ReduceAll(stack, toks, impl, lift).value| == Height(|stack|, toks)
    decreases |toks|
  {
    if toks != [] {
      var tok := toks[0];
      if tok.ValueToken? {
        assert lift(tok.value).Ok?;
        ReduceHeights(stack + [lift(tok.value).value], toks[1..], impl, lift);
      } else if |stack| >= Arity(tok.op) {
        var k := Arity(tok.op);
        assert impl(tok.op, stack[|stack| - k..]).Ok?;
        ReduceHeights(stack[..|stack| - k] + [impl(tok.op, stack[|stack| - k..]).value], toks[1..], impl, lift);
      }
    }
  }

  /** Any reducer that gets through the stream has replayed the heights: no
      operator underflowed, and the stack has the replayed height. */
  lemma {:induction false} ReduceOkHeights<T>(stack: seq<T>, toks: seq<Token>,
                                              impl: (OpInfo, seq<T>) -> Result<T>, lift: string -> Result<T>)
    requires ReduceAll(stack, toks, impl, lift).Ok?
    ensures !Underflows(|stack|, toks)
    ensures |ReduceAll(stack, toks, impl, lift).value| == Height(|stack|, toks)
    decreases |toks|
  {
    if toks != [] {
      var tok := toks[0];
      if tok.ValueToken? {
        ReduceOkHeights(stack + [lift(tok.value).value], toks[1..], impl, lift);
      } else {
        var k := Arity(tok.op);
        ReduceOkHeights(stack[..|stack| - k] + [impl(tok.op, stack[|stack| - k..]).value], toks[1..], impl, lift);
      }
    }
  }

  /** Consequently a complete stream is reduced to a value exactly when no
      operator underflows and one entry remains; otherwise the error names
      the first failed condition. */
  lemma ConsumeVerdict<T(!new)>(toks: seq<Token>, impl: (OpInfo, seq<T>) -> Result<T>, lift: string -> Result<T>)
    requires Total(impl, lift)
    ensures var r := Consume(Emission(toks, None), impl, lift);
      (r.Ok? <==> !Underflows(0, toks) && Height(0, toks) == 1) &&
      (Underflows(0, toks) ==> r == Err(MissingValues)) &&
      (!Underflows(0, toks) && Height(0, toks) == 0 ==> r == Err(EmptyFormula)) &&
      (!Underflows(0, toks) && Height(0, toks) > 1 ==> r == Err(MissingOperators))
  {
    ReduceHeights([], toks, impl, lift);
  }

  // ----- Trees and the postfix order -----

  /** A tree the tree-building reducer can produce: no resolved leaves, and
      every operator node has exactly as many arguments as its arity. */
  predicate Parsed<V>(t: AstNode<V>)
    decreases t, 1
  {
    match t
    case Res(_) => false
    case Val(_) => true
    case Opr(op, args) => |args| == Arity(op) && AllParsed(args)
  }

  predicate AllParsed<V>(ts: seq<AstNode<V>>)
    decreases ts, 0
  {
    forall i | 0 <= i < |ts| :: Parsed(ts[i])
  }

  /** The postfix order of a tree: arguments left to right, then the
      operator. */
  function Postfix<V>(t: AstNode<V>): seq<Token>
    decreases t, 1
  {
    match t
    case Res(_) => []
    case Val(x) => [ValueToken(x)]
    case Opr(op, args) => PostfixAll(args) + [OperatorToken(op)]
  }

  function PostfixAll<V>(ts: seq<AstNode<V>>): seq<Token>
    decreases ts, 0
  {
    if ts == [] then [] else PostfixAll(ts[..|ts| - 1]) + Postfix(ts[|ts| - 1])
  }

  /** The tree-building reducer and lifter (`opr` and `val`). */
  function BuildNode<V>(op: OpInfo, args: seq<AstNode<V>>): Result<AstNode<V>> {
    Ok(Opr(op, args))
  }

  function BuildLeaf<V>(x: string): Result<AstNode<V>> {
    Ok(Val(x))
  }

  /** Reducing a stream with the tree builder (`parseToAST`'s reduction). */
  function Build<V>(em: Emission): Result<AstNode<V>> {
    Consume(em, BuildNode, BuildLeaf)
  }

  /** Folding a tree bottom-up with a reducer and lifter: the arguments left
      to right, then the operator; the first error wins. */
  function FoldTree<V, T>(t: AstNode<V>, impl: (OpInfo, seq<T>) -> Result<T>, lift: string -> Result<T>): Result<T>
    requires Parsed(t)
    decreases t, 1
  {
    match t
    case Val(x) => lift(x)
    case Opr(op, args) =>
      match FoldAll(args, impl, lift)
      case Ok(vs) => impl(op, vs)
      case Err(e) => Err(e)
  }

  function FoldAll<V, T>(ts: seq<AstNode<V>>, impl: (OpInfo, seq<T>) -> Result<T>, lift: string -> Result<T>)
    : (r: Result<seq<T>>)
    requires AllParsed(ts)
    ensures r.Ok? ==> |r.value| == |ts|
    decreases ts, 0
  {
    if ts == [] then Ok([])
    else
      match FoldAll(ts[..|ts| - 1], impl, lift)
      case Err(e) => Err(e)
      case Ok(vs) =>
        match FoldTree(ts[|ts| - 1], impl, lift)
        case Err(e) => Err(e)
        case Ok(v) => Ok(vs + [v])
  }

  lemma {:induction false} ReduceAllAppend<T>(stack: seq<T>, a: seq<Token>, b: seq<Token>,
                                               impl: (OpInfo, seq<T>) -> Result<T>, lift: string -> Result<T>)
    ensures ReduceAll(stack, a + b, impl, lift) ==
      match ReduceAll(stack, a, impl, lift)
      case Err(e) => Err(e)
      case Ok(s) => ReduceAll(s, b, impl, lift)
    decreases |a|
  {
    if a != [] {
      assert (a + b)[0] == a[0];
      assert (a + b)[1..] == a[1..] + b;
      match Push(stack, a[0], impl, lift)
      case Err(_) =>
      case Ok(s) => ReduceAllAppend(s, a[1..], b, impl, lift);
    } else {
      assert a + b == b;
    }
  }

  /** Replaying a tree's postfix order pushes exactly its fold: every
      instance of the reducer is a fold over the tree the stream encodes. */
  lemma {:induction false} ReduceIsFold<V, T>(stack: seq<T>, t: AstNode<V>,
                                             impl: (OpInfo, seq<T>) -> Result<T>, lift: string -> Result<T>)
    requires Parsed(t)
    ensures ReduceAll(stack, Postfix(t), impl, lift) ==
      match FoldTree(t, impl, lift)
      case Err(e) => Err(e)
      case Ok(v) => Ok(stack + [v])
    decreases t, 1
  {
    match t
    case Val(x) =>
      assert Postfix(t)[1..] == [];
    case Opr(op, args) =>
      ReduceAllAppend(stack, PostfixAll(args), [OperatorToken(op)], impl, lift);
      ReduceAllIsFoldAll(stack, args, impl, lift);
      match FoldAll(args, impl, lift)
      case Err(_) =>
      case Ok(vs) =>
        var s := stack + vs;
        assert s[|s| - |vs|..] == vs;
        assert s[..|s| - |vs|] == stack;
        assert [OperatorToken(op)][1..] == [];
  }

  lemma {:induction false} ReduceAllIsFoldAll<V, T>(stack: seq<T>, ts: seq<AstNode<V>>,
                                                   impl: (OpInfo, seq<T>) -> Result<T>, lift: string -> Result<T>)
    requires AllParsed(ts)
    ensures ReduceAll(stack, PostfixAll(ts), impl, lift) ==
      match FoldAll(ts, impl, lift)
      case Err(e) => Err(e)
      case Ok(vs) => Ok(stack + vs)
    decreases ts, 0
  {
    if ts != [] {
      var init, last := ts[..|ts| - 1], ts[|ts| - 1];
      assert AllParsed(init) && Parsed(last);
      assert PostfixAll(ts) == PostfixAll(init) + Postfix(last);
      ReduceAllAppend(stack, PostfixAll(init), Postfix(last), impl, lift);
      ReduceAllIsFoldAll(stack, init, impl, lift);
      match FoldAll(init, impl, lift)
      case Err(_) =>
      case Ok(vs) =>
        ReduceIsFold(stack + vs, last, impl, lift);
        match FoldTree(last, impl, lift)
        case Err(_) =>
        case Ok(v) =>
          assert FoldAll(ts, impl, lift) == Ok(vs + [v]);
          assert stack + vs + [v] == stack + (vs + [v]);
    } else {
      assert stack + [] == stack;
    }
  }

  /** The reducer run on a tree's postfix order with any reducer gives that
      reducer's fold of the tree. */
  lemma ConsumeIsFold<V, T>(t: AstNode<V>, impl: (OpInfo, seq<T>) -> Result<T>, lift: string -> Result<T>)
    requires Parsed(t)
    ensures Consume(Emission(Postfix(t), None), impl, lift) == FoldTree(t, impl, lift)
  {
    ReduceIsFold([], t, impl, lift);
  }

  /** The tree-building fold of a parsed tree is the tree itself. */
  lemma {:induction false} BuildFoldIdentity<V>(t: AstNode<V>)
    requires Parsed(t)
    ensures FoldTree(t, BuildNode, BuildLeaf) == Ok(t)
    decreases t, 1
  {
    if t.Opr? {
      BuildFoldAllIdentity(t.args);
    }
  }

  lemma {:induction false} BuildFoldAllIdentity<V>(ts: seq<AstNode<V>>)
    requires AllParsed(ts)
    ensures FoldAll(ts, BuildNode, BuildLeaf) == Ok(ts)
    decreases ts, 0
  {
    if ts != [] {
      var init, last := ts[..|ts| - 1], ts[|ts| - 1];
      assert AllParsed(init) && Parsed(last);
      BuildFoldAllIdentity(init);
      BuildFoldIdentity(last);
      assert init + [last] == ts;
    }
  }

  /** Round trip, tree to tokens to tree: reducing a parsed tree's postfix
      order with the tree builder gives the tree back. */
  lemma PostfixRoundTrip<V>(t: AstNode<V>)
    requires Parsed(t)
    ensures Build(Emission(Postfix(t), None)) == Ok(t)
  {
    ConsumeIsFold<V, AstNode<V>>(t, BuildNode, BuildLeaf);
    BuildFoldIdentity(t);
  }

  lemma {:induction false} PostfixAllSnoc<V>(ts: seq<AstNode<V>>, t: AstNode<V>)
    ensures PostfixAll(ts + [t]) == PostfixAll(ts) + Postfix(t)
  {
    assert (ts + [t])[..|ts|] == ts;
  }

  lemma {:induction false} PostfixAllAppend<V>(a: seq<AstNode<V>>, b: seq<AstNode<V>>)
    ensures PostfixAll(a + b) == PostfixAll(a) + PostfixAll(b)
    decreases |b|
  {
    if b == [] {
      assert a + b == a;
    } else {
      var init, last := b[..|b| - 1], b[|b| - 1];
      assert b == init + [last];
      assert a + b == (a + init) + [last];
      PostfixAllSnoc(a + init, last);
      PostfixAllAppend(a, init);
      PostfixAllSnoc(init, last);
      var pa, pi, pl := PostfixAll(a), PostfixAll(init), Postfix(last);
      assert (pa + pi) + pl == pa + (pi + pl);
    }
  }

  lemma AppendHead<T>(p: seq<T>, s: seq<T>)
    requires s != []
    ensures p + s == (p + [s[0]]) + s[1..]
  {
    assert s == [s[0]] + s[1..];
  }

  /** One token pushed by the tree builder extends the stack's postfix
      order by that token. */
  lemma PushInverts<V>(stack: seq<AstNode<V>>, tok: Token)
    requires AllParsed(stack)
    requires Push(stack, tok, BuildNode, BuildLeaf).Ok?
    ensures AllParsed(Push(stack, tok, BuildNode, BuildLeaf).value)
    ensures PostfixAll(Push(stack, tok, BuildNode, BuildLeaf).value) == PostfixAll(stack) + [tok]
  {
    var next := Push(stack, tok, BuildNode, BuildLeaf).value;
    match tok {
      case ValueToken(x) =>
        assert next == stack + [Val(x)];
        assert Parsed<V>(Val(x));
        assert AllParsed(next);
        PostfixAllSnoc(stack, Val(x));
      case OperatorToken(op) =>
        var k := Arity(op);
        var pre, args := stack[..|stack| - k], stack[|stack| - k..];
        assert next == pre + [Opr(op, args)];
        assert stack == pre + args;
        assert AllParsed(pre) && AllParsed(args);
        assert Parsed(Opr(op, args));
        assert AllParsed(next);
        PostfixAllSnoc(pre, Opr(op, args));
        PostfixAllAppend(pre, args);
    }
  }

  /** Tokens to tree: whatever the tree builder leaves on its stack is a
      list of parsed trees whose postfix orders, concatenated, are exactly
      the tokens replayed. */
  lemma {:induction false} BuildInverts<V>(stack: seq<AstNode<V>>, toks: seq<Token>)
    requires AllParsed(stack)
    requires ReduceAll(stack, toks, BuildNode, BuildLeaf).Ok?
    ensures AllParsed(ReduceAll(stack, toks, BuildNode, BuildLeaf).value)
    ensures PostfixAll(ReduceAll(stack, toks, BuildNode, BuildLeaf).value) == PostfixAll(stack) + toks
    decreases |toks|
  {
    if toks == [] {
      assert PostfixAll(stack) + toks == PostfixAll(stack);
    } else {
      var next := Push(stack, toks[0], BuildNode, BuildLeaf).value;
      assert ReduceAll(stack, toks, BuildNode, BuildLeaf) == ReduceAll(next, toks[1..], BuildNode, BuildLeaf);
      PushInverts(stack, toks[0]);
      BuildInverts(next, toks[1..]);
      AppendHead(PostfixAll(stack), toks);
    }
  }

  /** Round trip, tokens to tree to tokens: when the tree builder succeeds on
      what a parse yields, the parse threw nothing, the tree is parsed (every
      operator node has exactly its arity of arguments, in source order),
      and the tokens are exactly the tree's postfix order. */
  lemma BuildIsPostfix<V>(em: Emission)
    requires Build<V>(em).Ok?
    ensures em.err == None
    ensures Parsed(Build<V>(em).value)
    ensures em.out == Postfix(Build<V>(em).value)
  {
    var t := Build<V>(em).value;
    BuildInverts<V>([], em.out);
    var s := ReduceAll([], em.out, BuildNode, BuildLeaf).value;
    assert s == [t];
    assert [t][..0] == [];
    assert PostfixAll([t]) == PostfixAll([t][..0]) + Postfix(t);
    assert PostfixAll<V>([]) == [];
    assert PostfixAll(s) == Postfix(t);
    assert Parsed(s[0]);
  }

  /** Hence every consumer of a stream the tree builder accepts computes the
      fold of that one tree. */
  lemma ConsumersFoldTheTree<V, T>(em: Emission, impl: (OpInfo, seq<T>) -> Result<T>, lift: string -> Result<T>)
    requires Build<V>(em).Ok?
    ensures Parsed(Build<V>(em).value)
    ensures Consume(em, impl, lift) == FoldTree(Build<V>(em).value, impl, lift)
  {
    var t := Build<V>(em).value;
    BuildIsPostfix<V>(em);
    ConsumeIsFold(t, impl, lift);
  }

  /** A stream the tree builder rejects is rejected by every consumer, and a
      consumer that never throws rejects exactly the same streams, with the
      same error. */
  lemma ShapeErrors<V(!new), T(!new)>(em: Emission, impl: (OpInfo, seq<T>) -> Result<T>, lift: string -> Result<T>)
    ensures Build<V>(em).Err? ==> Consume(em, impl, lift).Err?
    ensures Total(impl, lift) ==> (Consume(em, impl, lift).Err? <==> Build<V>(em).Err?)
    ensures Total(impl, lift) && Build<V>(em).Err? ==> Consume(em, impl, lift).error == Build<V>(em).error
  {
    assert Total<AstNode<V>>(BuildNode, BuildLeaf);
    ReduceHeights<AstNode<V>>([], em.out, BuildNode, BuildLeaf);
    if ReduceAll([], em.out, impl, lift).Ok? {
      ReduceOkHeights([], em.out, impl, lift);
    }
    if Total(impl, lift) {
      ReduceHeights([], em.out, impl, lift);
    }
  }
}
