/** The shunting-yard parser (`parseToRPN` and its helpers `handle_op`,
    `handle_implicit` and `match_paren`) and the `Railyard` builder class
    whose entry points feed the parser's output to the postfix reducer.
    The operator stack is a sequence whose last element is the top. */
module Parser {
  import opened Types
  import opened Intrinsics
  import opened Interpret
  import Reducer = Interpret
  import opened Evaluate
  import opened Legacy

  /** The parser's three-state `expect` machine. */
  datatype Expect = ExpectValue | ExpectOperator | ExpectArgs

  /** An entry of the operator stack: a left parenthesis or a pending
      operator. */
  datatype StackItem = LParen | Pending(op: OpInfo)

  predicate AllPending(items: seq<StackItem>) {
    forall i | 0 <= i < |items| :: items[i].Pending?
  }

  /** The tokens produced by popping `items` off the stack, top first. */
  function Unstack(items: seq<StackItem>): (r: seq<Token>)
    requires AllPending(items)
    ensures |r| == |items|
    ensures forall i | 0 <= i < |items| :: r[i] == OperatorToken(items[|items| - 1 - i].op)
  {
    if items == [] then [] else [OperatorToken(items[|items| - 1].op)] + Unstack(items[..|items| - 1])
  }

  /** What popping leaves: the rest of the stack and the tokens yielded. */
  datatype Pop = Pop(rest: seq<StackItem>, out: seq<Token>)

  /** The precedence an incoming infix operator compares against: its own,
      plus one when it is right-associative, so that `>=` becomes `>`. */
  function Threshold(op: InfixInfo): int {
    if op.associativity == Right then op.precedence + 1 else op.precedence
  }

  /** A stack entry binds tighter than the incoming threshold: a function,
      or an infix operator of at least that precedence. A parenthesis never
      does. */
  predicate Binds(item: StackItem, prec: int) {
    item.Pending? && (item.op.Function? || item.op.precedence >= prec)
  }

  /** The popping half of `handle_op`: pop while the top binds, yielding
      each entry popped. */
  function PopWhile(stack: seq<StackItem>, prec: int): (r: Pop)
    ensures |r.rest| <= |stack|
    decreases |stack|
  {
    if stack != [] && Binds(stack[|stack| - 1], prec) then
      var p := PopWhile(stack[..|stack| - 1], prec);
      Pop(p.rest, [OperatorToken(stack[|stack| - 1].op)] + p.out)
    else
      Pop(stack, [])
  }

  /** What `handle_op` pops is characterised completely: a prefix of the
      stack remains whose top does not bind, every entry popped binds, and
      the popped entries are yielded top first. */
  lemma {:induction false} PopWhileSpec(stack: seq<StackItem>, prec: int)
    ensures var r := PopWhile(stack, prec);
      stack[..|r.rest|] == r.rest &&
      (forall i | |r.rest| <= i < |stack| :: Binds(stack[i], prec)) &&
      (r.rest == [] || !Binds(r.rest[|r.rest| - 1], prec)) &&
      AllPending(stack[|r.rest|..]) && r.out == Unstack(stack[|r.rest|..])
    decreases |stack|
  {
    if stack != [] && Binds(stack[|stack| - 1], prec) {
      var init := stack[..|stack| - 1];
      var p := PopWhile(init, prec);
      PopWhileSpec(init, prec);
      assert init[..|p.rest|] == stack[..|p.rest|];
      assert stack[|p.rest|..] == init[|p.rest|..] + [stack[|stack| - 1]];
    } else {
      assert stack[..|stack|] == stack;
    }
  }

  /** `handle_op` followed by the push of the incoming operator. */
  function PushInfix(stack: seq<StackItem>, op: InfixInfo): Pop {
    var p := PopWhile(stack, Threshold(op));
    Pop(p.rest + [Pending(op)], p.out)
  }

  /** `match_paren`: pop down to the nearest `(`, which stays, yielding each
      entry popped. When there is none, everything is popped (and the
      caller throws). */
  function PopToParen(stack: seq<StackItem>): (r: Pop)
    ensures |r.rest| <= |stack|
    decreases |stack|
  {
    if stack == [] || stack[|stack| - 1] == LParen then
      Pop(stack, [])
    else
      var p := PopToParen(stack[..|stack| - 1]);
      Pop(p.rest, [OperatorToken(stack[|stack| - 1].op)] + p.out)
  }

  /** What `match_paren` pops is the run of pending operators above the
      topmost `(`, yielded top first; the rest is the stack below them. */
  lemma {:induction false} PopToParenYields(stack: seq<StackItem>)
    ensures var r := PopToParen(stack);
      stack[..|r.rest|] == r.rest &&
      AllPending(stack[|r.rest|..]) && r.out == Unstack(stack[|r.rest|..])
    decreases |stack|
  {
    if stack == [] || stack[|stack| - 1] == LParen {
      assert stack[..|stack|] == stack;
    } else {
      var init := stack[..|stack| - 1];
      var p := PopToParen(init);
      var k := |p.rest|;
      PopToParenYields(init);
      assert init[..k] == stack[..k];
      var popped := stack[k..];
      assert popped == init[k..] + [stack[|stack| - 1]];
      assert popped[..|popped| - 1] == init[k..];
    }
  }

  /** The rest is empty exactly when the stack holds no `(`, and otherwise
      ends with the topmost `(`. */
  lemma {:induction false} PopToParenFinds(stack: seq<StackItem>)
    ensures var r := PopToParen(stack);
      (r.rest == [] <==> LParen !in stack) &&
      (r.rest != [] ==> r.rest[|r.rest| - 1] == LParen)
    decreases |stack|
  {
    if stack != [] && stack[|stack| - 1] != LParen {
      var init := stack[..|stack| - 1];
      PopToParenFinds(init);
      assert stack == init + [stack[|stack| - 1]];
    }
  }

  /** What `match_paren` pops is characterised completely: everything
      above the topmost `(` is yielded, top first, and the `(` stays on
      top; the rest is empty exactly when there is no `(` at all. */
  lemma PopToParenSpec(stack: seq<StackItem>)
    ensures var r := PopToParen(stack);
      stack[..|r.rest|] == r.rest &&
      AllPending(stack[|r.rest|..]) && r.out == Unstack(stack[|r.rest|..]) &&
      (r.rest == [] <==> LParen !in stack) &&
      (r.rest != [] ==> r.rest[|r.rest| - 1] == LParen)
  {
    PopToParenYields(stack);
    PopToParenFinds(stack);
  }

  /** What the parser is configured with: the registered infix operators
      and functions by name, the implicit operator, and the prefix flag. */
  datatype Config = Config(
    operators: map<string, InfixInfo>,
    functions: map<string, FnInfo>,
    implicit: Option<InfixInfo>,
    unaryAsPrefix: bool)

  /** `this.implicitOp && operators.get(this.implicitOp) || null`: a
      non-empty name of a registered infix operator. */
  function ImplicitOf(operators: map<string, InfixInfo>, name: Option<string>): Option<InfixInfo> {
    if name.Some? && name.value != "" && name.value in operators then Some(operators[name.value]) else None
  }

  datatype State = State(stack: seq<StackItem>, expecting: Expect)

  /** One token's effect: the next state and the tokens yielded, or the
      tokens yielded before an error is thrown. */
  datatype Step = Next(state: State, out: seq<Token>) | Halt(out: seq<Token>, error: Error)

  /** `handle_implicit`: insert the implicit operator as if it had been
      read, or throw when none is configured. `expect` is left as it was. */
  function Implicit(implicit: Option<InfixInfo>, st: State, error: Error): Step {
    if implicit.None? then Halt([], error)
    else
      var p := PushInfix(st.stack, implicit.value);
      Next(State(p.rest, st.expecting), p.out)
  }

  /** The body of the parser's loop for one input token. */
  function StepToken(cfg: Config, st: State, t: string): Step {
    if t == "(" then
      var pre := if st.expecting == ExpectOperator then Implicit(cfg.implicit, st, ExpectedOperatorFoundLeftParen) else Next(st, []);
      match pre
      case Halt(o, e) => Halt(o, e)
      case Next(s, o) => Next(State(s.stack + [LParen], ExpectValue), o)
    else if t == "," then
      if st.expecting == ExpectValue then Halt([], ExpectedValueFoundComma)
      else
        var p := PopToParen(st.stack);
        if p.rest == [] then Halt(p.out, CommaOutsideParentheses)
        else Next(State(p.rest, ExpectValue), p.out)
    else if t == ")" then
      var p := PopToParen(st.stack);
      if p.rest == [] then Halt(p.out, MismatchedParentheses)
      else
        var s := p.rest[..|p.rest| - 1];
        if s != [] && s[|s| - 1].Pending? && s[|s| - 1].op.Function? then
          Next(State(s[..|s| - 1], st.expecting), p.out + [OperatorToken(s[|s| - 1].op)])
        else
          Next(State(s, st.expecting), p.out)
    else if t in cfg.operators && st.expecting != ExpectValue then
      var p := PushInfix(st.stack, cfg.operators[t]);
      Next(State(p.rest, ExpectValue), p.out)
    else if t in cfg.operators && t !in cfg.functions then
      Halt([], ExpectedValueFoundOperator(cfg.operators[t].name))
    else
      var pre := if st.expecting == ExpectOperator then Implicit(cfg.implicit, st, ExpectedOperatorFound(t)) else Next(st, []);
      match pre
      case Halt(o, e) => Halt(o, e)
      case Next(s, o) =>
        if t in cfg.functions then
          var f := cfg.functions[t];
          Next(State(s.stack + [Pending(f)], if f.arity > 1 || !cfg.unaryAsPrefix then ExpectArgs else ExpectValue), o)
        else if s.expecting == ExpectArgs then
          Halt(o, ExpectedArgumentList(t))
        else
          Next(State(s.stack, ExpectOperator), o + [ValueToken(t)])
  }

  /** The end of input: a value still expected throws; otherwise the stack
      is drained top first, and a `(` met on the way throws. */
  function Finish(st: State): Emission {
    if st.expecting == ExpectValue then Emission([], Some(MissingValuesAtEnd))
    else
      var p := PopToParen(st.stack);
      Emission(p.out, if p.rest == [] then None else Some(UnbalancedOpenParentheses))
  }

  /** Tokens yielded, followed by what the rest of the run yields. */
  function Preceded(out: seq<Token>, em: Emission): Emission {
    Emission(out + em.out, em.err)
  }

  function Run(cfg: Config, st: State, tokens: seq<string>): Emission
    decreases |tokens|
  {
    if tokens == [] then Finish(st)
    else
      match StepToken(cfg, st, tokens[0])
      case Halt(o, e) => Emission(o, Some(e))
      case Next(s, o) => Preceded(o, Run(cfg, s, tokens[1..]))
  }

  const Start := State([], ExpectValue)

  /** `parseToRPN`: every token yielded, and the error thrown, if any. */
  function Parse(cfg: Config, tokens: seq<string>): Emission {
    Run(cfg, Start, tokens)
  }

  lemma RunStep(cfg: Config, st: State, tokens: seq<string>, i: nat, out: seq<Token>, s: State, o: seq<Token>)
    requires i < |tokens| && StepToken(cfg, st, tokens[i]) == Next(s, o)
    ensures Preceded(out, Run(cfg, st, tokens[i..])) == Preceded(out + o, Run(cfg, s, tokens[i + 1..]))
  {
    assert tokens[i..][0] == tokens[i];
    assert tokens[i..][1..] == tokens[i + 1..];
  }

  lemma RunHalt(cfg: Config, st: State, tokens: seq<string>, i: nat, out: seq<Token>, o: seq<Token>, e: Error)
    requires i < |tokens| && StepToken(cfg, st, tokens[i]) == Halt(o, e)
    ensures Preceded(out, Run(cfg, st, tokens[i..])) == Emission(out + o, Some(e))
  {
    assert tokens[i..][0] == tokens[i];
  }

  // ----- The imperative helpers -----

  /** `handle_op`: pop to the output every entry that binds at least as
      tightly as the incoming operator. */
  method HandleOp(stack: seq<StackItem>, op: InfixInfo) returns (rest: seq<StackItem>, out: seq<Token>)
    ensures Pop(rest, out) == PopWhile(stack, Threshold(op))
  {
    var precedence := op.precedence;
    if op.associativity == Right {
      precedence := precedence + 1;
    }
    rest, out := stack, [];
    while |rest| > 0
      invariant PopWhile(stack, precedence) == Pop(PopWhile(rest, precedence).rest, out + PopWhile(rest, precedence).out)
      decreases |rest|
    {
      var top := rest[|rest| - 1];
      if top.LParen? {
        break;
      }
      if top.op.Infix? && top.op.precedence < precedence {
        break;
      }
      rest := rest[..|rest| - 1];
      out := out + [OperatorToken(top.op)];
    }
  }

  /** `handle_implicit`: throw when there is no implicit operator, else
      handle it like an explicit one and push it. */
  method HandleImplicit(stack: seq<StackItem>, implicit: Option<InfixInfo>, error: Error)
    returns (rest: seq<StackItem>, out: seq<Token>, err: Option<Error>)
    ensures implicit.None? ==> out == [] && err == Some(error)
    ensures implicit.Some? ==> err == None && Pop(rest, out) == PushInfix(stack, implicit.value)
  {
    if implicit.None? {
      return stack, [], Some(error);
    }
    rest, out := HandleOp(stack, implicit.value);
    rest := rest + [Pending(implicit.value)];
    err := None;
  }

  /** `match_paren`: pop to the output down to the nearest `(`; throw the
      given error when the stack runs out first. */
  method MatchParen(stack: seq<StackItem>, error: Error)
    returns (rest: seq<StackItem>, out: seq<Token>, err: Option<Error>)
    ensures Pop(rest, out) == PopToParen(stack)
    ensures err == if rest == [] then Some(error) else None
  {
    rest, out := stack, [];
    if |rest| == 0 {
      return rest, out, Some(error);
    }
    while rest[|rest| - 1] != LParen
      invariant |rest| > 0
      invariant PopToParen(stack) == Pop(PopToParen(rest).rest, out + PopToParen(rest).out)
      decreases |rest|
    {
      var top := rest[|rest| - 1];
      rest := rest[..|rest| - 1];
      out := out + [OperatorToken(top.op)];
      if |rest| == 0 {
        return rest, out, Some(error);
      }
    }
    err := None;
  }

  /** The body of `parseToRPN`'s loop: the `switch` on the token, then
      the infix, function and value cases. */
  method ReadToken(cfg: Config, stack0: seq<StackItem>, expecting0: Expect, token: string) returns (step: Step)
    ensures step == StepToken(cfg, State(stack0, expecting0), token)
  {
    var stack, expecting := stack0, expecting0;
    var out: seq<Token> := [];
    var yielded: seq<Token>;
    var err: Option<Error>;
    if token == "(" {
      if expecting == ExpectOperator {
        stack, yielded, err := HandleImplicit(stack, cfg.implicit, ExpectedOperatorFoundLeftParen);
        if err.Some? {
          return Halt(yielded, err.value);
        }
        out := yielded;
      }
      stack := stack + [LParen];
      expecting := ExpectValue;
      return Next(State(stack, expecting), out);
    }
    if token == "," {
      if expecting == ExpectValue {
        return Halt([], ExpectedValueFoundComma);
      }
      stack, yielded, err := MatchParen(stack, CommaOutsideParentheses);
      if err.Some? {
        return Halt(yielded, err.value);
      }
      expecting := ExpectValue;
      return Next(State(stack, expecting), yielded);
    }
    if token == ")" {
      stack, out, err := MatchParen(stack, MismatchedParentheses);
      if err.Some? {
        return Halt(out, err.value);
      }
      stack := stack[..|stack| - 1];
      if |stack| > 0 {
        var top := stack[|stack| - 1];
        if top.Pending? && top.op.Function? {
          out := out + [OperatorToken(top.op)];
          stack := stack[..|stack| - 1];
        }
      }
      return Next(State(stack, expecting), out);
    }
    if token in cfg.operators {
      var infixInfo := cfg.operators[token];
      if expecting == ExpectValue {
        if token !in cfg.functions {
          return Halt([], ExpectedValueFoundOperator(infixInfo.name));
        }
      } else {
        stack, yielded := HandleOp(stack, infixInfo);
        stack := stack + [Pending(infixInfo)];
        expecting := ExpectValue;
        return Next(State(stack, expecting), yielded);
      }
    }
    if expecting == ExpectOperator {
      stack, yielded, err := HandleImplicit(stack, cfg.implicit, ExpectedOperatorFound(token));
      if err.Some? {
        return Halt(yielded, err.value);
      }
      out := yielded;
    }
    if token in cfg.functions {
      var fnInfo := cfg.functions[token];
      stack := stack + [Pending(fnInfo)];
      expecting := if fnInfo.arity > 1 || !cfg.unaryAsPrefix then ExpectArgs else ExpectValue;
      return Next(State(stack, expecting), out);
    }
    if expecting == ExpectArgs {
      return Halt(out, ExpectedArgumentList(token));
    }
    out := out + [ValueToken(token)];
    expecting := ExpectOperator;
    return Next(State(stack, expecting), out);
  }

  // ----- The reducers of the entry points -----

  /** `args.join(' ')`. */
  function Join(parts: seq<string>): string {
    if parts == [] then "" else if |parts| == 1 then parts[0] else parts[0] + " " + Join(parts[1..])
  }

  /** The S-expression reducer and lifter of `parseToSExpr`. */
  function SExprNode(op: OpInfo, args: seq<string>): Result<string> {
    Ok("(" + op.name + " " + Join(args) + ")")
  }

  function SExprLeaf(x: string): Result<string> {
    Ok(x)
  }

  /** `extract_impl` applied: an operator with no implementation throws. */
  function ExtractImpl<V>(sem: Semantics<V>): (OpInfo, seq<V>) -> Result<V> {
    (op: OpInfo, vs: seq<V>) =>
      match op.fn
      case None => Err(NoImplementation(op.name))
      case Some(impl) => Ok(Apply(sem, impl, vs))
  }

  /** The lookup as the reducer's lifter: a throwing lookup propagates. */
  function Lift<V>(wrap: string -> Option<V>): string -> Result<V> {
    (x: string) =>
      match wrap(x)
      case None => Err(LookupThrew(x))
      case Some(v) => Ok(v)
  }

  /** An operator the partial evaluator can rewrite safely: an intrinsic
      tag comes with at least the operands its rule reads. */
  predicate TagFits(op: OpInfo) {
    op.fn.Some? && op.fn.value.Builtin? ==> Arity(op) >= TagArity(op.fn.value.tag)
  }

  /** The outcome of `partial`: the simplified tree and its free names. */
  datatype PartialResult<V> = PartialResult(ast: AstNode<V>, ops: set<string>, vars: set<string>)

  // ----- Every operator the parser emits is one it was configured with -----

  predicate StackFits(stack: seq<StackItem>) {
    forall i | 0 <= i < |stack| :: stack[i].Pending? ==> TagFits(stack[i].op)
  }

  predicate TokensFit(toks: seq<Token>) {
    forall i | 0 <= i < |toks| :: toks[i].OperatorToken? ==> TagFits(toks[i].op)
  }

  predicate RegistryFits(cfg: Config) {
    forall k | k in cfg.functions :: TagFits(cfg.functions[k])
  }

  lemma TokensFitAppend(a: seq<Token>, b: seq<Token>)
    ensures TokensFit(a + b) <==> TokensFit(a) && TokensFit(b)
  {
    if TokensFit(a) && TokensFit(b) {
      forall i | 0 <= i < |a + b| && (a + b)[i].OperatorToken? ensures TagFits((a + b)[i].op) {
        if i >= |a| {
          assert (a + b)[i] == b[i - |a|];
        }
      }
    }
    if TokensFit(a + b) {
      forall i | 0 <= i < |b| && b[i].OperatorToken? ensures TagFits(b[i].op) {
        assert (a + b)[|a| + i] == b[i];
      }
      forall i | 0 <= i < |a| && a[i].OperatorToken? ensures TagFits(a[i].op) {
        assert (a + b)[i] == a[i];
      }
    }
  }

  lemma PopWhileFits(stack: seq<StackItem>, prec: int)
    requires StackFits(stack)
    ensures StackFits(PopWhile(stack, prec).rest) && TokensFit(PopWhile(stack, prec).out)
  {
    PopWhileSpec(stack, prec);
    var r := PopWhile(stack, prec);
    var popped := stack[|r.rest|..];
    assert forall i | 0 <= i < |popped| :: popped[i] == stack[|r.rest| + i];
    assert forall i | 0 <= i < |r.rest| :: r.rest[i] == stack[i];
  }

  lemma PopToParenFits(stack: seq<StackItem>)
    requires StackFits(stack)
    ensures StackFits(PopToParen(stack).rest) && TokensFit(PopToParen(stack).out)
  {
    PopToParenSpec(stack);
    var r := PopToParen(stack);
    var popped := stack[|r.rest|..];
    assert forall i | 0 <= i < |popped| :: popped[i] == stack[|r.rest| + i];
    assert forall i | 0 <= i < |r.rest| :: r.rest[i] == stack[i];
  }

  lemma ImplicitFits(implicit: Option<InfixInfo>, st: State, error: Error)
    requires StackFits(st.stack)
    ensures var r := Implicit(implicit, st, error);
      TokensFit(r.out) && (r.Next? ==> StackFits(r.state.stack))
  {
    if implicit.Some? {
      PopWhileFits(st.stack, Threshold(implicit.value));
    }
  }

  /** One token keeps every stacked operator registered and yields only
      registered operators. */
  lemma StepFits(cfg: Config, st: State, t: string)
    requires RegistryFits(cfg) && StackFits(st.stack)
    ensures var r := StepToken(cfg, st, t);
      TokensFit(r.out) && (r.Next? ==> StackFits(r.state.stack))
  {
    if t == "," || t == ")" {
      ClosingFits(cfg, st, t);
    } else if t == "(" {
      ImplicitFits(cfg.implicit, st, ExpectedOperatorFoundLeftParen);
    } else {
      NameFits(cfg, st, t);
    }
  }

  lemma ClosingFits(cfg: Config, st: State, t: string)
    requires StackFits(st.stack) && (t == "," || t == ")")
    ensures var r := StepToken(cfg, st, t);
      TokensFit(r.out) && (r.Next? ==> StackFits(r.state.stack))
  {
    PopToParenFits(st.stack);
    var p := PopToParen(st.stack);
    if t == ")" && p.rest != [] {
      var s := p.rest[..|p.rest| - 1];
      if s != [] && s[|s| - 1].Pending? && s[|s| - 1].op.Function? {
        TokensFitAppend(p.out, [OperatorToken(s[|s| - 1].op)]);
      }
    }
  }

  lemma NameFits(cfg: Config, st: State, t: string)
    requires RegistryFits(cfg) && StackFits(st.stack) && t != "(" && t != "," && t != ")"
    ensures var r := StepToken(cfg, st, t);
      TokensFit(r.out) && (r.Next? ==> StackFits(r.state.stack))
  {
    if t in cfg.operators && st.expecting != ExpectValue {
      PopWhileFits(st.stack, Threshold(cfg.operators[t]));
    } else {
      ImplicitFits(cfg.implicit, st, ExpectedOperatorFound(t));
      if StepToken(cfg, st, t).Next? && st.expecting != ExpectArgs {
        TokensFitAppend(Implicit(cfg.implicit, st, ExpectedOperatorFound(t)).out, [ValueToken(t)]);
      }
    }
  }

  /** Every operator token a parse yields fits. */
  lemma {:induction false} RunFits(cfg: Config, st: State, tokens: seq<string>)
    requires RegistryFits(cfg) && StackFits(st.stack)
    ensures TokensFit(Run(cfg, st, tokens).out)
    decreases |tokens|
  {
    if tokens == [] {
      if st.expecting != ExpectValue {
        PopToParenFits(st.stack);
      }
    } else {
      StepFits(cfg, st, tokens[0]);
      match StepToken(cfg, st, tokens[0])
      case Halt(_, _) =>
      case Next(s, o) =>
        RunFits(cfg, s, tokens[1..]);
        TokensFitAppend(o, Run(cfg, s, tokens[1..]).out);
    }
  }

  lemma {:induction false} PostfixAllFits<V>(ts: seq<AstNode<V>>)
    requires TokensFit(PostfixAll(ts))
    ensures forall i | 0 <= i < |ts| :: TokensFit(Postfix(ts[i]))
    decreases |ts|
  {
    if ts != [] {
      var init := ts[..|ts| - 1];
      TokensFitAppend(PostfixAll(init), Postfix(ts[|ts| - 1]));
      PostfixAllFits(init);
      assert forall i | 0 <= i < |init| :: ts[i] == init[i];
    }
  }

  /** A parsed tree whose postfix order has only fitting operators meets
      the partial evaluator's shape requirement. */
  lemma {:induction false} ParsedFits<V>(t: AstNode<V>)
    requires Parsed(t) && TokensFit(Postfix(t))
    ensures Fits(t)
    decreases t
  {
    if t.Opr? {
      TokensFitAppend(PostfixAll(t.args), [OperatorToken(t.op)]);
      assert [OperatorToken(t.op)][0] == OperatorToken(t.op);
      PostfixAllFits(t.args);
      forall i | 0 <= i < |t.args| ensures Fits(t.args[i]) {
        ParsedFits(t.args[i]);
      }
    }
  }

  /** The tree built from a parse with a fitting registry meets the partial
      evaluator's shape requirement. */
  lemma ParsedTreeFits<V>(cfg: Config, tokens: seq<string>)
    requires RegistryFits(cfg) && Build<V>(Parse(cfg, tokens)).Ok?
    ensures Fits(Build<V>(Parse(cfg, tokens)).value)
  {
    var em := Parse(cfg, tokens);
    RunFits(cfg, Start, tokens);
    BuildIsPostfix<V>(em);
    ParsedFits(Build<V>(em).value);
  }

  // ----- What the entry points compute -----

  /** `partial` of parser.ts: build the tree, simplify it, and walk it for
      its free names. */
  function PartialOf<V(==)>(cfg: Config, sem: Semantics<V>, wrap: string -> Option<V>, tokens: seq<string>)
    : Result<PartialResult<V>>
    requires RegistryFits(cfg)
  {
    match Build<V>(Parse(cfg, tokens))
    case Err(e) => Err(e)
    case Ok(t) =>
      ParsedTreeFits<V>(cfg, tokens);
      var ast := Partial(sem, wrap, t);
      Ok(PartialResult(ast, FreeOps(ast), FreeVars(ast)))
  }

  /** `partial` of index.ts: reduce with the folding reducers; the free
      names are those left in the result. */
  function LegacyPartialOf<V>(cfg: Config, sem: Semantics<V>, wrap: string -> Option<V>, tokens: seq<string>)
    : Result<PartialResult<V>>
  {
    match Consume(Parse(cfg, tokens), LegacyNode(sem), LegacyLeaf(wrap))
    case Err(e) => Err(e)
    case Ok(t) => Ok(PartialResult(t, FreeOps(t), FreeVars(t)))
  }

  /** The walk of `partial`: add the free literals and free operators of
      `node` to the sets. */
  method Walk<V>(node: AstNode<V>, ops0: set<string>, vars0: set<string>) returns (ops: set<string>, vars: set<string>)
    ensures ops == ops0 + FreeOps(node) && vars == vars0 + FreeVars(node)
    decreases node
  {
    ops, vars := ops0, vars0;
    match node {
      case Res(_) =>
      case Val(x) =>
        vars := vars + {x};
      case Opr(op, args) =>
        for i := 0 to |args|
          invariant ops == ops0 + FreeOpsAll(args[..i]) && vars == vars0 + FreeVarsAll(args[..i])
        {
          FreeAllAppend(args[..i], [args[i]]);
          FreeAllSingle(args[i]);
          assert args[..i + 1] == args[..i] + [args[i]];
          ops, vars := Walk(args[i], ops, vars);
        }
        assert args[..|args|] == args;
        if op.fn.None? {
          ops := ops + {op.name};
        }
    }
  }

  // ----- The builder class -----

  class Railyard<V(==)> {
    var operators: map<string, InfixInfo>
    var functions: map<string, FnInfo>
    var wrap: string -> Option<V>
    var implicitOp: Option<string>
    var unaryAsPrefix: bool
    /** The meaning of the intrinsic tags and of the host closures. */
    const sem: Semantics<V>

    /** Every descriptor is filed under its own name, and an intrinsic tag
        on a function comes with the operands its rewrite rule reads. */
    ghost predicate Valid()
      reads this
    {
      (forall k | k in operators :: operators[k].name == k) &&
      (forall k | k in functions :: functions[k].name == k && TagFits(functions[k]))
    }

    /** A fresh parser: no operators, no implicit operator, prefix mode on,
        and the lookup parses numbers. */
    constructor (sem: Semantics<V>, parseNumber: string -> V)
      ensures Valid()
      ensures operators == map[] && functions == map[] && implicitOp == None && unaryAsPrefix
      ensures this.sem == sem && forall x :: wrap(x) == Some(parseNumber(x))
    {
      operators := map[];
      functions := map[];
      wrap := (x: string) => Some(parseNumber(x));
      implicitOp := None;
      unaryAsPrefix := true;
      this.sem := sem;
    }

    /** `register`: file the descriptor under its name in the table of its
        kind, replacing any earlier one. */
    method Register(op: OpInfo) returns (self: Railyard<V>)
      requires Valid() && TagFits(op)
      modifies this
      ensures Valid() && self == this
      ensures op.Infix? ==> operators == old(operators)[op.name := op] && functions == old(functions)
      ensures op.Function? ==> functions == old(functions)[op.name := op] && operators == old(operators)
      ensures wrap == old(wrap) && implicitOp == old(implicitOp) && unaryAsPrefix == old(unaryAsPrefix)
    {
      if op.Infix? {
        operators := operators[op.name := op];
      } else {
        functions := functions[op.name := op];
      }
      return this;
    }

    /** `lookup`: replace the literal lookup. */
    method Lookup(fn: string -> Option<V>) returns (self: Railyard<V>)
      modifies this
      ensures self == this && wrap == fn
      ensures operators == old(operators) && functions == old(functions)
      ensures implicitOp == old(implicitOp) && unaryAsPrefix == old(unaryAsPrefix)
    {
      wrap := fn;
      return this;
    }

    /** `setImplicitOp`: name the operator inserted between adjacent
        operands, or none. */
    method SetImplicitOp(op: Option<string>) returns (self: Railyard<V>)
      modifies this
      ensures self == this && implicitOp == op
      ensures operators == old(operators) && functions == old(functions)
      ensures wrap == old(wrap) && unaryAsPrefix == old(unaryAsPrefix)
    {
      implicitOp := op;
      return this;
    }

    /** `unaryFnAsPrefix`: whether a unary function may take a bare
        operand. */
    method UnaryFnAsPrefix(flag: bool) returns (self: Railyard<V>)
      modifies this
      ensures self == this && unaryAsPrefix == flag
      ensures operators == old(operators) && functions == old(functions)
      ensures wrap == old(wrap) && implicitOp == old(implicitOp)
    {
      unaryAsPrefix := flag;
      return this;
    }

    /** The configuration a parse reads. */
    function Settings(): Config
      reads this
    {
      Config(operators, functions, ImplicitOf(operators, implicitOp), unaryAsPrefix)
    }

    /** `parseToRPN`: read the tokens in order, then drain the stack. */
    method ParseToRPN(tokens: seq<string>) returns (em: Emission)
      ensures em == Parse(Settings(), tokens)
    {
      var cfg := Settings();
      var stack: seq<StackItem> := [];
      var expecting := ExpectValue;
      var out: seq<Token> := [];
      for i := 0 to |tokens|
        invariant Parse(cfg, tokens) == Preceded(out, Run(cfg, State(stack, expecting), tokens[i..]))
      {
        var step := ReadToken(cfg, stack, expecting, tokens[i]);
        if step.Halt? {
          RunHalt(cfg, State(stack, expecting), tokens, i, out, step.out, step.error);
          return Emission(out + step.out, Some(step.error));
        }
        RunStep(cfg, State(stack, expecting), tokens, i, out, step.state, step.out);
        out := out + step.out;
        stack, expecting := step.state.stack, step.state.expecting;
      }
      assert tokens[|tokens|..] == [];
      if expecting == ExpectValue {
        return Emission(out, Some(MissingValuesAtEnd));
      }
      while |stack| > 0
        invariant Parse(cfg, tokens) == Preceded(out, Finish(State(stack, expecting)))
        invariant expecting != ExpectValue
        decreases |stack|
      {
        var token := stack[|stack| - 1];
        stack := stack[..|stack| - 1];
        if token == LParen {
          return Emission(out, Some(UnbalancedOpenParentheses));
        }
        out := out + [OperatorToken(token.op)];
      }
      return Emission(out, None);
    }

    /** `parseToAST`: reduce the parse with the tree builder. */
    method ParseToAST(tokens: seq<string>) returns (r: Result<AstNode<V>>)
      ensures r == Build(Parse(Settings(), tokens))
    {
      var em := ParseToRPN(tokens);
      r := Reducer.Interpret(em, BuildNode, BuildLeaf);
    }

    /** `parseToSExpr`: reduce the parse with the S-expression renderer. */
    method ParseToSExpr(tokens: seq<string>) returns (r: Result<string>)
      ensures r == Consume(Parse(Settings(), tokens), SExprNode, SExprLeaf)
    {
      var em := ParseToRPN(tokens);
      r := Reducer.Interpret(em, SExprNode, SExprLeaf);
    }

    /** `interpret`: reduce the parse by applying the implementations. */
    method Interpret(tokens: seq<string>) returns (r: Result<V>)
      ensures r == Consume(Parse(Settings(), tokens), ExtractImpl(sem), Lift(wrap))
    {
      var em := ParseToRPN(tokens);
      r := Reducer.Interpret(em, ExtractImpl(sem), Lift(wrap));
    }

    /** `partial`: build the tree, simplify it, and collect its free
        names. */
    method Partial(tokens: seq<string>) returns (r: Result<PartialResult<V>>)
      requires Valid()
      ensures r == PartialOf(Settings(), sem, wrap, tokens)
    {
      var built := ParseToAST(tokens);
      if built.Err? {
        return Err(built.error);
      }
      ParsedTreeFits<V>(Settings(), tokens);
      assert Build<V>(Parse(Settings(), tokens)) == Ok(built.value);
      var ast := Evaluate.Partial(sem, wrap, built.value);
      var ops, vars := Walk(ast, {}, {});
      assert ops == FreeOps(ast) && vars == FreeVars(ast);
      assert PartialOf(Settings(), sem, wrap, tokens) == Ok(PartialResult(ast, FreeOps(ast), FreeVars(ast)));
      return Ok(PartialResult(ast, ops, vars));
    }

    /** `partial` of index.ts: fold while reducing, recording each
        unimplemented operator and each literal whose lookup throws; a
        literal already recorded is not looked up again. */
    method PartialDuringReduction(tokens: seq<string>) returns (r: Result<PartialResult<V>>)
      ensures r == LegacyPartialOf(Settings(), sem, wrap, tokens)
    {
      var em := ParseToRPN(tokens);
      var reduced, missingImpls, missingVals := LegacyReduce(sem, wrap, em.out);
      if reduced.Err? {
        return Err(reduced.error);
      }
      var vstack := reduced.value;
      if em.err.Some? {
        return Err(em.err.value);
      }
      if |vstack| == 0 {
        return Err(EmptyFormula);
      }
      if |vstack| > 1 {
        return Err(MissingOperators);
      }
      FreeAllSingle(vstack[0]);
      assert vstack == [vstack[0]];
      return Ok(PartialResult(vstack[0], missingImpls, missingVals));
    }
  }
}
