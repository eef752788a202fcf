/** Properties of the shunting-yard parser: the order of the literals, the
    end-of-input outcomes, the implicit operator, function calls, infix
    names in value position, and the two bracket tokens. */
module ParserProperties {
  import opened Types
  import opened Interpret
  import opened Parser

  // ----- Literals keep their input order -----

  /** A token the parser passes through as a literal: not a bracket or a
      comma, and not a registered operator or function name. */
  predicate IsLiteral(cfg: Config, t: string) {
    t != "(" && t != "," && t != ")" && t !in cfg.operators && t !in cfg.functions
  }

  /** The literal tokens of the input, in order. */
  function Literals(cfg: Config, tokens: seq<string>): seq<string> {
    if tokens == [] then []
    else (if IsLiteral(cfg, tokens[0]) then [tokens[0]] else []) + Literals(cfg, tokens[1..])
  }

  /** The literals among the tokens yielded, in order. */
  function ValuesOf(toks: seq<Token>): seq<string> {
    if toks == [] then []
    else (if toks[0].ValueToken? then [toks[0].value] else []) + ValuesOf(toks[1..])
  }

  lemma {:induction false} ValuesOfAppend(a: seq<Token>, b: seq<Token>)
    ensures ValuesOf(a + b) == ValuesOf(a) + ValuesOf(b)
    decreases |a|
  {
    if a != [] {
      assert (a + b)[1..] == a[1..] + b;
      ValuesOfAppend(a[1..], b);
    } else {
      assert a + b == b;
    }
  }

  lemma {:induction false} UnstackNoValues(items: seq<StackItem>)
    requires AllPending(items)
    ensures ValuesOf(Unstack(items)) == []
    decreases |items|
  {
    if items != [] {
      var u := Unstack(items);
      assert u[1..] == Unstack(items[..|items| - 1]);
      UnstackNoValues(items[..|items| - 1]);
    }
  }

  lemma PopsNoValues(stack: seq<StackItem>, prec: int)
    ensures ValuesOf(PopWhile(stack, prec).out) == []
    ensures ValuesOf(PopToParen(stack).out) == []
  {
    PopWhileSpec(stack, prec);
    UnstackNoValues(stack[|PopWhile(stack, prec).rest|..]);
    PopToParenSpec(stack);
    UnstackNoValues(stack[|PopToParen(stack).rest|..]);
  }

  /** One token yields its own literal and nothing else of the input: a
      literal read yields exactly itself and leaves the parser expecting an
      operator; any other token yields no literal; a token that throws
      yields none. */
  lemma StepValues(cfg: Config, st: State, t: string)
    ensures var r := StepToken(cfg, st, t);
      (r.Next? ==> ValuesOf(r.out) == if IsLiteral(cfg, t) then [t] else []) &&
      (r.Next? && IsLiteral(cfg, t) ==> r.state.expecting == ExpectOperator) &&
      (r.Halt? ==> ValuesOf(r.out) == [])
  {
    if t == "(" || t == "," || t == ")" {
      PunctuationValues(cfg, st, t);
    } else {
      NameValues(cfg, st, t);
    }
  }

  lemma PunctuationValues(cfg: Config, st: State, t: string)
    requires t == "(" || t == "," || t == ")"
    ensures !IsLiteral(cfg, t) && ValuesOf(StepToken(cfg, st, t).out) == []
  {
    PopsNoValues(st.stack, 0);
    if cfg.implicit.Some? {
      PopsNoValues(st.stack, Threshold(cfg.implicit.value));
    }
    if t == ")" && PopToParen(st.stack).rest != [] {
      var p := PopToParen(st.stack);
      var s := p.rest[..|p.rest| - 1];
      if s != [] && s[|s| - 1].Pending? && s[|s| - 1].op.Function? {
        ValuesOfAppend(p.out, [OperatorToken(s[|s| - 1].op)]);
      }
    }
  }

  lemma NameValues(cfg: Config, st: State, t: string)
    requires t != "(" && t != "," && t != ")"
    ensures var r := StepToken(cfg, st, t);
      (r.Next? ==> ValuesOf(r.out) == if IsLiteral(cfg, t) then [t] else []) &&
      (r.Next? && IsLiteral(cfg, t) ==> r.state.expecting == ExpectOperator) &&
      (r.Halt? ==> ValuesOf(r.out) == [])
  {
    var imp := cfg.implicit;
    if imp.Some? {
      PopsNoValues(st.stack, Threshold(imp.value));
    }
    if t in cfg.operators {
      PopsNoValues(st.stack, Threshold(cfg.operators[t]));
    }
    if IsLiteral(cfg, t) && StepToken(cfg, st, t).Next? {
      var o := if st.expecting == ExpectOperator then Implicit(imp, st, ExpectedOperatorFound(t)).out else [];
      ValuesOfAppend(o, [ValueToken(t)]);
    }
  }

  /** Literals are yielded in input order: what a parse yields holds a
      prefix of the input's literals, and all of them when nothing is
      thrown. */
  lemma {:induction false} RunValues(cfg: Config, st: State, tokens: seq<string>)
    ensures ValuesOf(Run(cfg, st, tokens).out) <= Literals(cfg, tokens)
    ensures Run(cfg, st, tokens).err.None? ==> ValuesOf(Run(cfg, st, tokens).out) == Literals(cfg, tokens)
    decreases |tokens|
  {
    if tokens == [] {
      PopsNoValues(st.stack, 0);
    } else {
      StepValues(cfg, st, tokens[0]);
      match StepToken(cfg, st, tokens[0])
      case Halt(_, _) =>
      case Next(s, o) =>
        RunValues(cfg, s, tokens[1..]);
        ValuesOfAppend(o, Run(cfg, s, tokens[1..]).out);
    }
  }

  lemma LiteralsInInputOrder(cfg: Config, tokens: seq<string>)
    ensures ValuesOf(Parse(cfg, tokens).out) <= Literals(cfg, tokens)
    ensures Parse(cfg, tokens).err.None? ==> ValuesOf(Parse(cfg, tokens).out) == Literals(cfg, tokens)
  {
    RunValues(cfg, Start, tokens);
  }

  // ----- End of input -----

  /** The three outcomes of the end of input: a value still expected
      throws; a `(` left on the stack throws after the operators above it
      are yielded; otherwise every stacked operator is yielded, top first. */
  lemma FinishOutcomes(st: State)
    ensures st.expecting == ExpectValue ==> Finish(st) == Emission([], Some(MissingValuesAtEnd))
    ensures st.expecting != ExpectValue && LParen in st.stack ==>
      Finish(st).err == Some(UnbalancedOpenParentheses) &&
      exists k | 0 <= k < |st.stack| :: st.stack[k] == LParen && AllPending(st.stack[k + 1..]) &&
                                        Finish(st).out == Unstack(st.stack[k + 1..])
    ensures st.expecting != ExpectValue && LParen !in st.stack ==>
      AllPending(st.stack) && Finish(st) == Emission(Unstack(st.stack), None)
  {
    PopToParenSpec(st.stack);
    var p := PopToParen(st.stack);
    if st.expecting != ExpectValue {
      if LParen in st.stack {
        var k := |p.rest| - 1;
        assert st.stack[k] == p.rest[k];
        assert st.stack[k + 1..] == st.stack[|p.rest|..];
      } else {
        assert st.stack[0..] == st.stack;
      }
    }
  }

  // ----- The implicit operator -----

  /** The implicit operator's step: reading `t` where an operator is
      expected does what reading the operator's name and then `t` does. */
  lemma ImplicitStep(cfg: Config, st: State, name: string, t: string)
    requires st.expecting == ExpectOperator
    requires name in cfg.operators && cfg.implicit == Some(cfg.operators[name])
    requires name != "(" && name != "," && name != ")"
    requires t != "," && t != ")" && t !in cfg.operators
    ensures var p := PushInfix(st.stack, cfg.operators[name]);
      var mid := State(p.rest, ExpectValue);
      StepToken(cfg, st, name) == Next(mid, p.out) &&
      StepToken(cfg, mid, t).Next? &&
      StepToken(cfg, st, t) == Next(StepToken(cfg, mid, t).state, p.out + StepToken(cfg, mid, t).out)
  {
  }

  /** Where an operator is expected, a `(`, a function name or a literal is
      read as if the implicit operator's name had been written before it. */
  lemma ImplicitIsExplicit(cfg: Config, st: State, name: string, t: string, rest: seq<string>)
    requires st.expecting == ExpectOperator
    requires name in cfg.operators && cfg.implicit == Some(cfg.operators[name])
    requires name != "(" && name != "," && name != ")"
    requires t != "," && t != ")" && t !in cfg.operators
    ensures Run(cfg, st, [t] + rest) == Run(cfg, st, [name, t] + rest)
  {
    ImplicitStep(cfg, st, name, t);
    var p := PushInfix(st.stack, cfg.operators[name]);
    var mid := State(p.rest, ExpectValue);
    var s := StepToken(cfg, mid, t).state;
    var o := StepToken(cfg, mid, t).out;
    var implicit := [t] + rest;
    var explicit := [name, t] + rest;
    assert implicit[0] == t && explicit[0] == name && explicit[1] == t;
    RunStep(cfg, st, implicit, 0, [], s, p.out + o);
    RunStep(cfg, st, explicit, 0, [], mid, p.out);
    RunStep(cfg, mid, explicit, 1, p.out, s, o);
    assert implicit[0..] == implicit && explicit[0..] == explicit;
    assert implicit[1..] == rest && explicit[2..] == rest;
    assert Preceded([], Run(cfg, st, implicit)) == Run(cfg, st, implicit);
    assert Preceded([], Run(cfg, st, explicit)) == Run(cfg, st, explicit);
  }

  /** Without an implicit operator, a `(`, a function name or a literal
      where an operator is expected throws, yielding nothing. */
  lemma NoImplicitOperator(cfg: Config, st: State, t: string)
    requires cfg.implicit.None? && st.expecting == ExpectOperator
    requires t != "," && t != ")" && t !in cfg.operators
    ensures StepToken(cfg, st, t) ==
      Halt([], if t == "(" then ExpectedOperatorFoundLeftParen else ExpectedOperatorFound(t))
  {
  }

  // ----- Functions and infix names in value position -----

  /** A function name pushes its descriptor and asks for an argument list
      exactly when the function takes more than one argument or prefix mode
      is off; otherwise a bare operand may follow. */
  lemma FunctionStep(cfg: Config, st: State, f: string)
    requires f in cfg.functions && f != "(" && f != "," && f != ")"
    requires f !in cfg.operators || st.expecting == ExpectValue
    requires StepToken(cfg, st, f).Next?
    ensures var s := StepToken(cfg, st, f).state;
      |s.stack| > 0 && s.stack[|s.stack| - 1] == Pending(cfg.functions[f]) &&
      (s.expecting == ExpectArgs <==> cfg.functions[f].arity > 1 || !cfg.unaryAsPrefix) &&
      (s.expecting != ExpectArgs ==> s.expecting == ExpectValue)
  {
  }

  /** Hence such a function followed by a bare literal throws "Expected
      argument list", whatever follows. */
  lemma FunctionNeedsArgumentList(cfg: Config, st: State, f: string, u: string, rest: seq<string>)
    requires f in cfg.functions && f != "(" && f != "," && f != ")"
    requires st.expecting == ExpectValue
    requires cfg.functions[f].arity > 1 || !cfg.unaryAsPrefix
    requires IsLiteral(cfg, u)
    ensures Run(cfg, st, [f, u] + rest) == Emission([], Some(ExpectedArgumentList(u)))
  {
    var s := State(st.stack + [Pending(cfg.functions[f])], ExpectArgs);
    assert StepToken(cfg, st, f) == Next(s, []);
    assert ([f, u] + rest)[0] == f && ([f, u] + rest)[1..] == [u] + rest;
    assert ([u] + rest)[0] == u;
    assert StepToken(cfg, s, u) == Halt([], ExpectedArgumentList(u));
  }

  /** An infix name read where a value is expected throws unless the name
      is also a function, and then it is read exactly as that function. */
  lemma InfixInValuePosition(cfg: Config, st: State, t: string)
    requires t in cfg.operators && st.expecting == ExpectValue
    requires t != "(" && t != "," && t != ")"
    ensures t !in cfg.functions ==>
      StepToken(cfg, st, t) == Halt([], ExpectedValueFoundOperator(cfg.operators[t].name))
    ensures t in cfg.functions ==>
      StepToken(cfg, st, t) == StepToken(cfg.(operators := cfg.operators - {t}), st, t)
  {
  }

  // ----- Brackets and commas -----

  /** `)` throws "Mismatched Parentheses" exactly when no `(` is open,
      after yielding the whole stack; otherwise it yields the operators
      above the nearest `(`, discards it, yields a function waiting below
      it, and leaves `expect` as it was. */
  lemma CloseParen(cfg: Config, st: State)
    ensures StepToken(cfg, st, ")").Halt? <==> LParen !in st.stack
    ensures LParen !in st.stack ==>
      AllPending(st.stack) && StepToken(cfg, st, ")") == Halt(Unstack(st.stack), MismatchedParentheses)
    ensures LParen in st.stack ==>
      var k := |PopToParen(st.stack).rest| - 1;
      var r := StepToken(cfg, st, ")");
      0 <= k < |st.stack| && st.stack[k] == LParen && AllPending(st.stack[k + 1..]) &&
      r.Next? && r.state.expecting == st.expecting &&
      if k > 0 && st.stack[k - 1].Pending? && st.stack[k - 1].op.Function? then
        r.state.stack == st.stack[..k - 1] &&
        r.out == Unstack(st.stack[k + 1..]) + [OperatorToken(st.stack[k - 1].op)]
      else
        r.state.stack == st.stack[..k] && r.out == Unstack(st.stack[k + 1..])
  {
    PopToParenSpec(st.stack);
    var p := PopToParen(st.stack);
    if LParen in st.stack {
      var k := |p.rest| - 1;
      assert st.stack[k] == p.rest[k];
      assert st.stack[k + 1..] == st.stack[|p.rest|..];
      var s := p.rest[..k];
      assert s == st.stack[..k];
      if k > 0 {
        assert s[k - 1] == st.stack[k - 1];
        assert s[..k - 1] == st.stack[..k - 1];
      }
    } else {
      assert st.stack[0..] == st.stack;
    }
  }

  /** `,` throws where a value is expected, and throws when no `(` is
      open; otherwise it yields the operators above the nearest `(`, which
      stays, and a value is expected next. */
  lemma Comma(cfg: Config, st: State)
    ensures st.expecting == ExpectValue ==> StepToken(cfg, st, ",") == Halt([], ExpectedValueFoundComma)
    ensures st.expecting != ExpectValue && LParen !in st.stack ==>
      AllPending(st.stack) && StepToken(cfg, st, ",") == Halt(Unstack(st.stack), CommaOutsideParentheses)
    ensures st.expecting != ExpectValue && LParen in st.stack ==>
      var k := |PopToParen(st.stack).rest| - 1;
      0 <= k < |st.stack| && st.stack[k] == LParen && AllPending(st.stack[k + 1..]) &&
      StepToken(cfg, st, ",") == Next(State(st.stack[..k + 1], ExpectValue), Unstack(st.stack[k + 1..]))
  {
    PopToParenSpec(st.stack);
    var p := PopToParen(st.stack);
    if LParen in st.stack {
      var k := |p.rest| - 1;
      assert st.stack[k] == p.rest[k];
      assert st.stack[k + 1..] == st.stack[|p.rest|..];
    } else {
      assert st.stack[0..] == st.stack;
    }
  }
}
