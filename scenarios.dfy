/** Concrete formulas from the project's tests, parsed with the model: the
    postfix order of `3 * ( 2 + 1 )`, the error cases, the implicit
    operator, unary minus, and the partial evaluation of `3 ( 2 + 1 )`. */
module Scenarios {
  import opened Types
  import opened Intrinsics
  import opened Interpret
  import opened Evaluate
  import opened Legacy
  import opened Parser

  const Mul: InfixInfo := Infix("*", 8, Left, Some(Host(0)))
  const Add: InfixInfo := Infix("+", 8, Left, Some(Host(1)))
  const Sub: InfixInfo := Infix("-", 8, Left, Some(Host(2)))
  const Minus: FnInfo := Function("-", 1, Some(Host(3)))

  /** Infix `*`, `+` and `-` at one precedence, and `-` also a unary
      function; no implicit operator. */
  const Arith := Config(map["*" := Mul, "+" := Add, "-" := Sub], map["-" := Minus], None, true)

  /** The same with `*` as the implicit operator. */
  const Juxtaposed := Config(map["*" := Mul, "+" := Add, "-" := Sub], map["-" := Minus], Some(Mul), true)

  /** One step of a run whose first token is read without throwing. */
  lemma RunCons(cfg: Config, st: State, t: string, rest: seq<string>, s: State, o: seq<Token>)
    requires StepToken(cfg, st, t) == Next(s, o)
    ensures Run(cfg, st, [t] + rest) == Preceded(o, Run(cfg, s, rest))
  {
    assert ([t] + rest)[0] == t && ([t] + rest)[1..] == rest;
  }

  /** The parser's steps on `3 * ( 2 + 1 )`. */
  lemma ThreeTimesSumSteps()
    ensures StepToken(Arith, Start, "3") == Next(State([], ExpectOperator), [ValueToken("3")])
    ensures StepToken(Arith, State([], ExpectOperator), "*") == Next(State([Pending(Mul)], ExpectValue), [])
  {
  }

  lemma ThreeTimesSumOpenSteps()
    ensures StepToken(Arith, State([Pending(Mul)], ExpectValue), "(") ==
      Next(State([Pending(Mul), LParen], ExpectValue), [])
    ensures StepToken(Arith, State([Pending(Mul), LParen], ExpectValue), "2") ==
      Next(State([Pending(Mul), LParen], ExpectOperator), [ValueToken("2")])
  {
  }

  lemma ThreeTimesSumInnerSteps()
    ensures StepToken(Arith, State([Pending(Mul), LParen], ExpectOperator), "+") ==
      Next(State([Pending(Mul), LParen, Pending(Add)], ExpectValue), [])
    ensures StepToken(Arith, State([Pending(Mul), LParen, Pending(Add)], ExpectValue), "1") ==
      Next(State([Pending(Mul), LParen, Pending(Add)], ExpectOperator), [ValueToken("1")])
    ensures PopToParen([Pending(Mul), LParen, Pending(Add)]) == Pop([Pending(Mul), LParen], [OperatorToken(Add)])
  {
    assert [Pending(Mul), LParen, Pending(Add)][..2] == [Pending(Mul), LParen];
    assert PopToParen([Pending(Mul), LParen]) == Pop([Pending(Mul), LParen], []);
  }

  lemma ThreeTimesSumClose()
    ensures StepToken(Arith, State([Pending(Mul), LParen, Pending(Add)], ExpectOperator), ")") ==
      Next(State([Pending(Mul)], ExpectOperator), [OperatorToken(Add)])
  {
    ThreeTimesSumInnerSteps();
    assert [Pending(Mul), LParen][..1] == [Pending(Mul)];
  }

  /** Tokens yielded in two batches. */
  lemma PrecededTwice(a: seq<Token>, b: seq<Token>, e: Emission)
    ensures Preceded(a, Preceded(b, e)) == Preceded(a + b, e)
  {
    assert a + (b + e.out) == (a + b) + e.out;
  }

  /** A run that yields nothing before it. */
  lemma PrecededNothing(e: Emission)
    ensures Preceded([], e) == e
  {
    assert [] + e.out == e.out;
  }

  /** The parser's state after `3 * (`. */
  lemma ThreeTimesOpen(rest: seq<string>)
    ensures Run(Arith, Start, ["3", "*", "("] + rest) ==
      Preceded([ValueToken("3")], Run(Arith, State([Pending(Mul), LParen], ExpectValue), rest))
  {
    var toks := ["3", "*", "("] + rest;
    var s1 := State([], ExpectOperator);
    var s2 := State([Pending(Mul)], ExpectValue);
    var s3 := State([Pending(Mul), LParen], ExpectValue);
    var out := [ValueToken("3")];
    assert toks[0] == "3" && toks[1] == "*" && toks[2] == "(";
    assert out + [] == out && [] + out == out;
    assert toks[0..] == toks && toks[3..] == rest;
    PrecededNothing(Run(Arith, Start, toks));
    assert Preceded([], Run(Arith, Start, toks[0..])) == Preceded(out, Run(Arith, s1, toks[1..])) by {
      ThreeTimesSumSteps();
      RunStep(Arith, Start, toks, 0, [], s1, out);
    }
    assert Preceded(out, Run(Arith, s1, toks[1..])) == Preceded(out, Run(Arith, s2, toks[2..])) by {
      ThreeTimesSumSteps();
      RunStep(Arith, s1, toks, 1, out, s2, []);
    }
    assert Preceded(out, Run(Arith, s2, toks[2..])) == Preceded(out, Run(Arith, s3, toks[3..])) by {
      ThreeTimesSumOpenSteps();
      RunStep(Arith, s2, toks, 2, out, s3, []);
    }
  }

  /** The parser's state after `2 + 1` inside that parenthesis. */
  lemma InnerSum(rest: seq<string>)
    ensures Run(Arith, State([Pending(Mul), LParen], ExpectValue), ["2", "+", "1"] + rest) ==
      Preceded([ValueToken("2"), ValueToken("1")],
               Run(Arith, State([Pending(Mul), LParen, Pending(Add)], ExpectOperator), rest))
  {
    var toks := ["2", "+", "1"] + rest;
    var s3 := State([Pending(Mul), LParen], ExpectValue);
    var s4 := State([Pending(Mul), LParen], ExpectOperator);
    var s5 := State([Pending(Mul), LParen, Pending(Add)], ExpectValue);
    var s6 := State([Pending(Mul), LParen, Pending(Add)], ExpectOperator);
    var two := [ValueToken("2")];
    var both := [ValueToken("2"), ValueToken("1")];
    assert toks[0] == "2" && toks[1] == "+" && toks[2] == "1";
    assert [] + two == two && two + [] == two && two + [ValueToken("1")] == both;
    assert toks[0..] == toks && toks[3..] == rest;
    PrecededNothing(Run(Arith, s3, toks));
    assert Preceded([], Run(Arith, s3, toks[0..])) == Preceded(two, Run(Arith, s4, toks[1..])) by {
      ThreeTimesSumOpenSteps();
      RunStep(Arith, s3, toks, 0, [], s4, two);
    }
    assert Preceded(two, Run(Arith, s4, toks[1..])) == Preceded(two, Run(Arith, s5, toks[2..])) by {
      ThreeTimesSumInnerSteps();
      RunStep(Arith, s4, toks, 1, two, s5, []);
    }
    assert Preceded(two, Run(Arith, s5, toks[2..])) == Preceded(both, Run(Arith, s6, toks[3..])) by {
      ThreeTimesSumInnerSteps();
      RunStep(Arith, s5, toks, 2, two, s6, [ValueToken("1")]);
    }
  }

  /** The parser's state after `3 * ( 2 + 1`. */
  lemma ThreeTimesSumPrefix(rest: seq<string>)
    ensures Run(Arith, Start, ["3", "*", "(", "2", "+", "1"] + rest) ==
      Preceded([ValueToken("3"), ValueToken("2"), ValueToken("1")],
               Run(Arith, State([Pending(Mul), LParen, Pending(Add)], ExpectOperator), rest))
  {
    ThreeTimesOpen(["2", "+", "1"] + rest);
    InnerSum(rest);
    PrecededTwice([ValueToken("3")], [ValueToken("2"), ValueToken("1")],
                  Run(Arith, State([Pending(Mul), LParen, Pending(Add)], ExpectOperator), rest));
    assert [ValueToken("3")] + [ValueToken("2"), ValueToken("1")] == [ValueToken("3"), ValueToken("2"), ValueToken("1")];
    assert ["3", "*", "(", "2", "+", "1"] + rest == ["3", "*", "("] + (["2", "+", "1"] + rest);
  }

  /** `3 * ( 2 + 1 )` yields exactly `3 2 1 + *`. */
  lemma ThreeTimesSumPostfix()
    ensures Parse(Arith, ["3", "*", "(", "2", "+", "1", ")"]) ==
      Emission([ValueToken("3"), ValueToken("2"), ValueToken("1"), OperatorToken(Add), OperatorToken(Mul)], None)
  {
    ThreeTimesSumPrefix([")"]);
    var s6 := State([Pending(Mul), LParen, Pending(Add)], ExpectOperator);
    var s7 := State([Pending(Mul)], ExpectOperator);
    assert Run(Arith, s6, [")"]) == Emission([OperatorToken(Add), OperatorToken(Mul)], None) by {
      ThreeTimesSumClose();
      RunCons(Arith, s6, ")", [], s7, [OperatorToken(Add)]);
      assert [Pending(Mul)][..0] == [];
      assert Run(Arith, s7, []) == Emission([OperatorToken(Mul)], None);
    }
    assert ["3", "*", "(", "2", "+", "1"] + [")"] == ["3", "*", "(", "2", "+", "1", ")"];
  }

  /** `3 * ( 2 + 1` throws "Unbalanced Open Parentheses" after yielding
      `3 2 1 +`. */
  lemma UnclosedParenthesis()
    ensures Parse(Arith, ["3", "*", "(", "2", "+", "1"]) ==
      Emission([ValueToken("3"), ValueToken("2"), ValueToken("1"), OperatorToken(Add)], Some(UnbalancedOpenParentheses))
  {
    ThreeTimesSumPrefix([]);
    ThreeTimesSumInnerSteps();
    assert ["3", "*", "(", "2", "+", "1"] + [] == ["3", "*", "(", "2", "+", "1"];
  }

  /** `3 *` throws "Missing values" at the end of input. */
  lemma TrailingOperator()
    ensures Parse(Arith, ["3", "*"]) == Emission([ValueToken("3")], Some(MissingValuesAtEnd))
  {
    var s1 := State([], ExpectOperator);
    var s2 := State([Pending(Mul)], ExpectValue);
    RunCons(Arith, s1, "*", [], s2, []);
    RunCons(Arith, Start, "3", ["*"], s1, [ValueToken("3")]);
  }

  /** `3 2` throws "Expected operator, found 2" without an implicit
      operator. */
  lemma AdjacentOperandsRejected()
    ensures Parse(Arith, ["3", "2"]) == Emission([ValueToken("3")], Some(ExpectedOperatorFound("2")))
  {
    var s1 := State([], ExpectOperator);
    RunCons(Arith, Start, "3", ["2"], s1, [ValueToken("3")]);
    assert StepToken(Arith, s1, "2") == Halt([], ExpectedOperatorFound("2"));
    assert ["2"][0] == "2";
  }

  /** The parser's steps on `3 2` with `*` as the implicit operator. */
  lemma JuxtaposedSteps()
    ensures StepToken(Juxtaposed, Start, "3") == Next(State([], ExpectOperator), [ValueToken("3")])
    ensures StepToken(Juxtaposed, State([], ExpectOperator), "2") ==
      Next(State([Pending(Mul)], ExpectOperator), [ValueToken("2")])
  {
    var e: seq<StackItem> := [];
    assert PushInfix(e, Mul) == Pop([Pending(Mul)], []);
  }

  /** The parser's state after `3 2` with `*` as the implicit operator. */
  lemma AdjacentOperandsPrefix(rest: seq<string>)
    ensures Run(Juxtaposed, Start, ["3", "2"] + rest) ==
      Preceded([ValueToken("3"), ValueToken("2")], Run(Juxtaposed, State([Pending(Mul)], ExpectOperator), rest))
  {
    var toks := ["3", "2"] + rest;
    var s1 := State([], ExpectOperator);
    var s2 := State([Pending(Mul)], ExpectOperator);
    var three := [ValueToken("3")];
    var both := [ValueToken("3"), ValueToken("2")];
    assert toks[0] == "3" && toks[1] == "2";
    assert [] + three == three && three + [ValueToken("2")] == both;
    assert toks[0..] == toks && toks[2..] == rest;
    PrecededNothing(Run(Juxtaposed, Start, toks));
    assert Preceded([], Run(Juxtaposed, Start, toks[0..])) == Preceded(three, Run(Juxtaposed, s1, toks[1..])) by {
      JuxtaposedSteps();
      RunStep(Juxtaposed, Start, toks, 0, [], s1, three);
    }
    assert Preceded(three, Run(Juxtaposed, s1, toks[1..])) == Preceded(both, Run(Juxtaposed, s2, toks[2..])) by {
      JuxtaposedSteps();
      RunStep(Juxtaposed, s1, toks, 1, three, s2, [ValueToken("2")]);
    }
  }

  /** `3 2` yields `3 2 *` with `*` as the implicit operator. */
  lemma AdjacentOperandsMultiplied()
    ensures Parse(Juxtaposed, ["3", "2"]) ==
      Emission([ValueToken("3"), ValueToken("2"), OperatorToken(Mul)], None)
  {
    AdjacentOperandsPrefix([]);
    assert ["3", "2"] + [] == ["3", "2"];
    assert Run(Juxtaposed, State([Pending(Mul)], ExpectOperator), []) == Emission([OperatorToken(Mul)], None) by {
      assert [Pending(Mul)][..0] == [];
    }
  }

  /** The parser's steps on `b * - a`. */
  lemma UnaryMinusSteps()
    ensures StepToken(Arith, Start, "b") == Next(State([], ExpectOperator), [ValueToken("b")])
    ensures StepToken(Arith, State([], ExpectOperator), "*") == Next(State([Pending(Mul)], ExpectValue), [])
    ensures StepToken(Arith, State([Pending(Mul)], ExpectValue), "-") ==
      Next(State([Pending(Mul), Pending(Minus)], ExpectValue), [])
    ensures StepToken(Arith, State([Pending(Mul), Pending(Minus)], ExpectValue), "a") ==
      Next(State([Pending(Mul), Pending(Minus)], ExpectOperator), [ValueToken("a")])
  {
  }

  /** The end of `b * - a`: the stack drains `-`, then `*`. */
  lemma UnaryMinusDrain()
    ensures Run(Arith, State([Pending(Mul), Pending(Minus)], ExpectOperator), []) ==
      Emission([OperatorToken(Minus), OperatorToken(Mul)], None)
  {
    var stack := [Pending(Mul), Pending(Minus)];
    var e: seq<StackItem> := [];
    assert [Pending(Mul)][..0] == e;
    assert PopToParen(e) == Pop(e, []);
    assert PopToParen([Pending(Mul)]) == Pop(e, [OperatorToken(Mul)]);
    assert stack[..1] == [Pending(Mul)];
    assert PopToParen(stack) == Pop(e, [OperatorToken(Minus), OperatorToken(Mul)]);
  }

  /** `b * - a`: the `-` in value position is the unary function, so the
      postfix order is `b a - *` with the function `-`. */
  lemma UnaryMinus()
    ensures Parse(Arith, ["b", "*", "-", "a"]) ==
      Emission([ValueToken("b"), ValueToken("a"), OperatorToken(Minus), OperatorToken(Mul)], None)
  {
    UnaryMinusSteps();
    UnaryMinusDrain();
    var s1 := State([], ExpectOperator);
    var s2 := State([Pending(Mul)], ExpectValue);
    var s3 := State([Pending(Mul), Pending(Minus)], ExpectValue);
    var s4 := State([Pending(Mul), Pending(Minus)], ExpectOperator);
    RunCons(Arith, s3, "a", [], s4, [ValueToken("a")]);
    RunCons(Arith, s2, "-", ["a"], s3, []);
    RunCons(Arith, s1, "*", ["-", "a"], s2, []);
    RunCons(Arith, Start, "b", ["*", "-", "a"], s1, [ValueToken("b")]);
    assert ["a"] + [] == ["a"] && ["-"] + ["a"] == ["-", "a"] && ["*"] + ["-", "a"] == ["*", "-", "a"];
    assert ["b"] + ["*", "-", "a"] == ["b", "*", "-", "a"];
  }

  // ----- Partial evaluation with an unimplemented implicit operator -----

  const Times: InfixInfo := Infix("*", 8, Left, None)
  const Plus: InfixInfo := Infix("+", 8, Left, Some(Builtin(ADD)))

  /** `*` without an implementation as the implicit operator, and `+` the
      intrinsic addition. */
  const Unimplemented := Config(map["*" := Times, "+" := Plus], map[], Some(Times), true)

  /** The parser's steps on `3 ( 2`: the `(` brings in the implicit `*`. */
  lemma JuxtaposedOpenSteps()
    ensures StepToken(Unimplemented, Start, "3") == Next(State([], ExpectOperator), [ValueToken("3")])
    ensures StepToken(Unimplemented, State([], ExpectOperator), "(") ==
      Next(State([Pending(Times), LParen], ExpectValue), [])
    ensures StepToken(Unimplemented, State([Pending(Times), LParen], ExpectValue), "2") ==
      Next(State([Pending(Times), LParen], ExpectOperator), [ValueToken("2")])
  {
    var e: seq<StackItem> := [];
    assert PushInfix(e, Times) == Pop([Pending(Times)], []);
  }

  /** The parser's steps on `+ 1 )`. */
  lemma JuxtaposedCloseSteps()
    ensures StepToken(Unimplemented, State([Pending(Times), LParen], ExpectOperator), "+") ==
      Next(State([Pending(Times), LParen, Pending(Plus)], ExpectValue), [])
    ensures StepToken(Unimplemented, State([Pending(Times), LParen, Pending(Plus)], ExpectValue), "1") ==
      Next(State([Pending(Times), LParen, Pending(Plus)], ExpectOperator), [ValueToken("1")])
    ensures StepToken(Unimplemented, State([Pending(Times), LParen, Pending(Plus)], ExpectOperator), ")") ==
      Next(State([Pending(Times)], ExpectOperator), [OperatorToken(Plus)])
  {
    var s6 := [Pending(Times), LParen, Pending(Plus)];
    assert s6[..2] == [Pending(Times), LParen];
    assert PopToParen([Pending(Times), LParen]) == Pop([Pending(Times), LParen], []);
    assert PopToParen(s6) == Pop([Pending(Times), LParen], [OperatorToken(Plus)]);
    assert [Pending(Times), LParen][..1] == [Pending(Times)];
  }

  /** The parser's state after `3 (`: the implicit `*` is pending. */
  lemma JuxtaposedOpen(rest: seq<string>)
    ensures Run(Unimplemented, Start, ["3", "("] + rest) ==
      Preceded([ValueToken("3")], Run(Unimplemented, State([Pending(Times), LParen], ExpectValue), rest))
  {
    var toks := ["3", "("] + rest;
    var s1 := State([], ExpectOperator);
    var s3 := State([Pending(Times), LParen], ExpectValue);
    var o1 := [ValueToken("3")];
    assert toks[0] == "3" && toks[1] == "(";
    assert [] + o1 == o1 && o1 + [] == o1;
    assert toks[0..] == toks && toks[2..] == rest;
    PrecededNothing(Run(Unimplemented, Start, toks));
    assert Preceded([], Run(Unimplemented, Start, toks[0..])) == Preceded(o1, Run(Unimplemented, s1, toks[1..])) by {
      JuxtaposedOpenSteps();
      RunStep(Unimplemented, Start, toks, 0, [], s1, o1);
    }
    assert Preceded(o1, Run(Unimplemented, s1, toks[1..])) == Preceded(o1, Run(Unimplemented, s3, toks[2..])) by {
      JuxtaposedOpenSteps();
      RunStep(Unimplemented, s1, toks, 1, o1, s3, []);
    }
  }

  /** The parser's state after `2 + 1` inside that parenthesis. */
  lemma JuxtaposedInner(rest: seq<string>)
    ensures Run(Unimplemented, State([Pending(Times), LParen], ExpectValue), ["2", "+", "1"] + rest) ==
      Preceded([ValueToken("2"), ValueToken("1")],
               Run(Unimplemented, State([Pending(Times), LParen, Pending(Plus)], ExpectOperator), rest))
  {
    var toks := ["2", "+", "1"] + rest;
    var s3 := State([Pending(Times), LParen], ExpectValue);
    var s4 := State([Pending(Times), LParen], ExpectOperator);
    var s5 := State([Pending(Times), LParen, Pending(Plus)], ExpectValue);
    var s6 := State([Pending(Times), LParen, Pending(Plus)], ExpectOperator);
    var two := [ValueToken("2")];
    var both := [ValueToken("2"), ValueToken("1")];
    assert toks[0] == "2" && toks[1] == "+" && toks[2] == "1";
    assert [] + two == two && two + [] == two && two + [ValueToken("1")] == both;
    assert toks[0..] == toks && toks[3..] == rest;
    PrecededNothing(Run(Unimplemented, s3, toks));
    assert Preceded([], Run(Unimplemented, s3, toks[0..])) == Preceded(two, Run(Unimplemented, s4, toks[1..])) by {
      JuxtaposedOpenSteps();
      RunStep(Unimplemented, s3, toks, 0, [], s4, two);
    }
    assert Preceded(two, Run(Unimplemented, s4, toks[1..])) == Preceded(two, Run(Unimplemented, s5, toks[2..])) by {
      JuxtaposedCloseSteps();
      RunStep(Unimplemented, s4, toks, 1, two, s5, []);
    }
    assert Preceded(two, Run(Unimplemented, s5, toks[2..])) == Preceded(both, Run(Unimplemented, s6, toks[3..])) by {
      JuxtaposedCloseSteps();
      RunStep(Unimplemented, s5, toks, 2, two, s6, [ValueToken("1")]);
    }
  }

  /** The parser's state after `3 ( 2 + 1`. */
  lemma JuxtaposedSumPrefix(rest: seq<string>)
    ensures Run(Unimplemented, Start, ["3", "(", "2", "+", "1"] + rest) ==
      Preceded([ValueToken("3"), ValueToken("2"), ValueToken("1")],
               Run(Unimplemented, State([Pending(Times), LParen, Pending(Plus)], ExpectOperator), rest))
  {
    JuxtaposedOpen(["2", "+", "1"] + rest);
    JuxtaposedInner(rest);
    PrecededTwice([ValueToken("3")], [ValueToken("2"), ValueToken("1")],
                  Run(Unimplemented, State([Pending(Times), LParen, Pending(Plus)], ExpectOperator), rest));
    assert [ValueToken("3")] + [ValueToken("2"), ValueToken("1")] == [ValueToken("3"), ValueToken("2"), ValueToken("1")];
    assert ["3", "(", "2", "+", "1"] + rest == ["3", "("] + (["2", "+", "1"] + rest);
  }

  /** `3 ( 2 + 1 )` yields `3 2 1 + *`, the implicit `*` last. */
  lemma JuxtaposedSumPostfix()
    ensures Parse(Unimplemented, ["3", "(", "2", "+", "1", ")"]) ==
      Emission([ValueToken("3"), ValueToken("2"), ValueToken("1"), OperatorToken(Plus), OperatorToken(Times)], None)
  {
    JuxtaposedSumPrefix([")"]);
    var s6 := State([Pending(Times), LParen, Pending(Plus)], ExpectOperator);
    var s7 := State([Pending(Times)], ExpectOperator);
    assert Run(Unimplemented, s6, [")"]) == Emission([OperatorToken(Plus), OperatorToken(Times)], None) by {
      JuxtaposedCloseSteps();
      RunCons(Unimplemented, s6, ")", [], s7, [OperatorToken(Plus)]);
      assert [Pending(Times)][..0] == [];
      assert Run(Unimplemented, s7, []) == Emission([OperatorToken(Times)], None);
    }
    assert ["3", "(", "2", "+", "1"] + [")"] == ["3", "(", "2", "+", "1", ")"];
  }

  /** The tree of `3 ( 2 + 1 )`. */
  function JuxtaposedSum<V>(): AstNode<V> {
    Opr(Times, [Val("3"), Opr(Plus, [Val("2"), Val("1")])])
  }

  lemma JuxtaposedSumOrder<V>()
    ensures Parsed(JuxtaposedSum<V>())
    ensures Postfix(JuxtaposedSum<V>()) ==
      [ValueToken("3"), ValueToken("2"), ValueToken("1"), OperatorToken(Plus), OperatorToken(Times)]
  {
    var two: AstNode<V> := Val("2");
    var one: AstNode<V> := Val("1");
    var three: AstNode<V> := Val("3");
    var sum := Opr(Plus, [two, one]);
    assert Parsed(two) && Parsed(one) && Parsed(three);
    assert Parsed(sum);
    assert PostfixAll([two]) == [ValueToken("2")] by {
      assert [two][..0] == [];
    }
    assert PostfixAll([two, one]) == [ValueToken("2"), ValueToken("1")] by {
      assert [two, one][..1] == [two];
    }
    assert PostfixAll([three]) == [ValueToken("3")] by {
      assert [three][..0] == [];
    }
    assert PostfixAll([three, sum]) == [ValueToken("3"), ValueToken("2"), ValueToken("1"), OperatorToken(Plus)] by {
      assert [three, sum][..1] == [three];
    }
  }

  /** `parseToAST` of `3 ( 2 + 1 )` builds that tree. */
  lemma JuxtaposedSumTree<V>()
    ensures Build<V>(Parse(Unimplemented, ["3", "(", "2", "+", "1", ")"])) == Ok(JuxtaposedSum<V>())
  {
    JuxtaposedSumPostfix();
    JuxtaposedSumOrder<V>();
    PostfixRoundTrip(JuxtaposedSum<V>());
  }

  /** Simplifying that tree with every literal a number: the sum folds,
      and the unimplemented `*` stays over two results. */
  lemma JuxtaposedSumSimplified<V>(sem: Semantics<V>, num: string -> V)
    ensures Fits(JuxtaposedSum<V>())
    ensures Simplify(sem, (x: string) => Some(num(x)), JuxtaposedSum<V>()) ==
      Opr(Times, [Res(num("3")), Res(sem.intrinsic(ADD, [num("2"), num("1")]))])
  {
    var wrap := (x: string) => Some(num(x));
    var two: AstNode<V> := Val("2");
    var one: AstNode<V> := Val("1");
    var three: AstNode<V> := Val("3");
    var sum := Opr(Plus, [two, one]);
    var folded: AstNode<V> := Res(sem.intrinsic(ADD, [num("2"), num("1")]));
    assert Fits(sum);
    assert Simplify(sem, wrap, two) == Res(num("2"));
    assert Simplify(sem, wrap, one) == Res(num("1"));
    assert SimplifyAll(sem, wrap, [one]) == [Res(num("1"))] by {
      assert [one][1..] == [];
    }
    assert SimplifyAll(sem, wrap, [two, one]) == [Res(num("2")), Res(num("1"))] by {
      assert [two, one][1..] == [one];
    }
    assert Values([Res(num("2")), Res(num("1"))]) == [num("2"), num("1")];
    assert Simplify(sem, wrap, sum) == folded;
    assert SimplifyAll(sem, wrap, [three, sum]) == [Res(num("3")), folded] by {
      assert [three, sum][1..] == [sum];
      assert [sum][1..] == [];
    }
  }

  lemma UnimplementedFits()
    ensures RegistryFits(Unimplemented)
  {
  }

  /** `partial` of a formula whose tree is known. */
  lemma PartialOfTree<V>(cfg: Config, sem: Semantics<V>, wrap: string -> Option<V>, tokens: seq<string>, t: AstNode<V>)
    requires RegistryFits(cfg)
    requires Build<V>(Parse(cfg, tokens)) == Ok(t)
    ensures Fits(t)
    ensures PartialOf(cfg, sem, wrap, tokens) ==
      Ok(PartialResult(Partial(sem, wrap, t), FreeOps(Partial(sem, wrap, t)), FreeVars(Partial(sem, wrap, t))))
  {
    ParsedTreeFits<V>(cfg, tokens);
  }

  /** `*` over two results leaves `*` as the only free name. */
  lemma TimesOverResults<V>(a: V, b: V)
    ensures FreeOps(Opr(Times, [Res(a), Res(b)])) == {"*"}
    ensures FreeVars(Opr(Times, [Res(a), Res(b)])) == {}
  {
    var ra: AstNode<V> := Res(a);
    var rb: AstNode<V> := Res(b);
    assert FreeOps(ra) == {} && FreeVars(ra) == {} && FreeOps(rb) == {} && FreeVars(rb) == {};
    FreeAllSingle(rb);
    assert FreeOpsAll([ra, rb]) == {} && FreeVarsAll([ra, rb]) == {} by {
      assert [ra, rb][0] == ra && [ra, rb][1..] == [rb];
    }
  }

  /** `partial` of `3 ( 2 + 1 )` with every literal a number: that tree,
      one free operator, `*`, and no free literal. */
  lemma JuxtaposedSumPartial<V>(sem: Semantics<V>, num: string -> V)
    ensures RegistryFits(Unimplemented)
    ensures PartialOf(Unimplemented, sem, (x: string) => Some(num(x)), ["3", "(", "2", "+", "1", ")"]) ==
      Ok(PartialResult(Opr(Times, [Res(num("3")), Res(sem.intrinsic(ADD, [num("2"), num("1")]))]), {"*"}, {}))
  {
    var wrap := (x: string) => Some(num(x));
    var tokens := ["3", "(", "2", "+", "1", ")"];
    UnimplementedFits();
    JuxtaposedSumTree<V>();
    PartialOfTree(Unimplemented, sem, wrap, tokens, JuxtaposedSum<V>());
    JuxtaposedSumSimplified(sem, num);
    PartialIsSimplify(sem, wrap, JuxtaposedSum<V>());
    TimesOverResults(num("3"), sem.intrinsic(ADD, [num("2"), num("1")]));
  }

  /** Folding that tree during reduction, as `partial` of src/index.ts
      does: the sum folds and `*` stays over two results. */
  lemma JuxtaposedSumFolded<V>(sem: Semantics<V>, num: string -> V)
    ensures FoldOnly(sem, (x: string) => Some(num(x)), JuxtaposedSum<V>()) ==
      Opr(Times, [Res(num("3")), Res(sem.intrinsic(ADD, [num("2"), num("1")]))])
  {
    var wrap := (x: string) => Some(num(x));
    var two: AstNode<V> := Val("2");
    var one: AstNode<V> := Val("1");
    var three: AstNode<V> := Val("3");
    var sum := Opr(Plus, [two, one]);
    var folded: AstNode<V> := Res(sem.intrinsic(ADD, [num("2"), num("1")]));
    assert FoldOnly(sem, wrap, sum) == folded by {
      var args := seq(2, i requires 0 <= i < 2 => FoldOnly(sem, wrap, [two, one][i]));
      assert args == [Res(num("2")), Res(num("1"))];
      assert AllResults(args) && Values(args) == [num("2"), num("1")];
    }
    var args := seq(2, i requires 0 <= i < 2 => FoldOnly(sem, wrap, [three, sum][i]));
    assert args == [Res(num("3")), folded];
  }

  /** `partial` of `3 ( 2 + 1 )` as src/index.ts defines it, with every
      literal a number: the same tree, free operator `*` and no free
      literal as the partial evaluator of src/parser.ts. */
  lemma JuxtaposedSumLegacyPartial<V>(sem: Semantics<V>, num: string -> V)
    ensures LegacyPartialOf(Unimplemented, sem, (x: string) => Some(num(x)), ["3", "(", "2", "+", "1", ")"]) ==
      Ok(PartialResult(Opr(Times, [Res(num("3")), Res(sem.intrinsic(ADD, [num("2"), num("1")]))]), {"*"}, {}))
  {
    var wrap := (x: string) => Some(num(x));
    var em := Parse(Unimplemented, ["3", "(", "2", "+", "1", ")"]);
    JuxtaposedSumTree<V>();
    ConsumersFoldTheTree<V, AstNode<V>>(em, LegacyNode(sem), LegacyLeaf(wrap));
    LegacyFoldIsFoldOnly(sem, wrap, JuxtaposedSum<V>());
    JuxtaposedSumFolded(sem, num);
    TimesOverResults(num("3"), sem.intrinsic(ADD, [num("2"), num("1")]));
  }
}
