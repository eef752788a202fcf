/** The intrinsic operator tables: the identity-rewrite table used by partial
    evaluation and the text emitters used by compilation. The numeric table
    itself is `Semantics.intrinsic`, left uninterpreted. */
module Intrinsics {
  import opened Types

  /** The number of operands each intrinsic's implementation takes. */
  function TagArity(tag: Intrinsic): nat {
    if tag == NEG || tag == INV || tag == NOT then 1 else 2
  }

  /** `is(n, v)`: `n` is a resolved node whose value is `v`. */
  predicate Is<V(==)>(n: AstNode<V>, v: V) {
    n.Res? && n.value == v
  }

  /** The descriptor of the negation node that `0 - x` rewrites to. */
  const NegInfo: OpInfo := Function("neg", 1, Some(Builtin(NEG)))

  /** The identity-rewrite table (`pFns`): given an operator node with
      intrinsic tag `tag` and its already simplified arguments, return an
      equivalent, simpler node when an operand is one of the constants 0, 1
      or ~0, and the node itself otherwise. Operands beyond the tag's arity
      are ignored, as the source's rules name only `a` and `b`. */
  function Rewrite<V(==)>(sem: Semantics<V>, tag: Intrinsic, node: AstNode<V>, args: seq<AstNode<V>>): (r: AstNode<V>)
    requires |args| >= TagArity(tag)
    // the result is the node, one of its operands, a constant, or `neg b`
    ensures r == node || r == args[0] || (TagArity(tag) == 2 && r == args[1]) || r.Res?
            || (tag == SUB && r == Opr(NegInfo, [args[1]]))
    // unary tags, remainder and xnor have no rule
    ensures tag in {REM, XNR, NEG, INV, NOT} ==> r == node
    // a division is rewritten only for a zero dividend or a unit divisor: x / 0 stays
    ensures tag == DIV && !Is(args[0], sem.zero) && !Is(args[1], sem.one) ==> r == node
    // nothing is rewritten unless an operand is one of the three constants
    ensures r != node ==>
      exists i :: 0 <= i < TagArity(tag) && (Is(args[i], sem.zero) || Is(args[i], sem.one) || Is(args[i], sem.allOnes))
  {
    var a := args[0];
    match tag
    case ADD | XOR | ORR =>
      if Is(a, sem.zero) then args[1] else if Is(args[1], sem.zero) then a else node
    case SUB =>
      var b := args[1];
      if Is(b, sem.zero) then a
      else if Is(a, sem.zero) then
        (if b.Res? then Res(sem.intrinsic(NEG, [b.value])) else Opr(NegInfo, [b]))
      else node
    case MUL =>
      var b := args[1];
      if Is(a, sem.zero) then a
      else if Is(b, sem.zero) then b
      else if Is(a, sem.one) then b
      else if Is(b, sem.one) then a
      else node
    case DIV =>
      if Is(a, sem.zero) then Res(sem.zero) else if Is(args[1], sem.one) then a else node
    case AND =>
      if Is(a, sem.zero) then a else if Is(args[1], sem.zero) then args[1] else node
    case NND =>
      if Is(a, sem.zero) || Is(args[1], sem.zero) then Res(sem.allOnes) else node
    case NOR =>
      if Is(a, sem.allOnes) || Is(args[1], sem.allOnes) then Res(sem.zero) else node
    case REM | XNR | NEG | INV | NOT =>
      node
  }

  /** The algebraic laws the rewrite table presumes of the intrinsics'
      implementations. (IEEE doubles break several of them: `Infinity * 0`
      and `0 / 0` are NaN, not 0.) */
  ghost predicate Lawful<V(!new)>(sem: Semantics<V>) {
    (forall x :: sem.intrinsic(ADD, [sem.zero, x]) == x && sem.intrinsic(ADD, [x, sem.zero]) == x) &&
    (forall x :: sem.intrinsic(XOR, [sem.zero, x]) == x && sem.intrinsic(XOR, [x, sem.zero]) == x) &&
    (forall x :: sem.intrinsic(ORR, [sem.zero, x]) == x && sem.intrinsic(ORR, [x, sem.zero]) == x) &&
    (forall x :: sem.intrinsic(SUB, [x, sem.zero]) == x) &&
    (forall x :: sem.intrinsic(SUB, [sem.zero, x]) == sem.intrinsic(NEG, [x])) &&
    (forall x :: sem.intrinsic(MUL, [sem.zero, x]) == sem.zero && sem.intrinsic(MUL, [x, sem.zero]) == sem.zero) &&
    (forall x :: sem.intrinsic(MUL, [sem.one, x]) == x && sem.intrinsic(MUL, [x, sem.one]) == x) &&
    (forall x :: sem.intrinsic(DIV, [sem.zero, x]) == sem.zero && sem.intrinsic(DIV, [x, sem.one]) == x) &&
    (forall x :: sem.intrinsic(AND, [sem.zero, x]) == sem.zero && sem.intrinsic(AND, [x, sem.zero]) == sem.zero) &&
    (forall x :: sem.intrinsic(NND, [sem.zero, x]) == sem.allOnes && sem.intrinsic(NND, [x, sem.zero]) == sem.allOnes) &&
    (forall x :: sem.intrinsic(NOR, [sem.allOnes, x]) == sem.zero && sem.intrinsic(NOR, [x, sem.allOnes]) == sem.zero)
  }

  /** The fixed text each emitter (`cFns`) puts before, between and after
      its operands, inside the outer parentheses. */
  function Template(tag: Intrinsic): (string, string, string) {
    match tag
    case ADD => ("", "+", "")
    case SUB => ("", "-", "")
    case MUL => ("", "*", "")
    case DIV => ("", "/", "")
    case REM => ("", "%", "")
    case XOR => ("", "^", "")
    case XNR => ("~(", "^", ")")
    case AND => ("", "&", "")
    case NND => ("~(", "&", ")")
    case ORR => ("", "|", "")
    case NOR => ("~(", "|", ")")
    case NEG => ("-", "", "")
    case INV => ("~", "", "")
    case NOT => ("!", "", "")
  }

  /** The text emitters of the compiler: each wraps its operands' texts, in
      order, in one outer pair of parentheses. */
  function Emit(tag: Intrinsic, args: seq<string>): (r: string)
    requires |args| >= TagArity(tag)
    ensures var (pre, mid, post) := Template(tag);
      |r| == 2 + |pre| + |args[0]| + if TagArity(tag) == 1 then 0 else |mid| + |args[1]| + |post|
    ensures r[0] == '(' && r[|r| - 1] == ')'
    ensures var pre := Template(tag).0;
      r[1 + |pre|..1 + |pre| + |args[0]|] == args[0]
    ensures TagArity(tag) == 2 ==>
      var (pre, mid, _) := Template(tag);
      var j := 1 + |pre| + |args[0]| + |mid|;
      r[j..j + |args[1]|] == args[1]
  {
    var (pre, mid, post) := Template(tag);
    var lead := "(" + pre;
    if TagArity(tag) == 1 then
      assert (lead + args[0] + ")")[|lead|..|lead| + |args[0]|] == args[0];
      lead + args[0] + ")"
    else
      var middle := lead + args[0] + mid;
      assert (middle + args[1] + post + ")")[|lead|..|lead| + |args[0]|] == args[0];
      assert (middle + args[1] + post + ")")[|middle|..|middle| + |args[1]|] == args[1];
      middle + args[1] + post + ")"
  }
}
