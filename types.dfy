/** Data model of Railyard: operator descriptors, tokens, expression trees,
    the errors the pipeline throws, and the host-side semantics the model
    leaves uninterpreted. */
module Types {

  datatype Option<+T> = None | Some(value: T)

  /** The closed set of intrinsic operator tags. */
  datatype Intrinsic =
    | ADD | SUB | MUL | DIV | REM
    | XOR | XNR | AND | NND | ORR | NOR
    | NEG | INV | NOT

  datatype Associativity = Left | Right

  /** What an operator's optional `fn` holds: an intrinsic tag, or a host
      closure, represented by an opaque handle. */
  datatype Impl = Builtin(tag: Intrinsic) | Host(handle: nat)

  /** An operator descriptor: an infix operator or a function. */
  datatype OpInfo =
    | Infix(name: string, precedence: int, associativity: Associativity, fn: Option<Impl>)
    | Function(name: string, arity: nat, fn: Option<Impl>)

  type InfixInfo = op: OpInfo | op.Infix? witness Infix("", 0, Left, None)
  type FnInfo = op: OpInfo | op.Function? witness Function("", 1, None)

  /** How many operands an operator consumes: two for an infix operator,
      the declared arity for a function. */
  function Arity(op: OpInfo): nat {
    if op.Infix? then 2 else op.arity
  }

  /** A postfix token: a literal/identifier, or an operator. */
  datatype Token = ValueToken(value: string) | OperatorToken(op: OpInfo)

  /** Expression trees. `Res`, `Val` and `Opr` are the source's constructors
      `res`, `val` and `opr`: a resolved value, an unresolved name, and an
      operator applied to its arguments in order. */
  datatype AstNode<V> =
    | Res(value: V)
    | Val(name: string)
    | Opr(op: OpInfo, args: seq<AstNode<V>>)

  /** Every error the pipeline throws. */
  datatype Error =
    // thrown by the parser
    | ExpectedOperatorFoundLeftParen
    | ExpectedValueFoundComma
    | CommaOutsideParentheses
    | MismatchedParentheses
    | ExpectedValueFoundOperator(name: string)
    | ExpectedOperatorFound(token: string)
    | ExpectedArgumentList(token: string)
    | MissingValuesAtEnd
    | UnbalancedOpenParentheses
    // thrown by the postfix reducer
    | MissingValues
    | EmptyFormula
    | MissingOperators
    // thrown while evaluating directly
    | NoImplementation(name: string)
    | LookupThrew(token: string)

  /** The text of each error. A throwing lookup propagates whatever the host
      threw; the model only keeps the token it was asked about. */
  function Message(e: Error): string {
    match e
    case ExpectedOperatorFoundLeftParen => "Expected operator, found left paren."
    case ExpectedValueFoundComma => "Expected value, found comma."
    case CommaOutsideParentheses => "Found comma outside of parentheses"
    case MismatchedParentheses => "Mismatched Parentheses"
    case ExpectedValueFoundOperator(name) => "Expected value, found operator " + name
    case ExpectedOperatorFound(token) => "Expected operator, found " + token
    case ExpectedArgumentList(token) => "Expected argument list, found " + token
    case MissingValuesAtEnd => "Missing values"
    case UnbalancedOpenParentheses => "Unbalanced Open Parentheses"
    case MissingValues => "Missing Values"
    case EmptyFormula => "Empty Formula"
    case MissingOperators => "Missing Operators"
    case NoImplementation(name) => "No implementation for operator " + name
    case LookupThrew(token) => token
  }

  datatype Result<+T> = Ok(value: T) | Err(error: Error)

  /** What a parse yields to its consumer: the postfix tokens produced, in
      order, and the error thrown after them, if any. A consumer pulling
      tokens one at a time sees every token of `out` before `err`. */
  datatype Emission = Emission(out: seq<Token>, err: Option<Error>)

  /** The host side that the model does not interpret: the numeric meaning
      of every intrinsic tag, the host closures, and the constants 0, 1 and
      ~0 that the identity rules compare against. */
  datatype Semantics<!V> = Semantics(
    intrinsic: (Intrinsic, seq<V>) -> V,
    host: (nat, seq<V>) -> V,
    zero: V,
    one: V,
    allOnes: V)

  /** Running an implementation on argument values. */
  function Apply<V>(sem: Semantics<V>, impl: Impl, vs: seq<V>): V {
    match impl
    case Builtin(tag) => sem.intrinsic(tag, vs)
    case Host(h) => sem.host(h, vs)
  }
}
