/** The token vocabulary of `src/parser/mod.rs`: operators, integer values,
    parentheses and the marker for text that is none of these, together with
    the `FromStr` parsers that classify one raw token. */
module Tokens {
  import opened Outcomes
  import opened Integers

  datatype Operator = Plus | Minus

  /** The language's only datatype, a wrapped `i64`. */
  datatype Value = Int(n: i64)

  /** The `def` keyword the evaluator matches on. The parser never produces
      it; it exists so that the evaluator's match is complete. */
  datatype Keyword = Defun

  datatype Token =
    | Operator(op: Operator)
    | Value(value: Value)
    | OpenParenthesis
    | CloseParenthesis
    | TokenizationError(raw: string)
    | Keyword(keyword: Keyword)

  /** A token with the row (1-based) and column it was read from. */
  datatype TokenData = TokenData(token: Token, row: nat, position: nat)

  /** The unit error every `FromStr` implementation here returns. */
  datatype ParseErr = ParseErr

  /** `Value + Value`: integer addition; Rust panics on `i64` overflow in a
      debug build, so the model demands the sum fits. */
  function Add(a: Value, b: Value): (r: Value)
    requires InI64(a.n + b.n)
    ensures r.n - b.n == a.n
  {
    Int(a.n + b.n)
  }

  /** `Value - Value`: integer subtraction under the same no-overflow demand. */
  function Sub(a: Value, b: Value): (r: Value)
    requires InI64(a.n - b.n)
    ensures r.n + b.n == a.n
  {
    Int(a.n - b.n)
  }

  /** `Operator::from_str`. */
  function ParseOperator(s: string): (r: Result<Operator, ParseErr>)
    ensures r == Ok(Plus) <==> s == "+"
    ensures r == Ok(Minus) <==> s == "-"
    ensures r.Err? <==> s != "+" && s != "-"
  {
    match s
    case "+" => Ok(Plus)
    case "-" => Ok(Minus)
    case _ => Err(ParseErr)
  }

  /** `Value::from_str`, through `i64::from_str`. */
  function ParseValue(s: string): (r: Result<Value, ParseErr>)
    ensures r.Ok? <==> ParseI64(s).Some?
    ensures r.Ok? ==> r.value.n == ParseI64(s).value
  {
    match ParseI64(s)
    case Some(x) => Ok(Int(x))
    case None => Err(ParseErr)
  }

  /** The parenthesis arm of `Token::from_str`. */
  function ParseParenthesis(s: string): (r: Result<Token, ParseErr>)
    ensures r == Ok(OpenParenthesis) <==> s == "("
    ensures r == Ok(CloseParenthesis) <==> s == ")"
    ensures r.Err? <==> s != "(" && s != ")"
  {
    match s
    case "(" => Ok(OpenParenthesis)
    case ")" => Ok(CloseParenthesis)
    case _ => Err(ParseErr)
  }

  /** `Token::from_str`: the operator parse, or else the value parse, or else
      the parenthesis parse (Rust's `Result::or` keeps the first success). */
  function ParseToken(s: string): (r: Result<Token, ParseErr>)
    ensures r.Ok? <==> ParseOperator(s).Ok? || ParseValue(s).Ok? || ParseParenthesis(s).Ok?
    ensures ParseOperator(s).Ok? ==> r == Ok(Operator(ParseOperator(s).value))
    ensures ParseOperator(s).Err? && ParseValue(s).Ok? ==> r == Ok(Value(ParseValue(s).value))
    ensures ParseOperator(s).Err? && ParseValue(s).Err? ==> r == ParseParenthesis(s)
  {
    match ParseOperator(s)
    case Ok(op) => Ok(Operator(op))
    case Err(_) =>
      match ParseValue(s)
      case Ok(v) => Ok(Value(v))
      case Err(_) => ParseParenthesis(s)
  }

  /** `Token::new`: never fails; text no parser accepts becomes a
      `TokenizationError` carrying that very text. */
  function NewToken(raw: string): (t: Token)
    ensures t.TokenizationError? <==> ParseToken(raw).Err?
    ensures t.TokenizationError? ==> t.raw == raw
    ensures !t.Keyword?
  {
    match ParseToken(raw)
    case Ok(t) => t
    case Err(_) => TokenizationError(raw)
  }

  /** At most one of the three parsers accepts any text, so the order in
      which `Token::from_str` tries them decides nothing. */
  lemma ParsersExclusive(s: string)
    ensures !(ParseOperator(s).Ok? && ParseValue(s).Ok?)
    ensures !(ParseOperator(s).Ok? && ParseParenthesis(s).Ok?)
    ensures !(ParseValue(s).Ok? && ParseParenthesis(s).Ok?)
  {
    if ParseValue(s).Ok? {
      assert WellFormedDecimal(s);
    }
  }

  /** What `Token::new` makes of each kind of text: exactly `+` and `-` are
      operators, exactly `(` and `)` are parentheses, a well-formed `i64`
      literal is a value, and everything else is a tokenization error. */
  lemma NewTokenClassifies(s: string)
    ensures NewToken(s) == Operator(Plus) <==> s == "+"
    ensures NewToken(s) == Operator(Minus) <==> s == "-"
    ensures NewToken(s) == OpenParenthesis <==> s == "("
    ensures NewToken(s) == CloseParenthesis <==> s == ")"
    ensures NewToken(s).Value? <==> ParseI64(s).Some?
    ensures NewToken(s).Value? ==> NewToken(s).value.n == ParseI64(s).value
    ensures NewToken(s) == TokenizationError(s) <==>
              s != "+" && s != "-" && s != "(" && s != ")" && ParseI64(s).None?
  {
    ParsersExclusive(s);
  }

  /** A lone `-` is the operator while `-5` is a negative value. */
  lemma MinusSignOrOperator()
    ensures NewToken("-") == Operator(Minus)
    ensures NewToken("-5") == Value(Int(-5))
    ensures NewToken("+7") == Value(Int(7))
    ensures NewToken("x") == TokenizationError("x")
  {
    assert DigitsValue("5") == 5;
    assert "-5"[1..] == "5";
    assert "+7"[1..] == "7";
    assert DigitsValue("7") == 7;
  }
}
