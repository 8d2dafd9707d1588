# liulang front end and evaluator in Dafny

This project models the three pure stages of the liulang interpreter.
liulang is a prefix-operator arithmetic language written in parentheses, such as `(+ 1 (- 10 3 2))`.

- **Tokenizer** (`src/parser/mod.rs`). `LineToParse` cuts a line into raw tokens at whitespace and parentheses. `Token::new` classifies each raw token as an operator (`+`, `-`), an `i64` value, a parenthesis, or a `TokenizationError` that carries the text. `tokenize` stamps each token with a 1-based row and a column.
- **Expression builder** (`src/analyzer/mod.rs`, `expressionize`). One left-to-right pass with a parenthesis `depth` and a current node:
  - operators descend;
  - values attach as leaves;
  - a `)` that leaves the depth positive records a parentless current node and moves to its parent.
- **Evaluator** (`src/interpreter/mod.rs`, `flatten`). `+` folds its children from 0. `-` starts from its first child and subtracts the rest, in order. A value is itself.

Modules:

- `Outcomes` holds `Option` and `Result`.
- `Integers` models `i64` and its decimal text.
- `Tokens` holds the token datatypes and the `FromStr` parsers.
- `Lexer` covers `token_should_end`, `LineToParse::next` and `tokenize`.
- `Analyzer` covers `Node`, `get_parent` and `expressionize`.
- `Interpreter` covers `flatten`.
- `Scenarios` works through small token runs from start to end.

Modelling choices:

- **The tree.** The program links `Rc<Node>` values through parent pointers and shared `RefCell` child lists. The model keeps the nodes in an arena, a sequence in creation order, and links them by index. A child is always created after its parent.
- **Evaluating a tree.** `Analyzer.Subtree` reads the tree under a node as a plain `Expr` value, and `Interpreter.Flatten` evaluates that value.
- **Panics.** Each panic of the program is an error result here:
  - `todo!()`;
  - `children[0]` on an empty `-`;
  - `i64` overflow, which panics in a debug build.
- **Builder errors.** A `BuildError` carries the index of the token at which the loop stopped.
- **Columns.** `position` is the column of the token's last character: `line.len() - remaining - 1`, where `remaining` is the length of the line left after the token. Columns are counted in characters.

What the code does, and the model with it:

- **No scopes.** The code has no scope tree, no identifiers and no `def` binding.
- **Unbalanced input.** A run that ends with `depth != 0` yields no roots, not an error (src/analyzer/mod.rs:92-96).
- **`Keyword`.** The builder's `_ => todo!()` (src/analyzer/mod.rs:88) panics on `Keyword`, and `flatten` returns `Int(0)` for it (src/interpreter/mod.rs:23-25).

## Model

| member | source | states |
|---|---|---|
| Tokens.ParseOperator | src/parser/mod.rs:73-79 | `Operator::from_str` gives `Plus` exactly for `"+"` and `Minus` exactly for `"-"`. Every other string is an error. |
| Tokens.ParseParenthesis | src/parser/mod.rs:54-58 | The parenthesis arm gives `OpenParenthesis` exactly for `"("` and `CloseParenthesis` exactly for `")"`. Every other string is an error. |
| Tokens.ParseValue | src/parser/mod.rs:115-124 | `Value::from_str` succeeds exactly when `i64::from_str` does, and it wraps that number. |
| Integers.ParseDecimal | src/parser/mod.rs:119 | A text has a decimal value exactly when it is an optional sign followed by at least one digit. A `-` text is never positive, and any other text is never negative. |
| Integers.ParseI64 | src/parser/mod.rs:119 | `i64::from_str` accepts exactly a well-formed decimal whose value fits in `i64`, and it returns that value. |
| Integers.ShowParse | src/parser/mod.rs:119-120 | Reading a text and printing the value back gives the text with a `+` sign and leading zeros dropped, and `-0` written `0`. With `ParseShow`, this fixes the value of every accepted text. |
| Integers.ParseExamples | src/parser/mod.rs:119-121 | `"007"` and `"+7"` read as 7 and `"-0"` as 0. The empty text, a lone `-` and `"1-"` are refused. |
| Integers.ParseShow | src/parser/mod.rs:119-120 | Every `i64` printed in decimal parses back to itself, so every `i64` value can be written as a token. |
| Tokens.ParsersExclusive | src/parser/mod.rs:51-61 | The operator, value and parenthesis parsers never both accept one string. So the order `Token::from_str` tries them in decides only between success and failure. |
| Tokens.ParseToken | src/parser/mod.rs:51-61 | `Token::from_str` succeeds exactly when one of the three parsers accepts. The result is the first success in the order operator, value, parenthesis, as `Result::or` keeps it. |
| Tokens.NewToken | src/parser/mod.rs:38-42 | `Token::new` never fails. It yields a `TokenizationError` exactly when `Token::from_str` fails, and that error carries the raw text unchanged. |
| Tokens.NewTokenClassifies | src/parser/mod.rs:38-61 | `Token::new` classifies text completely. Exactly `+` and `-` are operators and exactly `(` and `)` are parentheses. A well-formed `i64` literal is that value. Anything else becomes `TokenizationError(s)`. |
| Tokens.MinusSignOrOperator | src/parser/mod.rs:51-61 | The operator parse is tried first: `"-"` is `Operator(Minus)`. `"-5"` and `"+7"` are values, and `"x"` is a tokenization error. |
| Tokens.Add | src/parser/mod.rs:87-99 | `Value + Value` is integer addition: the result less the right operand is the left operand. |
| Tokens.Sub | src/parser/mod.rs:101-113 | `Value - Value` is integer subtraction: the result plus the right operand is the left operand. |
| Lexer.TokenShouldEnd | src/parser/mod.rs:136-138 | A parenthesis on either side always ends a token. Otherwise the left character does not matter: the token ends exactly when the right character is whitespace or a parenthesis. |
| Lexer.FindEnd | src/parser/mod.rs:136-149 | The cut is the first index after the first character where `token_should_end` holds, or the line's length if there is none. No earlier index ends the token. |
| Lexer.ParenthesesStandAlone | src/parser/mod.rs:136-138 | Because `token_should_end` fires on both sides of a parenthesis, a token that holds `(` or `)` anywhere is exactly one character long. |
| Lexer.Next | src/parser/mod.rs:143-159 | Each call strictly shortens the line it keeps, which is why the iterator terminates. It returns nothing exactly when the line is empty or all whitespace. |
| Lexer.Items | src/parser/mod.rs:143-159 | The items the iterator yields, each with the length of the line left after it. That length is always less than the line's length, and there are no items exactly when the line is empty or all whitespace. |
| Lexer.NextShape | src/parser/mod.rs:143-159 | A token `next` yields is non-empty, trimmed and free of whitespace, and it is maximal under `token_should_end`. Only whitespace comes before it, and the rest of the line starts where `token_should_end` fired. |
| Lexer.ItemsInOrder | src/parser/mod.rs:143-159 | The iterator yields tokens left to right: each one leaves strictly less of the line than the one before. |
| Lexer.ItemsCoverLine | src/parser/mod.rs:143-159 | Nothing but whitespace is lost: the tokens the iterator yields, joined together, are the line with its whitespace removed. |
| Lexer.ItemsLocated | src/parser/mod.rs:147-157 | Every yielded token is maximal and whitespace-free, and it sits in the line just before the `remaining` characters the iterator reports. |
| Lexer.Tokenize | src/parser/mod.rs:3-9 | `tokenize` makes one record per iterator item. Each record holds `Token::new` of the item, row `row + 1`, and a column inside the line. Columns strictly increase, and the subtraction behind them never underflows. |
| Lexer.TokenizeLocates | src/parser/mod.rs:3-25 | Each record fits its text: the text ends at the record's column. The token is a parenthesis exactly when the text holds one. A tokenization error carries its text, which holds no whitespace and no parenthesis. |
| Analyzer.GetParent | src/analyzer/mod.rs:19-23 | `get_parent` agrees with the child lists. A node's parent was made earlier and lists the node as a child, and a parentless node is nobody's child. |
| Analyzer.RootOf | src/analyzer/mod.rs:76-81 | Following `get_parent` upward always ends, at a parentless node no later than the start. |
| Analyzer.Attach | src/analyzer/mod.rs:51-59 | A new node carries the token, has the current node as its parent and has no children. It is pushed onto the end of the parent's child list. No other node changes, and no other child list changes. |
| Analyzer.AttachOk | src/analyzer/mod.rs:50-72 | Attaching an operator or a value, at the top or below an operator node, keeps the arena well formed. No node's token, parent or root changes, and the new node's root is its parent's root. |
| Analyzer.Step | src/analyzer/mod.rs:49-89 | The loop body fails exactly on an unsupported token, or on a `)` at depth 0. It then reports `TooManyClosing` or `UnexpectedToken` at that token. Otherwise it keeps the loop invariant, moves the depth by the token's change, appends the new node's token, and only adds to the recorded roots. |
| Analyzer.StepRules | src/analyzer/mod.rs:50-87 | Per token: an operator or a value becomes a new last child of the current node, and only an operator becomes current. `(` only deepens. A `)` that leaves the depth positive records a parentless current node and moves to its parent; one that leaves it at zero changes nothing else. Old nodes keep their token and parent. |
| Analyzer.Consume | src/analyzer/mod.rs:43-90 | After any prefix of the tokens, the state keeps the invariant. Its depth is the count of `(` minus the count of `)`. Its nodes hold exactly the operator and value tokens, in order. |
| Analyzer.ConsumeOutcome | src/analyzer/mod.rs:48-89 | The loop finishes exactly when every token is supported and no prefix closes more parentheses than it opens. Otherwise it stops at the first offending token, and everything before that token is clean. |
| Analyzer.Expressionize | src/analyzer/mod.rs:43-97 | The result is well formed. Every recorded root is a parentless operator node, and the roots are in creation order. The name map is empty. An unbalanced run yields no roots. The nodes are the input's operator and value tokens, in order. |
| Analyzer.ExpressionizeSucceeds | src/analyzer/mod.rs:43-97 | `expressionize` returns exactly on clean token runs. On a balanced one it returns the roots the loop recorded. |
| Analyzer.Roots | src/analyzer/mod.rs:43-97 | The recorded roots' trees hold only operators and values, with values as leaves, and each tree is headed by an operator. |
| Scenarios.SingleGroupNotRecorded | src/analyzer/mod.rs:74-87 | `( + 1 2 )` yields no roots: the last `)` brings the depth to 0, so nothing is recorded. |
| Scenarios.DoubleGroupRecorded | src/analyzer/mod.rs:74-96 | `( ( + 1 2 ) )` records the `+` node as its one root. |
| Scenarios.DoubleGroupEvaluates | src/analyzer/mod.rs:50-72 | That root's tree is `+` with children 1 and 2 in token order, and it evaluates to 3. |
| Scenarios.BuilderStops | src/analyzer/mod.rs:84-88 | `( ) )` stops with too many closing parentheses at token 2. `( x` stops at the unsupported token 1. |
| Scenarios.Replay | src/analyzer/mod.rs:48-90 | A sequence of states in which each step takes one state to the next is exactly what the loop computes. |
| Interpreter.Flatten | src/interpreter/mod.rs:8-28 | A value evaluates to itself, and `def` evaluates to 0. A `-` with no children fails for its missing operand. Any other non-operator fails as unsupported. An operator succeeds only when every child does. |
| Interpreter.AddAll | src/interpreter/mod.rs:12-14 | The `+` fold over no children returns its start value. It succeeds only when every child evaluates. |
| Interpreter.SubtractAll | src/interpreter/mod.rs:15-20 | The `-` fold over no further children returns the first child's value. It succeeds only when every child evaluates. |
| Interpreter.AddAllSound | src/interpreter/mod.rs:12-14 | When the `+` fold finishes, every child evaluates, and the result is the start value plus the sum of the children's meanings. |
| Interpreter.SubtractAllSound | src/interpreter/mod.rs:15-20 | When the `-` fold finishes, every child evaluates, and the result is the start value minus the sum of the children's meanings. |
| Interpreter.AddAllComplete | src/interpreter/mod.rs:12-14 | A `+` fold over evaluable children, whose leaf magnitudes plus the start value's magnitude are at most `i64::MAX`, finishes with the start value plus the sum of their meanings. |
| Interpreter.SubtractAllComplete | src/interpreter/mod.rs:15-20 | A `-` fold over evaluable children, whose leaf magnitudes plus the start value's magnitude are at most `i64::MAX`, finishes with the start value minus the sum of their meanings. |
| Interpreter.FlattenSound | src/interpreter/mod.rs:8-28 | Any value `flatten` returns is the tree's meaning. For `+`, that is the sum of the children. For `-`, it is the first child less the sum of the rest. A value means itself, and `def` means 0. |
| Interpreter.FlattenComplete | src/interpreter/mod.rs:8-28 | An evaluable tree (no parenthesis or error nodes, no empty `-`) evaluates to its meaning when its leaves' magnitudes sum to at most `i64::MAX`. |
| Interpreter.FlattenFailures | src/interpreter/mod.rs:8-28 | On an evaluable tree the only possible failure is an overflow. On a tree `expressionize` built, the `todo!()` arm is never reached. |
| Interpreter.FlattenExamples | src/interpreter/mod.rs:11-26 | `+` of nothing is 0, and `+ 1 2 3` is 6. `- 10 3 2` is 5, and `- 7` is 7. `-` of nothing fails. `def` is 0 and a value is itself. A parenthesis node fails, and `+ i64::MAX 1` overflows. |

The per-token rules that `Analyzer.StepRules` states:

- An operator becomes a new node whose parent is the current node. It is pushed as that node's last child and becomes the current node.
- A value becomes a childless node pushed the same way. The current node stays.
- `(` only deepens.
- A `)` that leaves the depth positive records a parentless current node and moves to its parent.
- A `)` that leaves the depth at zero changes nothing else.
- Existing nodes keep their token and their parent.

## Left out

- **`src/utils/mod.rs`, `src/main.rs`, `src/repl/mod.rs`.** File and stdin reading, printing, argument handling and the REPL are I/O around the three stages. They are not part of this model.
- **`Rc`/`RefCell` sharing and the `Debug` impl of `Node`.** The arena stands in for the pointers. `flatten` takes an immutable `Expr`, so it cannot change any node's children.
- **UTF-8 byte offsets.** `str::len` and `char_indices` count bytes. The model counts characters, so its columns equal the program's only on ASCII lines.
- **`usize` overflow of `row + 1`.** Rows are unbounded naturals.
- **`Keyword`.** No file of the program defines it, but `flatten` matches on it. The model adds a `Keyword(Defun)` token that `Token::new` never produces.
- **Scope trees, identifiers and `def` binding.** The code has none, so the model has none.
- **`i32` overflow of `depth`.** `let mut depth = 0` is an `i32` (src/analyzer/mod.rs:45), while the model's depth is an unbounded integer. More than 2^31 - 1 nested `(` would overflow in the program but not in the model.
- **Panic messages.** The builder's and evaluator's panics are error values, not aborts. A `BuildError` records the offending token's index, which the program does not report.
- **`i64` wrap-around.**
  - Tokens.Add: weaker than a release build, because it demands the sum fit in `i64` where release Rust would wrap. A debug build panics, and the evaluator models that panic as `Overflow`.
  - Tokens.Sub: weaker in the same way; it demands the difference fit in `i64`.
