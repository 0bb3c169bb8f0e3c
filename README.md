# A verified model of a small Lisp interpreter

This project models the core of a small Rust Lisp interpreter in Dafny: the
tokenizer (`src/lexzer.rs`), the recursive-descent parser (`src/parser.rs`),
the scope chain (`src/meta.rs`) and the tree-walking evaluator
(`src/evaluator.rs`).

- **Tokenizer.** Every `(` and `)` is padded with spaces and the text is split
  on Unicode whitespace. Each word then becomes `LParen`, `RParen`, a signed
  64-bit `Integer` or a `Symbol`.
- **Parser.** The tokens are reversed into a stack. `parse_list` pops an
  opening parenthesis and then collects atoms and nested lists until a closing
  parenthesis or the end of the tokens.
- **Scope chain.** Each scope is a table of bindings with an optional parent.
  `get` walks outwards from the innermost scope; `set` writes the innermost
  scope only.
- **Evaluator.** Integers, booleans and `Void` evaluate to themselves, a lambda
  value evaluates to `Void`, and symbols are looked up. A list whose head is a
  symbol is a form: one of the seven operators `+ - / < > = !=`, `define`, `if`,
  `lambda`, or else a procedure call. Any other list is evaluated element by
  element, and the non-`Void` results are kept.

## Layout

| file | module | contents |
|---|---|---|
| `wrappers.dfy` | `Wrappers` | `Option` and `Result` |
| `objects.dfy` | `Objects` | the `I64` range, the `Object` datatype, a size measure |
| `sequences.dfy` | `Sequences` | small facts about sequences used by several modules |
| `lexer.dfy` | `Lexer` | token type, `Tokenize` specification, the `Analyzer` method and its proofs |
| `parser.dfy` | `Parser` | `TokenStack` class, `ParsedList` specification, the `ParseList`/`Parse` methods, the round trip |
| `environment.dfy` | `Environment` | scopes as a stack of frames (innermost last), and the `Meta` class |
| `semantics.dfy` | `Semantics` | the evaluator as pure functions from a frame stack to an `Outcome` (result and new frame stack) |
| `evaluator.dfy` | `Evaluator` | the evaluator as methods over `Meta` objects, each proved equal to its `Semantics` function |
| `evaluation_laws.dfy` | `EvaluationLaws` | what each form does, what a call leaves behind, worked programs |

### How the model reads the code

- **Scopes.** `Rc<RefCell<Meta>>` is modelled two ways. `Environment.Meta` is a
  class with a `vars` map that is updated in place and a fixed `parent`.
  `Meta.Frames()` is the sequence of tables it sees, outermost first. The pure
  semantics works on that sequence (`Env`).
- **Errors.** The evaluator's `String` errors become the `EvalError` kinds.
  Rust panics become `Panic(Trap)`: indexing past a list (`IndexOutOfBounds`),
  i64 overflow in `+`, `-` and `/` (`Overflow`), and division by zero.
- **Termination.** Evaluation of a recursive lambda need not terminate.
  Evaluating a list therefore costs one unit of a `fuel` parameter, and
  exhausting it yields `OutOfFuel`.
- **Division.** Rust's `/` truncates toward zero. This is `Semantics.TruncDiv`;
  `(/ -7 2)` is -3 (`EvaluationLaws.DivisionTruncates`).

### Behaviour of the code worth knowing

- `*` is not among the operators `eval_list` dispatches to `eval_binary_op`
  (src/evaluator.rs:39). `(* a b)` is therefore a procedure call of whatever
  `*` is bound to, and it fails as an unbound symbol when `*` is unbound. The
  multiplication arm inside `eval_binary_op` cannot be reached from a form.
  This is `EvaluationLaws.StarIsACall`.
- Procedure calls do no arity check. Arguments after the last parameter are
  never evaluated (`EvaluationLaws.ExtraArgumentsIgnored`). With too few
  arguments the call fails: the given arguments are evaluated in turn, and if
  none of them fails, reading the missing one indexes past the list, a panic
  (`EvaluationLaws.MissingArgumentsFail`). If one fails, its error is the
  call's result and the body never runs (`EvaluationLaws.CallStopsAtArgument`).
- `lambda` checks no length either: it needs at least 3 elements, and extra
  ones are ignored. `(lambda (x))` has a valid parameter list and then indexes
  past the list (`Semantics.EvalFunctionDefinition`).
- The operands of an operator are evaluated left to right, the right one in
  the scopes the left one leaves, and only then checked to be integers
  (`EvaluationLaws.OperatorSteps`). So `(+ (define a 1) a)` fails on the
  `Void` left operand yet leaves `a` bound (`EvaluationLaws.OperandDefinesForNext`).
- The parser accepts unclosed lists (`Parser.ParseUnclosed`). It ignores
  tokens after the first complete list (`Parser.ParseSerialized`).
- A procedure body is evaluated as one list. `(lambda (n) (+ n n))` has the
  body `+ n n`, which is run as the form `(+ n n)`.
- Scope is dynamic. The new scope's parent is the caller's scope
  (`EvaluationLaws.DynamicScope`).

## Model

| member | source | states |
|---|---|---|
| Lexer.Replace | src/lexzer.rs:37 | replacing a character that does not occur changes nothing; a replacement without the character removes every occurrence; each occurrence changes the length by the replacement's length less one |
| Lexer.Pad | src/lexzer.rs:37 | text without parentheses is unchanged, and every parenthesis gains exactly two characters |
| Lexer.ReplaceKeepsCount | src/lexzer.rs:37 | replacing `(` by a text without `)` keeps the number of `)` characters |
| Lexer.Words | src/lexzer.rs:38 | every word is non-empty and free of whitespace; there are no words exactly when the text is all whitespace |
| Lexer.ParseI64 | src/lexzer.rs:45 | an accepted word is an optional sign followed by at least one digit and nothing else; a negative value needs a `-`; an unsigned or `+`-signed run of digits is accepted exactly when its value is within the i64 range, as that value; a `-`-signed run is accepted exactly when its negated value is in range, as that negated value |
| Lexer.Classify | src/lexzer.rs:41-51 | exactly `(` and `)` become parenthesis tokens; an integer token is the i64 parse of its word; a symbol token keeps its word, which does not parse as an i64 |
| Lexer.Tokenize | src/lexzer.rs:36-56 | one token per word of the padded text; every symbol token is a non-empty, whitespace-free word that is not an integer |
| Lexer.Analyzer | src/lexzer.rs:36-56 | the tokenizer never fails; it returns the classified words of the padded text, in order |
| Lexer.ClassifyAll | src/lexzer.rs:40-53 | one token per word, in word order, each the classification of its word |
| Lexer.ClassifyAllAppend | src/lexzer.rs:40-53 | classifying two runs of words one after the other gives the concatenation of the results |
| Lexer.RunLength | src/lexzer.rs:38 | a word runs up to the first whitespace character and contains none |
| Lexer.WordsOfPadIsLex | src/lexzer.rs:37-38 | padding parentheses and splitting on whitespace equals a single left-to-right scan in which each parenthesis is a word by itself |
| Lexer.TokenizeIsLex | src/lexzer.rs:37-53 | the token sequence is the classification of the scanned words |
| Lexer.LexShape | src/lexzer.rs:37-38 | every word is a lone parenthesis, or non-empty and free of whitespace and parentheses |
| Lexer.CountIsMultiplicity | src/lexzer.rs:42-43 | counting occurrences agrees with multiset multiplicity |
| Lexer.LexCountsParen | src/lexzer.rs:37-38 | there are as many `(` words as `(` characters, and as many `)` words as `)` characters |
| Lexer.ClassifyAllCounts | src/lexzer.rs:42-43 | a `(` word becomes exactly one `LParen` and a `)` word exactly one `RParen`, and no other word does |
| Lexer.TokenizeCountsParens | src/lexzer.rs:37-43 | the number of `LParen` tokens equals the number of `(` characters; likewise `RParen` and `)` |
| Lexer.TokenizeSymbols | src/lexzer.rs:37-49 | no symbol token is empty or holds whitespace or a parenthesis |
| Lexer.LexEmptyIffBlank | src/lexzer.rs:38 | the scan yields no words exactly when every character is whitespace |
| Lexer.TokenizeBlank | src/lexzer.rs:38-53 | all-whitespace input, and only such input, yields no tokens |
| Lexer.LexAppend | src/lexzer.rs:38 | text split where no word straddles the cut scans as the concatenation of the two scans |
| Lexer.LexWord | src/lexzer.rs:38 | a non-empty run of word characters is one word |
| Lexer.LexSpaceJoin | src/lexzer.rs:38 | two texts joined by a space scan as the concatenation of their scans |
| Lexer.TokenizeAppend | src/lexzer.rs:38-53 | tokens of two texts joined by a space are the first text's tokens followed by the second's |
| Lexer.ClassifyInteger | src/lexzer.rs:44-50 | a word becomes `Integer(n)` exactly when it parses as the signed 64-bit value `n`; otherwise it is a symbol unless it is a parenthesis |
| Lexer.NatDigitsValue | src/lexzer.rs:45 | the decimal digits of a natural number read back as that number |
| Lexer.ParseDecimal | src/lexzer.rs:45-47 | the decimal form of every signed 64-bit value parses back to that value, including the minimum |
| Lexer.DecimalIsWord | src/lexzer.rs:38 | the decimal form of an integer is one word |
| Lexer.TokenizeExample | src/lexzer.rs:63-73 | `(+ 1 2)` tokenizes to `LParen, Symbol +, Integer 1, Integer 2, RParen` |
| Parser.Reverse | src/parser.rs:27-31 | reversal keeps the length |
| Parser.ReversePush | src/parser.rs:27-31 | reversing a sequence with `x` appended puts `x` in front |
| Parser.TokenStack.constructor | src/parser.rs:27-31 | a new stack holds no tokens |
| Parser.TokenStack.IsEmpty | src/parser.rs:46 | the stack is empty exactly when no tokens remain |
| Parser.TokenStack.Pop | src/parser.rs:38 | popping returns the next remaining token and removes it; on an empty stack it returns `None` and changes nothing |
| Parser.TokenStack.Push | src/parser.rs:58 | pushing makes the token the next one to be read |
| Parser.ParsedList | src/parser.rs:37-70 | succeeds exactly when the first token is `LParen`, always with a `List`, and always consumes at least one token of a non-empty input (the recursion's measure) |
| Parser.ParsedElems | src/parser.rs:46-69 | the loop always ends with a `List` and never grows the remaining tokens |
| Parser.ParsedListSuffix | src/parser.rs:37-70 | what is left after parsing a list is a suffix of its input |
| Parser.ParsedElemsSuffix | src/parser.rs:46-67 | the loop leaves a suffix of its input and only appends to the list it has collected |
| Parser.ParseList | src/parser.rs:37-70 | the method returns what `ParsedList` gives for the stack's tokens and leaves exactly the tokens `ParsedList` leaves |
| Parser.ParseText | src/parser.rs:19-35 | parsing a text succeeds exactly when its first token is `(`, and a success is a `List` |
| Parser.Parse | src/parser.rs:19-35 | tokenizing, reversing into a stack and parsing one list gives `ParseText` |
| Parser.StackOf | src/parser.rs:27-31 | the reversed token vector is a new stack from which the tokens pop in their original order |
| Parser.ParseOkIff | src/parser.rs:38-43 | parsing succeeds exactly when the first token is `LParen`; empty input fails with no token found; a success is a `List` |
| Parser.ParsedAtoms | src/parser.rs:55-56 | integer and symbol tokens are copied into the list as integer and symbol objects, in order |
| Parser.ParsedElemsNested | src/parser.rs:57-60 | a nested `LParen` parses a nested list, which becomes the next element; the outer list continues after its closing token |
| Parser.ParsedElemsEnd | src/parser.rs:46-69 | a closing parenthesis or the end of the tokens ends the list with what has been collected |
| Parser.ParsedElemsSerialized | src/parser.rs:55-63 | the serialized elements of any tree list parse back to those elements |
| Parser.ParseSerialized | src/parser.rs:33-63 | a serialized tree list parses back to itself, and tokens after its closing parenthesis are left unread |
| Parser.ParseUnclosed | src/parser.rs:46-69 | a list whose closing parenthesis is missing parses as if it were closed |
| Parser.TokenizePrinted | src/lexzer.rs:37-53 | the printed text of a tree tokenizes to its serialization |
| Parser.TokenizePrintedAll | src/lexzer.rs:37-53 | the printed text of a sequence of trees, separated by spaces, tokenizes to their serializations |
| Parser.ParsePrinted | src/parser.rs:19-35 | printing a list of integers, symbols and lists and parsing the text gives the same list back |
| Parser.ParseExample | src/parser.rs:83-91 | `(+ 1 2)` parses to the list `+ 1 2` |
| Parser.ParseExampleLonger | src/parser.rs:94-103 | `(+ 1 2 3 4)` parses to the list `+ 1 2 3 4` |
| Environment.Empty | src/meta.rs:13-15 | a new chain has one scope and it binds nothing |
| Environment.Nest | src/meta.rs:17-22 | extending adds an empty innermost scope on top of the parent's chain |
| Environment.SetTop | src/meta.rs:36-38 | `set` updates only the innermost scope; the outer scopes stay as they were |
| Environment.EmptyBindsNothing | src/meta.rs:13-15 | every name is unbound in a new chain |
| Environment.SetThenGet | src/meta.rs:36-38 | after `set(n, v)`, `get(n)` is `v` |
| Environment.SetKeepsOthers | src/meta.rs:36-38 | `set(n, v)` leaves `get(m)` unchanged for every other name `m` |
| Environment.ExtendTransparent | src/meta.rs:17-22 | in a freshly extended scope every name looks up as in the parent |
| Environment.Shadowing | src/meta.rs:24-34 | a binding in the inner scope hides the parent's and leaves the parent unchanged |
| Environment.Lookup | src/meta.rs:24-34 | a binding in the innermost scope is what lookup returns, and lookup fails only when no scope binds the name |
| Environment.LookupInnermost | src/meta.rs:24-34 | lookup returns the binding of the innermost scope that binds the name |
| Environment.LookupNone | src/meta.rs:24-34 | lookup fails exactly when no scope binds the name |
| Environment.LookupFound | src/meta.rs:24-34 | whatever lookup returns is bound in some scope of the chain |
| Environment.Meta.New | src/meta.rs:13-15 | a new scope has no parent and no bindings |
| Environment.Meta.Extend | src/meta.rs:17-22 | a child scope has the given parent, no bindings, and sees the parent's chain plus an empty scope |
| Environment.Meta.Get | src/meta.rs:24-34 | `get` is the innermost-first lookup over the chain the scope sees |
| Environment.Meta.Set | src/meta.rs:36-38 | `set` writes only this scope's table, and the chain changes exactly as `SetTop` says |
| Semantics.Checked | src/evaluator.rs:97-98 | an exact result inside the i64 range, or the overflow panic |
| Semantics.TruncDiv | src/evaluator.rs:100 | the quotient leaves a remainder smaller than the divisor and with the sign of the dividend, which is rounding toward zero |
| Semantics.QuotientRemainder | src/evaluator.rs:100 | negating the quotient of the magnitudes when the signs differ leaves a remainder smaller than the divisor with the dividend's sign |
| Semantics.IsBinaryOperator | src/evaluator.rs:39 | the operators handed to `eval_binary_op` are exactly those the operator dispatch knows, except `*` |
| Semantics.TruncDivBound | src/evaluator.rs:100 | apart from `MIN / -1`, the quotient of two i64 values is an i64 |
| Semantics.ApplyOperator | src/evaluator.rs:95-107 | `+ - * /` give integers, `< > = !=` always give booleans, and any other operator is an invalid-operator error |
| Semantics.AddSub | src/evaluator.rs:97-98 | `+` and `-` give the exact result when it fits in 64 bits and panic otherwise |
| Semantics.Divide | src/evaluator.rs:100 | `/` panics on a zero divisor and on `MIN / -1`, and otherwise gives `TruncDiv`, whose remainder is smaller than the divisor and has the dividend's sign |
| Semantics.Compare | src/evaluator.rs:101-104 | the comparisons give the boolean of the comparison and never fail |
| Semantics.EvalObj | src/evaluator.rs:16-25 | evaluating any object changes no scope but the innermost one |
| Semantics.EvalSymbol | src/evaluator.rs:27-33 | a symbol evaluates to its innermost binding, or fails as unbound; no scope changes |
| Semantics.EvalList | src/evaluator.rs:35-59 | evaluating a form changes no scope but the innermost one |
| Semantics.EvalEach | src/evaluator.rs:47-57 | the element-by-element loop changes no scope but the innermost one |
| Semantics.EvalBinaryOp | src/evaluator.rs:80-109 | a length other than 3 fails before any operand is evaluated; no outer scope changes |
| Semantics.EvalDefine | src/evaluator.rs:111-122 | `define` needs exactly 3 elements and a symbol target; on success it yields `Void` and the name is bound in the innermost scope |
| Semantics.EvalIf | src/evaluator.rs:124-138 | `if` needs exactly 4 elements, checked before anything is evaluated |
| Semantics.ParamNames | src/evaluator.rs:142-151 | the parameters are accepted exactly when all are symbols, and their names are kept in order |
| Semantics.EvalFunctionDefinition | src/evaluator.rs:140-159 | `lambda` succeeds exactly when element 1 is a list of symbols and element 2 a list, giving those names and that body; each failure is named: fewer than 2 elements or a valid parameter list with no body panics, a non-list element 1 or 2 is an invalid lambda, a non-symbol parameter an invalid parameter |
| Semantics.EvalFunctionCall | src/evaluator.rs:61-78 | an unbound head is an unbound-symbol error and a non-lambda head a not-a-lambda error, both with no scope changed; a call changes no outer scope |
| Semantics.BindArgs | src/evaluator.rs:70-73 | the argument loop evaluates in the caller's chain and changes no outer scope |
| Semantics.EvalText | src/evaluator.rs:7-14 | `eval` changes no scope but the innermost one |
| Evaluator.Eval | src/evaluator.rs:7-14 | the method's result and resulting chain are those of `EvalText` |
| Evaluator.EvalObj | src/evaluator.rs:16-25 | the method's result and resulting chain are those of `Semantics.EvalObj` |
| Evaluator.EvalSymbol | src/evaluator.rs:27-33 | the method succeeds exactly when the name is bound, with its innermost binding, and fails as unbound otherwise |
| Evaluator.EvalList | src/evaluator.rs:35-59 | the method's result and resulting chain are those of `Semantics.EvalList` |
| Evaluator.EvalEach | src/evaluator.rs:47-57 | the loop keeps the result and chain that `Semantics.EvalEach` gives for the elements still to go |
| Evaluator.EvalFunctionCall | src/evaluator.rs:61-78 | the method's result and resulting chain are those of `Semantics.EvalFunctionCall`; the callee scope it creates is discarded |
| Evaluator.BindArgs | src/evaluator.rs:69-73 | the loop fills the fresh callee scope with the frame `Semantics.BindArgs` computes and changes the caller as it says |
| Evaluator.EvalBinaryOp | src/evaluator.rs:80-109 | the method's result and resulting chain are those of `Semantics.EvalBinaryOp` |
| Evaluator.EvalDefine | src/evaluator.rs:111-122 | the method's result and resulting chain are those of `Semantics.EvalDefine` |
| Evaluator.EvalIf | src/evaluator.rs:124-138 | the method's result and resulting chain are those of `Semantics.EvalIf` |
| Evaluator.EvalFunctionDefinition | src/evaluator.rs:140-159 | the parameter loop gives the result `Semantics.EvalFunctionDefinition` describes, touching no scope |
| EvaluationLaws.Dispatch | src/evaluator.rs:35-46 | a list headed by a symbol is an operator form for `+ - / < > = !=`, a `define`, `if` or `lambda` form for those names, and a procedure call for every other symbol |
| EvaluationLaws.SelfEvaluating | src/evaluator.rs:17-23 | integers, booleans and `Void` evaluate to themselves, a lambda value to `Void`, a symbol to its binding or an unbound error |
| EvaluationLaws.EmptyListTraps | src/evaluator.rs:36 | evaluating `()` indexes past its end |
| EvaluationLaws.OperatorOnValues | src/evaluator.rs:80-104 | two operands that evaluate to integers without touching the scopes give `ApplyOperator` of those integers |
| EvaluationLaws.OperatorSteps | src/evaluator.rs:80-108 | the left operand is evaluated first and the right one in the scopes it leaves; the first failing step (left, right, left not an integer, right not an integer) decides the error; otherwise the result is `ApplyOperator`, in the scopes the right operand leaves |
| EvaluationLaws.OperandDefinesForNext | src/evaluator.rs:84-93 | `(+ (define a 1) a)` with `a` unbound fails on the `Void` left operand, and `a` is bound to 1 afterwards |
| EvaluationLaws.DivisionTruncates | src/evaluator.rs:100 | `(/ -7 2)` is -3 |
| EvaluationLaws.OperatorOnIntegers | src/evaluator.rs:39-40 | an operator on two integer literals computes `ApplyOperator` and changes no scope |
| EvaluationLaws.OperatorResultKind | src/evaluator.rs:84-104 | a successful operator form had an integer left operand, and yields an integer for `+ - /` and a boolean for `< > = !=` |
| EvaluationLaws.OperatorLeftFirst | src/evaluator.rs:85-86 | when the left operand fails, the right operand is never evaluated |
| EvaluationLaws.OperatorArity | src/evaluator.rs:81-83 | an operator form of another length fails with no operand evaluated and no scope changed |
| EvaluationLaws.StarIsACall | src/evaluator.rs:39-45 | `(* a b)` is a procedure call of `*`, and fails as unbound, with nothing evaluated, when `*` is unbound |
| EvaluationLaws.NestedArithmetic | src/evaluator.rs:97-100 | `(+ (- 10 4) (/ 7 2))` is 9 |
| EvaluationLaws.DefineBinds | src/evaluator.rs:111-122 | `define` evaluates its value once and binds it in the innermost scope only, after which the name looks up to it; a failing value binds nothing |
| EvaluationLaws.DefineThenLookup | src/evaluator.rs:119-121 | after `(define x 10)`, `x` evaluates to 10 |
| EvaluationLaws.IfTrue | src/evaluator.rs:133-134 | with a true condition the result is the consequent's, whatever the alternative is |
| EvaluationLaws.IfFalse | src/evaluator.rs:135-136 | with a false condition the result is the alternative's, whatever the consequent is |
| EvaluationLaws.IfNeedsBool | src/evaluator.rs:128-132 | a non-boolean condition is an error, and neither branch is evaluated |
| EvaluationLaws.IfConditionFails | src/evaluator.rs:128 | a failing condition is the form's error, in the scopes the condition left, and neither branch is evaluated |
| EvaluationLaws.IfExample | src/evaluator.rs:124-138 | `(if (> 3 2) 1 2)` is 1 |
| EvaluationLaws.LambdaForm | src/evaluator.rs:44 | a `lambda` form yields the procedure definition and changes no scope |
| EvaluationLaws.LambdaExample | src/evaluator.rs:140-159 | `(lambda (n) (+ n n))` is the procedure with parameter `n` and body `+ n n` |
| EvaluationLaws.BindArgsIgnoresExtra | src/evaluator.rs:70-71 | the argument loop never reads arguments after the last parameter |
| EvaluationLaws.BindArgsTooFew | src/evaluator.rs:70-71 | with fewer arguments than parameters the argument loop always fails; when every given argument evaluates, the error is the index panic, and with literal arguments no scope changes |
| EvaluationLaws.BindArgsBinds | src/evaluator.rs:69-73 | a successful argument loop had an argument for every parameter, and the frame binds exactly the earlier names and the parameters |
| EvaluationLaws.BindArgsLiterals | src/evaluator.rs:70-73 | with literal arguments binding succeeds with no scope changed; each parameter is bound to the argument in its position (the later one for a repeated name), and earlier bindings of other names are kept |
| EvaluationLaws.ExtraArgumentsIgnored | src/evaluator.rs:61-77 | a call with extra arguments behaves as if they were not written |
| EvaluationLaws.MissingArgumentsFail | src/evaluator.rs:61-77 | a call with fewer arguments than parameters fails; when every given argument evaluates, with the index panic; with literal arguments, also with no scope changed |
| EvaluationLaws.BindArgsStops | src/evaluator.rs:70-73 | the argument loop stops at the first failing argument and fails with its error, in the scopes it left, whatever follows it |
| EvaluationLaws.CallArgumentFails | src/evaluator.rs:69-71 | a call whose arguments fail to bind fails with the binding error, in the scopes argument evaluation left, and the body never runs |
| EvaluationLaws.CallStopsAtArgument | src/evaluator.rs:61-77 | a call stops at its first failing argument and fails with its error; later arguments and the body are never evaluated, with too few arguments as well |
| EvaluationLaws.CallDropsScope | src/evaluator.rs:69-74 | the body runs in a new scope over the caller's chain; afterwards the caller keeps only what argument evaluation did |
| EvaluationLaws.CallYields | src/evaluator.rs:61-77 | a call whose arguments bind without side effects returns the body's value and leaves the caller's chain as it was |
| EvaluationLaws.BindOneLiteral | src/evaluator.rs:70-73 | one literal argument binds the one parameter to it |
| EvaluationLaws.CallExample | src/evaluator.rs:61-77 | with `double` bound to `(lambda (n) (+ n n))`, `(double 5)` is 10 and the caller's chain is unchanged |
| EvaluationLaws.CallSeesCallerBinding | src/evaluator.rs:69 | a procedure reads a free name from the scope it is called from |
| EvaluationLaws.DynamicScope | src/evaluator.rs:69 | with `g` binding `y` and calling `f`, `f` sees `g`'s `y`: scope is dynamic |
| EvaluationLaws.KeptStep | src/evaluator.rs:51-54 | one element more adds its value unless it is `Void` |
| EvaluationLaws.EvalEachCollects | src/evaluator.rs:47-57 | a successful element-by-element loop extends what it had collected by at most one value per remaining element, none of them `Void` |
| EvaluationLaws.EvalEachSplit | src/evaluator.rs:49-55 | the element loop over a list is the loop over its first `j` elements continued from element `j`; a failure among them is the failure of the whole loop |
| EvaluationLaws.EvalEachStops | src/evaluator.rs:50 | the loop stops at the first failing element and fails with its error, in the scopes it left, whatever follows it |
| EvaluationLaws.ListStopsAtFirstError | src/evaluator.rs:47-56 | a list with a non-symbol head fails with its first failing element's error, and the later elements are never evaluated |
| EvaluationLaws.EvalEachAtoms | src/evaluator.rs:47-57 | evaluating atoms element by element keeps the non-`Void` values in order and changes no scope |
| EvaluationLaws.ListOfAtoms | src/evaluator.rs:47-57 | a list of atoms with a non-symbol head evaluates to the list of its non-`Void` values |
| EvaluationLaws.BindingsOutliveFailure | src/evaluator.rs:47-56 | in `((define r 10) (* r r))` the unbound `*` fails the list, yet `r` stays bound to 10 |
| EvaluationLaws.EvalTextExample | src/evaluator.rs:7-14 | `eval("(+ 1 2)")` is 3 |

## Left out

- The REPL in `src/main.rs` (reading lines, the `exit` check, printing results) is input and output and is not modelled.
- `Display` implementations and the text of error messages are not modelled. Errors are kinds (`LexError`, `ParseError`, `EvalError`).
- `src/object.rs` is not part of this model. `Objects.Object` is rebuilt from its uses in the evaluator.
- `Rc`/`RefCell` sharing and borrowing are modelled as a `Meta` object graph with a fixed `parent`, plus its frame-stack view. Reference counts and deallocation are not modelled.
- Rust panics are not modelled as unwinding. The panicking cases are `Panic(Trap)` results: indexing past a list (`list[0]`, `list[1]`, `list[2]`, `list[i + 1]`), i64 overflow in `+`, `-` and `/`, and division by zero.
- Overflow in `+` and `-` panics as in a debug build. A release build would wrap `+` and `-` around instead, and that is not modelled. `/` panics on `MIN / -1` and on a zero divisor in every build.
- Evaluation that does not terminate is not modelled. Each list evaluation consumes fuel, and running out is an `OutOfFuel` result that the source does not have.
- `Lexer.IsWhitespace` follows Unicode White_Space. Rust's `split_whitespace` uses the same set; character encoding is not modelled.
- The tokenizer's error type (`AnalyzerError`) is declared but never produced, so `Lexer.Analyzer` always returns `Ok`.
- The parser's `Analyzer::EXIT` comparison and its fall-through arm refer to a token variant that does not exist, and are not modelled. The `None` check inside the parse loop cannot fire, since the loop runs only while the stack is non-empty; it is an `assert false` branch. The error propagation (`?`) from the nested call cannot fire either: the nested call starts at a `(`, so `ParsedList` guarantees it succeeds, and the model uses its value directly.
- The evaluator's tests in `src/evaluator.rs` only print and assert nothing, so they are not stated. As written, the area-of-a-circle test would fail on the unbound `*`; `EvaluationLaws.BindingsOutliveFailure` shows the same behaviour on a smaller program.
- Semantics.EvalObj: its contract states only that outer scopes are unchanged. What each form computes is stated by the `EvaluationLaws` lemmas and the `Evaluator` methods.
- Semantics.EvalBinaryOp: its contract states only the arity check and that outer scopes are unchanged. Operand order, the scopes each operand sees and the order of the checks are in `EvaluationLaws.OperatorSteps`; result types are in `OperatorResultKind`.
- Semantics.EvalEach: its contract states only that outer scopes are unchanged. The shape of a successful result is in `EvaluationLaws.EvalEachCollects`, its exact value for atoms in `EvalEachAtoms`, and the stop at the first error in `EvalEachStops`.
- Semantics.BindArgs: its contract states only that outer scopes are unchanged. The domain of the frame is in `EvaluationLaws.BindArgsBinds` and the value of each parameter, for literal arguments, in `BindArgsLiterals`. The stop at the first failing argument is in `BindArgsStops` and `CallStopsAtArgument`. For arguments with effects, which value a parameter gets is not stated beyond the `Evaluator.BindArgs` method's equality with `Semantics.BindArgs`.
