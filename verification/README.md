# A verified model of a prefix-notation calculator

The calculator reads expressions such as `let(a, 5, let(b, mult(a, 10), add(b, a)))`
and returns an `int`. The language has the operations `let`, `add`, `sub`, `mult` and `div`,
variable names made of ASCII letters, and 32-bit integer literals. `Calculator.evaluate`
runs four stages, and each has its own module here:

- `Tokenizer`: `tokenize`. It returns no tokens for null or `trim()`-blank text. Otherwise it
  splits the text with `String.split("[\\s,\\(\\)]+")`. The delimiters are Java's `\s`
  (space, tab, newline, vertical tab, form feed, carriage return), comma and parentheses. Split itself is modelled (`Pieces`, then
  `StripTrailingEmpty`), and it is proved equal to a reference definition: the maximal
  delimiter-free runs (`Words`), after one empty token when the text starts with a delimiter.
- `Parser`: `TokenTree.makeTree`. This is recursive descent over the token queue. The queue is a
  `seq<string>`, and each call returns the node it filled in together with the tokens it left
  unconsumed. A keyword becomes an operation node with 3 operands for `let` and 2 otherwise;
  the operand loop is `AppendOperands`. A letters-only token becomes a variable, which needs a
  parent. A token that `Integer.parseInt` accepts becomes an integer node. Anything else is an
  unknown literal. At the root, leftover tokens make a bad expression.
- `Evaluator`: `TokenTree.evaluate(Node)`. This is the post-order walk that threads one variable
  table through the whole traversal. `let` adds to the table and nothing ever removes an entry.
- `Calculator`: the `TokenTree` constructor, `TokenTree.evaluate()` (fresh table) and
  `Calculator.evaluate(String)`, including the `(int)` cast.

Supporting modules:

- `Nodes`: the `Node` record, with constructor, setters, `numChildren` and `appendChild`. The
  parent pointer is reduced to a `hasParent` flag.
- `Syntax`: keywords, `isLiteral`, `isNumeric`, and the decimal notation of integers.
- `Errors`: one constructor per message constant.
- `Wrappers`: `Option` and `Result`. Exceptions become `Failure` values.

The main results:

- `Parser.MakeTreeOfSerialize`: makeTree inverts a printer (`Parser.Serialize`) on every tree it
  can build.
- `Calculator.PrintThenCalculate`: printing any such tree with single spaces and calculating
  the text evaluates that tree.
- `Evaluator.EvalOfWellFormed`: on a built tree, the operand-count check always passes and the
  unknown-operation and fall-through branches are dead.
- `Evaluator.EvalBindings`: an evaluation adds exactly the names its `let`s bind, and it changes
  no other entry.
- `Calculator.Calculate`: empty, blank, delimiter-only and null input is a bad expression, and
  the invalid-input error of the constructor cannot arise.
- The `Examples` module derives the expected results of the repository's own tests from the
  text of the expressions.

Where the code and its documentation disagree, the model follows the code: `tokenize` does
return an empty first token for text that starts with a delimiter, though its comment says empty
strings are not tokens. See `Tokenizer.LeadingDelimiterGivesEmptyToken` and
`Examples.LeadingDelimiterExample`.

## Model

| member | source | states |
|---|---|---|
| Errors.Message | src/main/java/calculator/Calculator.java:27-34 | the message of each kind starts with its constant; the unknown-operation, undefined-variable and operand-count messages append the name as at :377, :369 and :338 |
| Errors.MessageIdentifiesKind | src/main/java/calculator/Calculator.java:27-34 | no message starts with the constant of another kind, so the start of a message identifies the kind of error |
| Nodes.NewNode | src/main/java/calculator/Node.java:117-123 | a new node has every field null, no parent and no children |
| Nodes.NumChildren | src/main/java/calculator/Node.java:129-134 | 0 while the child list is unassigned, otherwise the size of the list |
| Nodes.AppendChild | src/main/java/calculator/Node.java:141-148 | the list is created if needed; the children become the old children followed by the new one; the count grows by one; no other field changes |
| Nodes.AppendChildrenInOrder | src/main/java/calculator/Node.java:141-148 | appending children one by one leaves the old children followed by exactly those children, in order |
| Nodes.SetOpName | src/main/java/calculator/Node.java:46-55 | after setOpName(v), getOpName() gives v and every other field is unchanged |
| Nodes.SetValue | src/main/java/calculator/Node.java:60-69 | after setValue(v), getValue() gives v and every other field is unchanged |
| Nodes.SetVarName | src/main/java/calculator/Node.java:74-83 | after setVarName(v), getVarName() gives v and every other field is unchanged |
| Nodes.SetChildren | src/main/java/calculator/Node.java:88-97 | after setChildren(v), getChildren() gives v and every other field is unchanged |
| Nodes.SetParent | src/main/java/calculator/Node.java:102-111 | after setParent, the node has a parent exactly as set and every other field is unchanged |
| Tokenizer.Tokenize | src/main/java/calculator/Calculator.java:54-70 | null and blank text give no tokens; other text gives its maximal delimiter-free runs, after one empty token when it starts with a delimiter and is not all delimiters; delimiter-only text gives none; no token holds a delimiter, and only the first can be empty |
| Tokenizer.Split | src/main/java/calculator/Calculator.java:67 | String.split with limit 0 on the delimiter pattern: the empty text, which the pattern never matches, comes back as the one piece [""]; any other text gives the reference, the maximal delimiter-free runs after one empty piece exactly when the text starts with a delimiter and is not all delimiters |
| Tokenizer.StripTrailingEmpty | src/main/java/calculator/Calculator.java:67 | split with limit 0 keeps a prefix of the pieces, ends on a non-empty piece, and drops only empty pieces |
| Tokenizer.SplitIsLeadingEmptyAndWords | src/main/java/calculator/Calculator.java:67 | the pieces between delimiter runs, trailing empty ones removed, are the maximal runs, after an empty piece exactly when the text starts with a delimiter and has a word |
| Tokenizer.WordsEmptyIff | src/main/java/calculator/Calculator.java:62-67 | text has no runs exactly when it is all delimiters |
| Tokenizer.WordsKeepAllOtherCharacters | src/main/java/calculator/Calculator.java:67 | the runs hold every non-delimiter character of the text, in order, and nothing else |
| Tokenizer.LeadingDelimiterGivesEmptyToken | src/main/java/calculator/Calculator.java:49-67 | a non-blank text that starts with a delimiter and has a word gives an empty first token, contrary to the doc comment |
| Tokenizer.FirstTokenEmptyIff | src/main/java/calculator/Calculator.java:67 | for non-blank text, the first token is empty exactly when the text starts with a delimiter |
| Tokenizer.TokenizeJoin | src/main/java/calculator/Calculator.java:54-70 | tokens joined by single spaces tokenize back to the same tokens, unless the text is blank |
| Tokenizer.WordsCons | src/main/java/calculator/Calculator.java:67 | a word followed by a delimiter run is the first run of the text, and the runs after it are those of the remainder |
| Tokenizer.TokenizeFromWord | src/main/java/calculator/Calculator.java:62-67 | text that starts with a visible non-delimiter tokenizes to exactly its runs |
| Syntax.ParseInt | src/main/java/calculator/Calculator.java:254 | the value of a numeric token, in the 32-bit range; which integer it is is pinned by `Syntax.ShowIntNumeric` |
| Syntax.MatchLiteral | src/main/java/calculator/Calculator.java:140-154 | isLiteral: false for null, otherwise true exactly when the token is one or more ASCII letters (the pattern `^[a-zA-Z]+$`) |
| Syntax.CheckNumeric | src/main/java/calculator/Calculator.java:162-173 | isNumeric: a left-to-right digit scan that rejects null, empty, a lone sign, a non-digit, or a magnitude past the bound of its sign, and accepts exactly the tokens of the reference `IsNumeric` (optional sign, ASCII digits, value in [-2^31, 2^31-1]) |
| Syntax.ShowIntRoundTrip | src/main/java/calculator/Calculator.java:162-173 | parsing the decimal notation of an integer gives the integer back |
| Syntax.ShowIntNumeric | src/main/java/calculator/Calculator.java:162-173 | the decimal notation of an integer passes isNumeric exactly when the integer fits in 32 bits |
| Syntax.LiteralNotNumeric | src/main/java/calculator/Calculator.java:235-251 | no token is both a variable name and a number, so the order of those two tests does not matter |
| Syntax.KeywordsAreLiterals | src/main/java/calculator/Calculator.java:188-236 | every keyword matches the variable pattern and is not numeric, so keywords must be (and are) checked first |
| Parser.ChildNode | src/main/java/calculator/Calculator.java:213-215 | an operand node starts with every field null and a parent |
| Parser.MakeTree | src/main/java/calculator/Calculator.java:179-271 | success gives a well-formed tree (operations with exactly their arity of operands, variables with a parent) and a proper suffix of the tokens, empty at the root; an empty queue is a bad expression; every failure is a parse error |
| Parser.AppendOperands | src/main/java/calculator/Calculator.java:221-228 | the operand loop runs only on an assigned child list with at least one child; it ends with a well-formed operation of the same name and leaves a suffix of the tokens |
| Parser.MakeTreeOfKeyword | src/main/java/calculator/Calculator.java:199-219 | a keyword is consumed, its first operand is built from the following tokens, and the loop gets the rest; at the root, leftovers are a bad expression |
| Parser.AppendOperandsStep | src/main/java/calculator/Calculator.java:221-228 | one round of the loop appends the operand built from the next tokens |
| Parser.AppendOperandsIgnoresParent | src/main/java/calculator/Calculator.java:221-228 | the operand loop's outcome does not depend on whether the node has a parent |
| Parser.MakeTreeOfSerialize | src/main/java/calculator/Calculator.java:179-271 | makeTree on the printed tokens of any tree it can build gives that tree and leaves the following tokens alone |
| Parser.AppendOperandsOfSerialize | src/main/java/calculator/Calculator.java:221-228 | fed the printed tokens of the missing operands, the loop appends exactly those operands |
| Parser.FirstOperandErrorAborts | src/main/java/calculator/Calculator.java:204-218 | an error while building the first operand is the error of the whole operation |
| Parser.NextOperandErrorAborts | src/main/java/calculator/Calculator.java:221-228 | an error while building a later operand ends the operand loop with that error |
| Parser.OperandLoopErrorAborts | src/main/java/calculator/Calculator.java:199-228 | an error of the operand loop is the error of the operation |
| Parser.ClassifyOperand | src/main/java/calculator/Calculator.java:188-262 | under a parent, a token is tried as a keyword, then as a variable name (so `Let` is a variable), then as a 32-bit integer; anything else is an unknown literal |
| Parser.ClassifyRoot | src/main/java/calculator/Calculator.java:238-270 | at the root a variable is rejected with a wrong variable position before leftovers are checked; a lone integer is accepted, and one followed by more tokens is a bad expression |
| Parser.RootIsOperandWithoutLeftovers | src/main/java/calculator/Calculator.java:267-270 | unless the input starts with a variable, the root is built like an operand and then rejected if any token is left over |
| Evaluator.Eval | src/main/java/calculator/Calculator.java:315-382 | a successful evaluation keeps every binding of the table (none is removed); the fall-through error is never produced |
| Evaluator.EvalOperation | src/main/java/calculator/Calculator.java:326-364 | binary operations and `let` keep every binding of the table; the fall-through after the dispatch is never reached |
| Evaluator.Apply | src/main/java/calculator/Calculator.java:343-350 | only `div` by zero fails; every other operation on exact values succeeds, and a quotient times the divisor gives the dividend (the sum, difference and product are fixed by the definition alone) |
| Evaluator.EvalOfWellFormed | src/main/java/calculator/Calculator.java:315-382 | on a tree makeTree built, the only failures are an undefined variable, a `let` whose first operand is no variable, or a zero divisor: the operand-count check passes and the unknown-operation and unreachable branches are dead |
| Evaluator.EvalOperationOfWellFormed | src/main/java/calculator/Calculator.java:326-364 | on a built operation node, the operation fails only with a runtime error |
| Evaluator.EvalBindings | src/main/java/calculator/Calculator.java:343-371 | a successful evaluation adds exactly the names its `let`s bind to the table and leaves every other entry as it was |
| Evaluator.BinaryBindings | src/main/java/calculator/Calculator.java:343-350 | a successful binary operation leaves the table with exactly the names its two operands bind added, and every other entry as it was (the left-then-right order itself is `EvalOperation`'s, witnessed by `Examples.BindingOutlivesLetExample`) |
| Evaluator.LetBindings | src/main/java/calculator/Calculator.java:351-362 | a successful `let` leaves its own name and every name bound inside its operands in the table, so the binding outlives the `let`, and every other entry as it was (that the value is computed before the name is bound is `EvalOperation`'s order, witnessed by `Examples.SelfReferenceExample`) |
| Calculator.NewTokenTree | src/main/java/calculator/Calculator.java:120-132 | a null token array is invalid input; otherwise the queue holds the tokens in order |
| Calculator.EvaluateTree | src/main/java/calculator/Calculator.java:290-307 | an empty queue is a bad expression; every failure is a parse error or a runtime error |
| Calculator.Truncate | src/main/java/calculator/Calculator.java:91 | truncation toward zero: the result lies between the value and zero, less than one away from the value |
| Calculator.ToInt | src/main/java/calculator/Calculator.java:91 | the `(int)` cast: truncation when in range, otherwise saturation at the int bounds |
| Calculator.Calculate | src/main/java/calculator/Calculator.java:79-92 | null, blank and delimiter-only text is a bad expression; failures are only parse or runtime errors (never invalid input); a result is in the int range |
| Calculator.CalculateOfTreeText | src/main/java/calculator/Calculator.java:79-92 | text that tokenizes to the printed tokens of a built tree calculates that tree's value under an empty table |
| Calculator.PrintThenCalculate | src/main/java/calculator/Calculator.java:79-92 | printing a built tree with single spaces and calculating the text gives the tree's value |
| Calculator.CalculateWithLeftovers | src/main/java/calculator/Calculator.java:267-270 | a complete operand followed by further tokens is a bad expression, though the operand alone would be accepted |
| Calculator.CalculateOfParseError | src/main/java/calculator/Calculator.java:79-92 | an error makeTree reports is the error the calculation reports |
| Examples.ShadowingExample | src/test/java/calculator/MainTest.java:48 | `let(a, let(b, 10, add(b, b)), let(b, 20, add(a, b))` calculates to 40 |
| Examples.NestedLetExample | src/test/java/calculator/MainTest.java:49 | `let(a, 5, let(b, mult(a, 10),add(b, a)))` calculates to 55 |
| Examples.LetDoubleExample | src/test/java/calculator/MainTest.java:50 | `let(a, 5, add(a, a))` calculates to 10 |
| Examples.ProductOfQuotientExample | src/test/java/calculator/MainTest.java:51 | `mult(add(2, 2), div(9, 3))` calculates to 12 |
| Examples.SumOfProductExample | src/test/java/calculator/MainTest.java:52 | `add(1, mult(2, 3))` calculates to 7 |
| Examples.SumExample | src/test/java/calculator/MainTest.java:53 | `add(1, 2)` calculates to 3 |
| Examples.CaseSensitiveExample | src/test/java/calculator/MainTest.java:54 | `let(Let, 5, add(Let, Let))` calculates to 10 |
| Examples.LetValueExample | src/test/java/calculator/MainTest.java:56 | `let(a,5,a)` calculates to 5 |
| Examples.UnusedValueExample | src/test/java/calculator/MainTest.java:57 | `let(a, add(4,6), 5)` calculates to 5 |
| Examples.LetOfOperationExample | src/test/java/calculator/CalculatorTest.java:47-52 | `let(add(2,3), 5, 0)` fails because the first operand of the let is no variable |
| Examples.LeftoverExample | src/test/java/calculator/CalculatorTest.java:58-66 | `add(3,4,2)` is a bad expression |
| Examples.SelfReferenceExample | src/test/java/calculator/CalculatorTest.java:72-77 | `let(a, add(a,6), 5)` fails on the undefined variable `a` |
| Examples.UnboundExample | src/test/java/calculator/CalculatorTest.java:82-87 | `let(a,a,5)` fails on the undefined variable `a` |
| Examples.VariableFirstExample | src/test/java/calculator/CalculatorTest.java:92-97 | `b let(a,a,5) c` fails with a wrong variable position |
| Examples.LetThenVariableExample | src/test/java/calculator/CalculatorTest.java:102-107 | `let(a,a,5) b` is a bad expression, although evaluation would report an undefined variable |
| Examples.NothingExamples | src/test/java/calculator/CalculatorTest.java:113-162 | null, empty, blank and delimiter-only text is a bad expression |
| Examples.UnknownLiteralExample | src/test/java/calculator/CalculatorTest.java:171-179 | `[!` is an unknown literal |
| Examples.MissingOperandExample | src/main/java/calculator/Calculator.java:183-186 | `add(1` is a bad expression: the queue is empty where the second operand should start |
| Examples.NestedUnknownLiteralExample | src/main/java/calculator/Calculator.java:259-262 | `add(1, [!)` is an unknown literal: the error of the second operand is the error of the text |
| Examples.LiteralCornerCases | src/test/java/calculator/TokenTreeTest.java:80-94 | `_`, `A_`, blanks and the empty string are no variable names; `Let` is one and is no keyword |
| Examples.IntBoundaries | src/test/java/calculator/TokenTreeTest.java:128-136 | 2147483647 and -2147483648 are numeric; 2147483648 and -2147483649 are not |
| Examples.SignsAndZeros | src/test/java/calculator/TokenTreeTest.java:115-141 | `00` and `+7` are numeric; ` 1 `, blanks, a lone `-` and `1a` are not |
| Examples.ExtraParenExample | src/main/java/calculator/Calculator.java:67 | parentheses are only delimiters: `add((1, 2)` calculates to 3 |
| Examples.TrailingParensExample | src/main/java/calculator/Calculator.java:67 | surplus closing parentheses are ignored |
| Examples.TruncationExample | src/main/java/calculator/Calculator.java:91 | `div(-7, 2)` calculates to -3: exact division, then truncation toward zero |
| Examples.BindingOutlivesLetExample | src/main/java/calculator/Calculator.java:357 | `add(let(a, 1, a), a)` calculates to 2: a binding made in the left operand is visible in the right one |
| Examples.LeadingDelimiterExample | src/main/java/calculator/Calculator.java:54-67 | ` add(1,2)` is an unknown literal, because of the empty first token |
| Examples.SaturationExample | src/main/java/calculator/Calculator.java:91 | a product beyond the int range is cut to the largest int |

## Left out

- IEEE `double` arithmetic: values are exact reals, so rounding in `+ - * /` is not modelled.
  Integer literals are exact in a double, so `Double.parseDouble` of a numeric token is modelled
  as the integer itself.
- Evaluator.Apply: a zero divisor is a model-only error `DivisionByZero`. Java's double division
  gives an infinity or NaN instead, and the cast then gives the largest or smallest int or 0.
- Calculator.ToInt: models the `(int)` cast on finite values only. NaN and the infinities cannot
  arise, because division by zero is an error here.
- Evaluator.Eval: a read of a field that is null in Java (a `NullPointerException`) is the
  model-only error `NullDereference`. No tree makeTree builds reaches it (`Evaluator.EvalOfWellFormed`).
- Syntax.IsNumeric: accepts an optional sign and ASCII digits only. `Integer.parseInt` also
  accepts other Unicode decimal digits, which `Double.parseDouble` then rejects.
- Syntax.IsLiteral: does not model `$` matching before a final line terminator. No token can
  end in `\n` or `\r` after the split, but one could end in another Java line terminator such as U+2028.
- Syntax.CheckNumeric: follows `Syntax.IsNumeric` on ASCII digits only, as above.
- Syntax.MatchLiteral: follows `Syntax.IsLiteral`, without the final-line-terminator case of `$`.
- `Syntax.IsLiteral` and `Syntax.IsNumeric`, which makeTree uses, take strings because makeTree never passes null.
  The null case of the Java methods is in `Syntax.MatchLiteral` and `Syntax.CheckNumeric`.
- The parent pointer is reduced to a flag, and the root test `n == this.root` becomes "has no parent".
  This is the same thing here, because only the root lacks a parent.
- Calling `TokenTree.evaluate()` a second time on the same TokenTree is not modelled.
  `Calculator.evaluate` always makes a fresh one.
- The no-op `cleanupTree`, stack exhaustion on deeply nested input, the `BadInputException` class
  itself, `AppLogger.java` and `Main.java` are not modelled. The logger and the command-line
  front end are I/O. `Errors.Message` records the text each exception carries.
