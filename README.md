# A verified model of a small Python-like interpreter

This project models the core of a small interpreter for a subset of Python. The interpreter is written in C++. Four parts are modelled:

- **The lexer.** It turns source text into tokens that end in `END_OF_FILE`. Modules `Tokens` and `Lexer`.
- **Expression and statement semantics.** This covers integer arithmetic with floor division, comparisons yielding 0/1, assignment into the current scope, variable lookup, the print statement's output format and left-to-right argument evaluation. Module `Semantics` holds the functions; class `Interpreting.Interpreter` holds the methods. The parser's token cursor is `Parsing.Parser`.
- **Environments.** Frames hold a variable map and a function table, and each frame names its parent. Module `Env`, class `Env.Arena`.
- **The function-call and block mechanism.** Module `Semantics`:
  - a call resolves the function through the caller's scope chain;
  - it makes a child frame of the caller's frame;
  - it checks the argument count;
  - it binds parameters positionally;
  - it runs the body and catches the return signal.

## Design

- **Imperative code is imperative.** Code that changes state step by step keeps that form:
  - the `Lexer` class has `source`, `tokens`, `start` and `current`, with the same scanning loops;
  - the `Parser` cursor moves `current`;
  - `Arena` updates frames in place;
  - the `Interpreter` class holds the environments and the output.

  Each method is proved equal to a function of the old state: `LexAcc`/`ScanAt` for the lexer, and `Semantics.Evaluate`, `ExecutePrint`, `ExecuteBlock`, `CallFunction` and so on for the interpreter. The properties are proved as lemmas about those functions.
- **Environments are an arena.** A parent pointer becomes an index into a sequence of frames, and every parent index is smaller than its child's index. `Rooted` states the invariants: frame 0 is the global environment, and it is the only frame without a parent.
- **Exceptions become `Err` outcomes.** Every `runtime_error` becomes an `Err` outcome carrying the state reached when it was thrown; output already printed stays printed. The `ReturnValue` exception becomes the signal `Returned(v)`, and normal completion is `Completed`.
- **C++ division is written out.** `TruncDiv` and `TruncRem` model C++ `/` and `%`, which truncate toward zero. `FloorDivide` is the correction BinaryExpr applies. `FloorDivideIsFloor` proves the result is the floor for all four sign combinations.
- **Unseen node methods are a parameter.** The `execute` bodies of AssignStmt, IfStmt, ReturnStmt, FunctionStmt and BlockStmt, and the `evaluate` body of CallExpr, are declared in `Parser.hpp` but not defined in the modelled files. They are a `Delegates` parameter. All that is assumed of it (`Sound`) is that it:
  - keeps the arena rooted;
  - never removes a frame or changes a parent;
  - only appends output.

## Behaviour of the source that the model keeps

- **Lookahead skips a character.** For `>`, `<`, `=` and `!`, the lexer looks at the character two past the operator rather than the next one. So `x >  1`, with two spaces, lexes as `x >= 1`, and `x>=1` lexes as `>` then `=` (`LookaheadExamples`).
- **A number is never re-scanned.** The comment at `Lexer.cpp:127` says the lookahead checks whether the next non-space character is alphabetic, so that a digit run followed by a letter, as in `3x`, is re-scanned as an identifier. But the loop at `Lexer.cpp:128-129` stops only at whitespace, so the letter test at line 130 never succeeds. The model follows the code: a digit run is always an INTEGER token whose lexeme is the maximal digit run (`NumberIsMaximalDigitRun`), and the branch is marked unreachable in `TokenizeNumber`.
- **`!=` is lexed but not evaluated.** `NOT_EQUAL` is produced by the lexer but refused by BinaryExpr with "Unsupported binary operator." (`ApplyFails`).
- **Function scope is dynamic.** The local frame of a call is a child of the *caller's* frame, not of the frame where the function was defined (`EnterCall`, `CallEnvironment`).

## Model

| member | source | states |
|---|---|---|
| Tokens.OrdinalBijection | Lexer.hpp:29-34 | TokenType is a closed enumeration of exactly 25 kinds: converting to an integer and back is the identity both ways on 0..24 |
| Tokens.OrdinalInjective | Lexer.hpp:29-34 | distinct token kinds convert to distinct integers |
| Lexer.RunEnd | Lexer.cpp:125 | a scanning loop stops at the first character outside its class or at the end of input, and every character it passed is in the class |
| Lexer.StringClose | Lexer.cpp:164-169 | the string loop, when it stops before the end of input, stops at a quote; `StringCloseSome` and `StringCloseNone` characterise it on every input |
| Lexer.BackslashRunFrom | Lexer.cpp:165-168 | whether a quote is escaped depends only on the backslashes directly before it, counted from any unescaped starting point |
| Lexer.StringCloseFindsFirst | Lexer.cpp:164-169 | when the loop stops at a position, that position holds an unescaped quote (preceded by an even run of backslashes) and no earlier position does; when it runs out of input, there is no unescaped quote at all |
| Lexer.StringCloseSome | Lexer.cpp:164-169 | the loop stops at j exactly when j is the first unescaped quote |
| Lexer.StringCloseNone | Lexer.cpp:164-173 | the loop runs out of input exactly when no quote after the opening one is unescaped |
| Lexer.WordKind | Lexer.cpp:147-160 | a word is PRINT, IF or ELSE exactly when it is `print`, `if` or `else`, and IDENTIFIER exactly otherwise |
| Lexer.ScanAt | Lexer.cpp:54-85 | one scanning step moves the cursor forward and adds at most one token, never END_OF_FILE, SEMICOLON or TAB; it fails only on a quote |
| Lexer.OneCharKind | Lexer.cpp:57-64 | the eight one-character operators and their kinds; `TokenizeOperators` states what each scans to |
| Lexer.Lookahead | Lexer.cpp:89-122 | the shared rule of the four lookahead functions; `LookaheadRule` states it for each operator |
| Lexer.ScanWord | Lexer.cpp:142-161 | the identifier scan; `WordIsMaximalRun` states that it takes the maximal alphanumeric run and classifies it with `WordKind` |
| Lexer.ScanNumber | Lexer.cpp:124-140 | the number scan with its rescan branch; `ScanNumberDigitRun` states that it always yields the INTEGER token of the digit run |
| Lexer.LexAcc | Lexer.cpp:30-39 | the scanning loop applied until the end of input, then the end-of-file token; `LexAccShape` states its shape |
| Lexer.Tokenize | Lexer.cpp:28-39 | lexing a whole source from an empty token list; `TokenizeEndsWithEndOfFile`, `TokenizeOperators` and `CommentToEndOfInput` state its results |
| Lexer.LexAccShape | Lexer.cpp:30-39 | the scan keeps the tokens already produced as a prefix and ends in the end-of-file token; every scanned kind is scannable |
| Lexer.TokenizeEndsWithEndOfFile | Lexer.cpp:30-39 | a successful scan is non-empty and ends in exactly one `Token(END_OF_FILE, "")`; no earlier token is END_OF_FILE, SEMICOLON or TAB |
| Lexer.LexAccOperators | Lexer.cpp:57-64 | a run of one-character operators scans to one token per character, appended in order |
| Lexer.TokenizeOperators | Lexer.cpp:57-64 | each of `+ - * / ( ) , :` is one token of its kind whose lexeme is that character, with one token per character |
| Lexer.OperatorTokensAt | Lexer.cpp:57-64 | the k-th operator token is made from the k-th character |
| Lexer.CommentSkipsLine | Lexer.cpp:70-73 | `#` adds no token and skips to the next newline, which it does not consume, or to the end of input |
| Lexer.CommentToEndOfInput | Lexer.cpp:70-73 | a comment running to the end of input leaves only the end-of-file token |
| Lexer.StringClosesAtFirstQuote | Lexer.cpp:164-169 | without backslashes, the first quote closes a string literal |
| Lexer.StringEscapeSkipped | Lexer.cpp:165-168 | a backslash makes the loop step over the following character, even a quote |
| Lexer.StringWithoutQuote | Lexer.cpp:164-173 | with no quote left, the literal is never closed |
| Lexer.StringTokenLexeme | Lexer.cpp:175-180 | a STRING token's lexeme is the text strictly between the quotes, escapes kept verbatim, and the cursor ends past the closing quote |
| Lexer.UnterminatedStringFails | Lexer.cpp:171-173 | whenever the string loop reaches the end of input (by `StringCloseNone`, whenever no quote after the opening one is unescaped), the whole scan fails with the unterminated-string error, so no STRING token is produced |
| Lexer.EscapedQuoteUnterminated | Lexer.cpp:163-173 | `"a\"` has only an escaped quote after the opening one, so lexing it fails with the unterminated-string error |
| Lexer.EscapedQuoteExample | Lexer.cpp:163-181 | `"a\"b"` lexes to one STRING token `a\"b` and the end marker |
| Lexer.WordIsMaximalRun | Lexer.cpp:142-161 | an alphabetic character starts a maximal alphanumeric run that becomes one keyword or IDENTIFIER token with that lexeme |
| Lexer.LookaheadRule | Lexer.cpp:89-122 | for `> < = !`, a space two past the operator gives the compound token and consumes one extra character; otherwise GREATER, LESS or ASSIGN, and nothing for `!` |
| Lexer.LookaheadExamples | Lexer.cpp:89-96 | `x >= 1` and `x >  1` both give GREATER_EQUAL; `x>=1` gives GREATER followed by ASSIGN |
| Lexer.ScanNumberDigitRun | Lexer.cpp:124-140 | the lookahead of tokenizeNumber never stops at a letter, so a number scan always yields INTEGER with the digit run as lexeme |
| Lexer.NumberIsMaximalDigitRun | Lexer.cpp:124-140 | a digit starts one INTEGER token whose lexeme is the maximal digit run; the identifier fallback never fires |
| Lexer.OtherCharacters | Lexer.cpp:74-83 | whitespace adds no token; any other unclaimed character is one UNKNOWN token with that character as lexeme |
| Lexer.Lexer.constructor | Lexer.cpp:28 | a new lexer holds the source, an empty token list and `start = current = 0` |
| Lexer.Lexer.IsAtEnd | Lexer.cpp:45-47 | the loop condition of `Tokenize`: the method's contract says its result is `LexAcc` from the cursor, which stops exactly at the end of the source |
| Lexer.Lexer.Peek | Lexer.cpp:184-187 | the character under the cursor, NUL at the end; the loops of TokenizeNumber, TokenizeIdentifier and SkipComment that call it are proved to stop where `RunEnd` says |
| Lexer.Lexer.Advance | Lexer.cpp:49-52 | returns the character under the cursor and moves past it |
| Lexer.Lexer.AddToken | Lexer.cpp:41-43 | appends exactly `Token(kind, text)` to the token list |
| Lexer.Lexer.Tokenize | Lexer.cpp:30-39 | the loop yields the functional scan `LexAcc` from the current state, and on success the token list is that result |
| Lexer.Lexer.ScanToken | Lexer.cpp:54-85 | one pass of the switch appends exactly the tokens of `ScanAt` and leaves the cursor where it says, or reports the unterminated string |
| Lexer.Lexer.TokenizeGreater | Lexer.cpp:89-96 | appends `>=` and skips a character when the character after next is a space, otherwise appends `>` |
| Lexer.Lexer.TokenizeLess | Lexer.cpp:97-104 | the same rule for `<=` and `<` |
| Lexer.Lexer.TokenizeNotEqual | Lexer.cpp:105-111 | appends `!=` under the same rule, otherwise nothing |
| Lexer.Lexer.TokenizeEqual | Lexer.cpp:114-122 | the same rule for `==` and `=` |
| Lexer.Lexer.TokenizeNumber | Lexer.cpp:124-140 | the cursor ends after the maximal digit run and exactly one INTEGER token of that run is appended; the rescan branch is proved unreachable |
| Lexer.Lexer.SkipComment | Lexer.cpp:70-73 | the comment loop stops at the first newline after the cursor, or at the end of input |
| Lexer.Lexer.TokenizeIdentifier | Lexer.cpp:142-161 | consumes the alphanumeric run and appends the keyword or identifier token for the text from `start` |
| Lexer.Lexer.TokenizeString | Lexer.cpp:163-181 | succeeds exactly when the literal closes, appending the text between the quotes and ending past the closing quote |
| Env.Chain | Env.hpp:40-48 | the environments a lookup visits: it starts at the given one, follows parents, and ends at one without a parent |
| Env.WithValue | Env.hpp:29-31 | define inserts or overwrites the name in that environment's own map only; no other environment, no function table and no parent changes |
| Env.WithFunction | Env.cpp:4-6 | defineFunction inserts or overwrites in that environment's own function table only |
| Env.ChainEndsAtGlobal | Env.hpp:22 | the global environment, built without parent, ends every lookup chain |
| Env.Lookup | Env.hpp:40-48 | get: a failure is always the undefined-variable error for that name; `LookupInnermost` and `LookupUndefined` state when it succeeds and with what |
| Env.LookupInnermost | Env.hpp:40-44 | get returns the binding of the innermost environment of the chain that has the name, so inner bindings shadow outer ones |
| Env.LookupUndefined | Env.hpp:40-48 | get fails exactly when no environment in the chain binds the name, and then with "Variable '…' is not defined." |
| Env.LookupFunction | Env.cpp:8-16 | getFunction: a failure is always the undefined-function error for that name; `GetFunctionOwnEntry`, `GetFunctionDelegates` and `LookupFunctionUndefined` state the rest |
| Env.GetFunctionOwnEntry | Env.cpp:9-11 | getFunction returns this environment's own entry when present |
| Env.GetFunctionDelegates | Env.cpp:12-15 | otherwise getFunction asks the parent, or fails at an environment without parent |
| Env.LookupFunctionUndefined | Env.cpp:8-16 | getFunction fails exactly when no environment in the chain has the name, with "Function '…' is not defined." |
| Env.GetAfterDefine | Env.hpp:29-42 | after `define(n, v)`, `get(n)` on the same environment gives v |
| Env.DefineOtherName | Env.hpp:29-31 | define changes the lookup of no other name from any environment |
| Env.DefineOffChain | Env.hpp:29-31 | define is invisible from every environment whose chain avoids it, in particular from every ancestor |
| Env.DefineInChainResolves | Env.hpp:40-44 | a name defined in any environment of the chain resolves afterwards |
| Env.GetFunctionAfterDefineFunction | Env.cpp:4-11 | after defineFunction, getFunction on the same environment gives the new entry |
| Env.TablesIndependent | Env.cpp:4-6 | defining a variable never changes a function lookup, and defining a function never changes a variable lookup |
| Env.LookupExtend | Env.hpp:22 | creating environments changes no lookup from an existing one |
| Env.ChildLookup | Env.hpp:22 | a new child environment binds nothing itself: every lookup in it is the lookup in its parent |
| Env.Arena.constructor | Env.hpp:22 | the arena starts with one environment, without parent and with empty maps |
| Env.Arena.NewEnvironment | Env.hpp:22 | appends an empty environment whose parent is the given one and returns its handle |
| Env.Arena.Define | Env.hpp:29-31 | the arena becomes `WithValue` of the old one and stays rooted |
| Env.Arena.DefineFunction | Env.cpp:4-6 | the arena becomes `WithFunction` of the old one and stays rooted |
| Parsing.Parser.constructor | Parser.hpp:418-419 | the cursor starts at 0 over the given tokens |
| Parsing.Parser.Peek | Parser.hpp:375-378 | the token under the cursor, the last token at the end; always an element of the vector |
| Parsing.Parser.Check | Parser.hpp:401-404 | true exactly when not at the end and the next token has the kind |
| Parsing.Parser.Previous | Parser.hpp:406-408 | the token before the cursor, or the out-of-range failure when there is none; after Advance, Match or Consume steps over a token, Previous returns that token |
| Parsing.Parser.Advance | Parser.hpp:368-373 | returns the peeked token and moves by one unless at the end; when it moved, Previous gives the returned token |
| Parsing.Parser.Match | Parser.hpp:380-388 | true exactly when the next token has one of the listed kinds, moving by exactly one then, after which Previous gives the matched token, and not at all otherwise |
| Parsing.Parser.Consume | Parser.hpp:390-399 | moves by one when Check holds, after which Previous gives the consumed token; otherwise fails with the message, " instead found " and the next lexeme, without moving |
| Semantics.InitialState | Interpreter.hpp:40 | the interpreter starts with exactly one environment, the global one, as the root of its own chain |
| Semantics.TruncDiv | Parser.hpp:108 | C++ `/`: the quotient truncated toward zero; `TruncRem` and `TruncSplit` state its relation to the remainder |
| Semantics.TruncRem | Parser.hpp:108 | C++ `%`: the dividend is divisor times truncated quotient plus remainder, the remainder is smaller than the divisor and has the dividend's sign |
| Semantics.TruncSplit | Parser.hpp:106-108 | the truncated remainder's magnitude is the remainder of the magnitudes |
| Semantics.FloorDivide | Parser.hpp:105-111 | the truncated quotient minus one when the signs differ and the division is inexact; `FloorDivideIsFloor` proves it is the floor |
| Semantics.FloorDivideIsFloor | Parser.hpp:105-111 | the corrected quotient q satisfies q·b ≤ a < q·b + b for b > 0 and q·b + b < a ≤ q·b for b < 0: it is the floor of a/b |
| Semantics.FloorDividePositive | Parser.hpp:105-111 | for a positive divisor the corrected quotient equals Euclidean division |
| Semantics.FloorDivideExamples | Parser.hpp:105-111 | 7/2 = 3, -7/2 = -4, 7/-2 = -4, -7/-2 = 3, -6/2 = -3 |
| Semantics.Apply | Parser.hpp:97-125 | the switch of BinaryExpr on its operator; `ArithmeticResults`, `ComparisonIsBoolean` and `ApplyFails` state each case |
| Semantics.ComparisonIsBoolean | Parser.hpp:112-122 | `== <= < > >=` give exactly 0 or 1, and 1 exactly when the relation holds |
| Semantics.ArithmeticResults | Parser.hpp:98-111 | PLUS, MINUS and MUL give sum, difference and product; DIV by 0 raises "Division by zero."; otherwise DIV gives the floor quotient |
| Semantics.ApplyFails | Parser.hpp:97-125 | an operator fails exactly when it is neither arithmetic nor a comparison, or divides by 0; NOT_EQUAL raises "Unsupported binary operator." |
| Semantics.Evaluate | Parser.hpp:93-187 | evaluating keeps the arena rooted, removes no environment, changes no parent and only appends output |
| Semantics.EvaluatePure | Parser.hpp:93-164 | an expression without assignment or call changes nothing and yields its value, read through the scope chain |
| Semantics.LeftOperandFirst | Parser.hpp:94-95 | the left operand is evaluated first; if it fails the right is never evaluated, otherwise the right runs in the state the left leaves |
| Semantics.DivisionByZeroRaised | Parser.hpp:101-104 | a division whose right operand evaluates to 0 raises "Division by zero." |
| Semantics.AssignDefinesHere | Parser.hpp:183-187 | an assignment yields its right-hand side's value, binds it in the current environment only, and leaves every other environment as the right-hand side left it |
| Semantics.ChainedAssignment | Parser.hpp:183-187 | `a = b = 5` yields 5 and binds both names to 5, printing nothing |
| Semantics.ArgumentsFrom | Parser.hpp:254-260 | one value is pushed per argument, after the values already pushed, and the state only extends |
| Semantics.EvaluateArguments | Parser.hpp:254-260 | on success the value list has as many elements as there are arguments |
| Semantics.ArgumentsFromSnoc | Parser.hpp:256-258 | the last argument is evaluated after all others, in the state they leave, and its value goes last |
| Semantics.ArgumentsInOrder | Parser.hpp:254-260 | the same for a whole argument list: left-to-right evaluation, values in order |
| Semantics.PureArguments | Parser.hpp:254-260 | with side-effect-free arguments the i-th value is the value of the i-th argument and nothing changes |
| Semantics.DigitsOf | Parser.hpp:296 | the decimal digits of a natural number: non-empty, digits only, no leading zero |
| Semantics.Decimal | Parser.hpp:296 | `std::cout << n`: non-empty, starting with `-` exactly for negative n |
| Semantics.DigitsRoundTrip | Parser.hpp:296 | reading the printed digits back gives the number |
| Semantics.DecimalRoundTrip | Parser.hpp:296 | every printed int is a numeral that reads back as that int |
| Semantics.ExecutePrint | Parser.hpp:290-301 | printing only appends output, keeps the state rooted and completes normally when it succeeds |
| Semantics.PrintItem | Parser.hpp:291-298 | printing one item only extends the state and completes normally when it succeeds |
| Semantics.PrintStepPure | Parser.hpp:291-298 | a side-effect-free item writes its rendering and one space before the rest, or fails without writing |
| Semantics.PrintPure | Parser.hpp:290-301 | for side-effect-free items the environments are untouched; printing fails exactly when an item fails, otherwise it appends each item followed by a space, then a newline |
| Semantics.PrintExample | Parser.hpp:290-301 | `print "x =", -7 / 2` writes `x = -4 ` and a newline |
| Semantics.Execute | Interpreter.cpp:35-37 | executing a statement keeps the arena rooted and only extends the state |
| Semantics.ExpressionStatementEffects | Parser.hpp:310-312 | an expression statement has exactly its expression's effects, drops the value and completes normally when the expression succeeds |
| Semantics.ExecuteBlock | Interpreter.cpp:42-51 | running a block keeps the arena rooted and only extends the state |
| Semantics.BlockAppend | Interpreter.cpp:44-46 | statements run in order in the given environment: a block of two parts runs the second part exactly when the first completes normally |
| Semantics.ReturnEndsBlock | Interpreter.cpp:47-50 | a statement that returns ends the block, and the signal reaches the caller unchanged |
| Semantics.BindAll | Interpreter.cpp:111-113 | binding changes only the local environment's variable map |
| Semantics.BindAllBinds | Interpreter.cpp:111-113 | after binding, parameter i holds argument i (the last of a repeated name wins), other names are kept, and nothing else is bound |
| Semantics.EnterCall | Interpreter.cpp:104-113 | the call's environment is new, its parent is the caller's environment, and the caller's environments are untouched |
| Semantics.CallEnvironment | Interpreter.cpp:104-113 | in the call's environment each parameter resolves to its argument; other names and all functions resolve as in the caller's environment |
| Semantics.CallFunction | Interpreter.cpp:97-122 | a call keeps the arena rooted and only extends the state |
| Semantics.CallUndefined | Interpreter.cpp:98-101 | a name no environment of the caller's chain defines fails with "Function '…' is not defined." and changes nothing |
| Semantics.CallArity | Interpreter.cpp:106-109 | a wrong argument count fails with "Incorrect number of arguments…" before the body runs: nothing printed, no existing environment changed |
| Semantics.CallRunsBody | Interpreter.cpp:115-121 | otherwise the body runs in the call's environment; a return signal's value is the result, normal completion gives 0, an error propagates |
| Semantics.DefineFunction | Interpreter.cpp:133-135 | defineFunction writes the global environment's table and prints nothing |
| Semantics.DefinedFunctionVisible | Interpreter.cpp:133-135 | a globally defined function is found from every environment whose chain has no local function of that name |
| Semantics.Interpret | Interpreter.hpp:43-49 | an empty tree does nothing; otherwise the root runs once, in the global environment |
| Interpreting.Interpreter.constructor | Interpreter.hpp:36-40 | a new interpreter owns exactly the global environment and has printed nothing |
| Interpreting.Interpreter.Evaluate | Interpreter.cpp:26-30 | evaluating step by step, with assignment defining in place, gives the result and state of `Semantics.Evaluate` |
| Interpreting.Interpreter.ConvertArgumentsToValues | Parser.hpp:254-260 | the push_back loop gives the result and state of `EvaluateArguments` |
| Interpreting.Interpreter.ExecutePrint | Parser.hpp:290-301 | the output loop gives the result and state of `Semantics.ExecutePrint` |
| Interpreting.Interpreter.Execute | Interpreter.cpp:35-37 | gives the result and state of `Semantics.Execute` |
| Interpreting.Interpreter.ExecuteBlock | Interpreter.cpp:42-51 | the statement loop gives the result and state of `Semantics.ExecuteBlock` |
| Interpreting.Interpreter.CallFunction | Interpreter.cpp:97-122 | creating the frame, the binding loop and the signal handling give the result and state of `Semantics.CallFunction` |
| Interpreting.Interpreter.DefineFunction | Interpreter.cpp:133-135 | the state becomes `Semantics.DefineFunction` of the old one |
| Interpreting.Interpreter.Interpret | Interpreter.hpp:43-49 | gives the result and state of `Semantics.Interpret` |

## Left out

- **The command-line entry point and file reading** (`mypython.cpp`). This is I/O glue, and it calls a Parser constructor that does not exist.
- **Output duplication and the `make_unique` polyfill** (`Utilities.cpp`, `Utilities.hpp`). Neither is part of this model.
- **The recursive-descent `parse*` methods and `synchronize`.** They are declared but not defined in the modelled files, so only the token cursor is modelled.
- **Node methods that are declared but not defined.** `execute` of AssignStmt, IfStmt, ReturnStmt, FunctionStmt and BlockStmt, and `evaluate`/`execute` of CallExpr, are the `Delegates` parameter. Nothing is assumed about what they do beyond `Sound`.
- **Debugging output.** This covers the expression nodes' `execute` methods, `Parser::error`, `executeFunction`'s message, and the debug line in `Parser::advance`. `Parser::consume` prints a diagnostic to stderr before throwing; only the thrown message is modelled.
- **The `Interpreter&` reference held by Parser and CallExpr.** It has no effect on the behaviour modelled here.
- **The null check on the function pointer in `callFunction`** (`Interpreter.cpp:99-101`). In the model a function table entry is a value, so a null entry is never stored and the check is not modelled. Whether a C++ caller of `defineFunction` can store a null pointer depends on code outside the modelled files; `getFunction` itself throws for a missing name rather than returning null.
- **32-bit `int` overflow.** Integers are unbounded, so overflow of `+ - *` and `INT_MIN / -1` are not modelled.
- **Out-of-range reads in the lexer.** `source[current+1]` in the four lookahead functions reads NUL past the end (`CharAt`). The whitespace search in `tokenizeNumber` stops at the end of input instead of reading past it.
- **`Lexer.Lexer.TokenizeString` does not advance past the end.** A backslash as the last character makes the C++ loop advance one place past the end of the source. The model stops at the end instead, and the outcome is the same error.
- **Memory management.** Ownership through `unique_ptr` and `shared_ptr` is not modelled. A call's local environment stays in the arena after the call, unreachable from any other environment, where the C++ destroys it.
- **Bytes and `<cctype>`.** The C++ walks the bytes of a `std::string` and classifies them with `isdigit`, `isalpha`, `isalnum` and `isspace`. The model reads the source as a sequence of characters and classifies only ASCII. It is faithful for ASCII input only: `é` is one UNKNOWN token here but two bytes, so two UNKNOWN tokens, in the C++, and the `<cctype>` functions are undefined on the negative `char` values of non-ASCII bytes.
- **The flush done by `std::endl`.** Output is a string that only grows.
