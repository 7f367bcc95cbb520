/** What evaluating an expression, executing a statement and calling a
    function do, as functions from a state to an outcome.

    A state is the arena of environments together with everything printed so
    far. C++ exceptions become an `Err` outcome that carries the state reached
    when the exception was thrown; the ReturnValue exception becomes the
    `Returned` signal. The `execute` bodies of AssignStmt, IfStmt, ReturnStmt,
    FunctionStmt and BlockStmt and the `evaluate` body of CallExpr are not part
    of this model: they are the `Delegates` parameter, of which nothing is
    assumed beyond `Sound` (they keep the arena well formed, never drop an
    environment or change a parent, and only append output). */
module Semantics {
  import opened Wrappers
  import opened Tokens
  import opened Ast
  import opened Env

  datatype State = State(frames: seq<Frame>, output: string)

  ghost predicate ValidState(st: State) {
    Rooted(st.frames)
  }

  /** `next` may follow `st`: still rooted, no environment removed, no parent
      changed, and the output only extended. */
  ghost predicate Extends(st: State, next: State) {
    && Rooted(next.frames)
    && |st.frames| <= |next.frames|
    && (forall i :: 0 <= i < |st.frames| ==> next.frames[i].parent == st.frames[i].parent)
    && st.output <= next.output
  }

  lemma ExtendsTransitive(a: State, b: State, c: State)
    requires Extends(a, b) && Extends(b, c)
    ensures Extends(a, c)
  {
    assert c.output[..|b.output|][..|a.output|] == c.output[..|a.output|];
  }

  /** Printing an item and its separator extends the state. */
  lemma AppendExtends(st: State, text: string, separator: string)
    requires ValidState(st)
    ensures Extends(st, st.(output := st.output + text + separator))
  {
    assert (st.output + text + separator)[..|st.output|] == st.output;
  }

  datatype Outcome<T> = Outcome(result: Result<T>, state: State)

  /** How a statement ends: normally, or by a `return` carrying its value. */
  datatype Signal = Completed | Returned(value: int)

  /** The node methods whose bodies are outside this model. */
  datatype Delegates = Delegates(
    execute: (Stmt, nat, State) -> Outcome<Signal>,
    evaluateCall: (Expr, nat, State) -> Outcome<int>)

  ghost predicate Sound(d: Delegates) {
    && (forall s, h: nat, st :: ValidState(st) && h < |st.frames| ==> Extends(st, d.execute(s, h, st).state))
    && (forall e, h: nat, st :: ValidState(st) && h < |st.frames| ==> Extends(st, d.evaluateCall(e, h, st).state))
  }

  /** The state of a freshly constructed interpreter: only the global
      environment, and nothing printed. */
  function InitialState(): (st: State)
    ensures ValidState(st) && |st.frames| == 1
    ensures Chain(st.frames, 0) == [0]
  {
    State([NewFrame(None)], "")
  }

  // ---------------------------------------------------------------------
  // C++ integer division

  function Abs(n: int): nat {
    if n < 0 then -n else n
  }

  /** C++ `/` on int: the quotient truncated toward zero. */
  function TruncDiv(a: int, b: int): int
    requires b != 0
  {
    var q := Abs(a) / Abs(b);
    if (a < 0) != (b < 0) then -q else q
  }

  /** C++ `%` on int: the remainder that goes with the truncated quotient, so
      it has the sign of the dividend and is smaller than the divisor. */
  function TruncRem(a: int, b: int): (r: int)
    requires b != 0
    ensures a == b * TruncDiv(a, b) + r
    ensures Abs(r) < Abs(b)
    ensures r != 0 ==> (r < 0 <==> a < 0)
  {
    TruncSplit(a, b);
    a - b * TruncDiv(a, b)
  }

  lemma TruncSplit(a: int, b: int)
    requires b != 0
    ensures var r := a - b * TruncDiv(a, b);
      && Abs(r) == Abs(a) % Abs(b)
      && (a < 0 ==> r <= 0) && (a >= 0 ==> r >= 0)
  {
    var A: int, B: int := Abs(a), Abs(b);
    var q, m := A / B, A % B;
    assert A == B * q + m && 0 <= m < B;
    var t := TruncDiv(a, b);
    if a >= 0 && b > 0 {
      assert a == A && b == B && t == q;
    } else if a >= 0 {
      assert a == A && b == -B && t == -q;
      assert b * t == B * q;
    } else if b > 0 {
      assert a == -A && b == B && t == -q;
      assert b * t == -(B * q);
    } else {
      assert a == -A && b == -B && t == q;
      assert b * t == -(B * q);
    }
  }

  /** The quotient BinaryExpr computes for `/`: the truncated quotient, less
      one when the operands' signs differ and the division is not exact. */
  function FloorDivide(a: int, b: int): int
    requires b != 0
  {
    var result := TruncDiv(a, b);
    if ((a < 0) != (b < 0)) && TruncRem(a, b) != 0 then result - 1 else result
  }

  /** That quotient is the floor of a/b, for every sign of either operand. */
  lemma FloorDivideIsFloor(a: int, b: int)
    requires b != 0
    ensures b > 0 ==> FloorDivide(a, b) * b <= a < FloorDivide(a, b) * b + b
    ensures b < 0 ==> FloorDivide(a, b) * b + b < a <= FloorDivide(a, b) * b
  {
    var t, r := TruncDiv(a, b), TruncRem(a, b);
    assert a == t * b + r;
    if ((a < 0) != (b < 0)) && r != 0 {
      assert FloorDivide(a, b) * b == t * b - b;
    }
  }

  lemma BelowOne(k: int, b: int)
    requires b > 0 && k * b < b
    ensures k < 1
  {
    assert k * b == (k - 1) * b + b;
  }

  /** Two integers that both pass the floor test for a positive divisor are
      the same integer. */
  lemma FloorUnique(a: int, b: int, p: int, q: int)
    requires b > 0
    requires p * b <= a < p * b + b
    requires q * b <= a < q * b + b
    ensures p == q
  {
    assert (p - q) * b == p * b - q * b;
    BelowOne(p - q, b);
    assert (q - p) * b == q * b - p * b;
    BelowOne(q - p, b);
  }

  /** For a positive divisor the floor is Dafny's own division. */
  lemma FloorDividePositive(a: int, b: int)
    requires b > 0
    ensures FloorDivide(a, b) == a / b
  {
    FloorDivideIsFloor(a, b);
    assert (a / b) * b + a % b == a;
    FloorUnique(a, b, FloorDivide(a, b), a / b);
  }

  lemma FloorDivideExamples()
    ensures FloorDivide(7, 2) == 3
    ensures FloorDivide(-7, 2) == -4
    ensures FloorDivide(7, -2) == -4
    ensures FloorDivide(-7, -2) == 3
    ensures FloorDivide(-6, 2) == -3
  {
  }

  // ---------------------------------------------------------------------
  // Binary operators

  predicate IsComparison(op: TokenKind) {
    op == EQUAL || op == LESS_EQUAL || op == LESS || op == GREATER || op == GREATER_EQUAL
  }

  predicate IsArithmetic(op: TokenKind) {
    op == PLUS || op == MINUS || op == MUL || op == DIV
  }

  /** The switch of BinaryExpr::evaluate, applied to the two operand values. */
  function Apply(op: TokenKind, l: int, r: int): Result<int> {
    match op
    case PLUS => Ok(l + r)
    case MINUS => Ok(l - r)
    case MUL => Ok(l * r)
    case DIV => if r == 0 then Err(DivisionByZero) else Ok(FloorDivide(l, r))
    case EQUAL => Ok(if l == r then 1 else 0)
    case LESS_EQUAL => Ok(if l <= r then 1 else 0)
    case LESS => Ok(if l < r then 1 else 0)
    case GREATER => Ok(if l > r then 1 else 0)
    case GREATER_EQUAL => Ok(if l >= r then 1 else 0)
    case _ => Err(UnsupportedOperator)
  }

  /** The relation each comparison tests. */
  predicate Holds(op: TokenKind, l: int, r: int)
    requires IsComparison(op)
  {
    match op
    case EQUAL => l == r
    case LESS_EQUAL => l <= r
    case LESS => l < r
    case GREATER => l > r
    case GREATER_EQUAL => l >= r
  }

  /** A comparison yields exactly 0 or 1, and 1 exactly when it holds. */
  lemma ComparisonIsBoolean(op: TokenKind, l: int, r: int)
    requires IsComparison(op)
    ensures Apply(op, l, r).Ok?
    ensures Apply(op, l, r).value == 0 || Apply(op, l, r).value == 1
    ensures Apply(op, l, r).value == 1 <==> Holds(op, l, r)
  {
  }

  /** The arithmetic operators give the sum, difference, product and floor
      quotient; division by zero is the only arithmetic failure. */
  lemma ArithmeticResults(op: TokenKind, l: int, r: int)
    requires IsArithmetic(op)
    ensures op == PLUS ==> Apply(op, l, r) == Ok(l + r)
    ensures op == MINUS ==> Apply(op, l, r) == Ok(l - r)
    ensures op == MUL ==> Apply(op, l, r) == Ok(l * r)
    ensures op == DIV && r == 0 ==> Apply(op, l, r) == Err(DivisionByZero)
    ensures op == DIV && r > 0 ==> Apply(op, l, r) == Ok(l / r)
    ensures op == DIV && r != 0 ==> Apply(op, l, r).Ok? && Apply(op, l, r).value == FloorDivide(l, r)
  {
    if op == DIV && r > 0 {
      FloorDividePositive(l, r);
    }
  }

  /** Every other token kind, NOT_EQUAL included, is refused. */
  lemma ApplyFails(op: TokenKind, l: int, r: int)
    ensures Apply(op, l, r).Err? <==> (!IsArithmetic(op) && !IsComparison(op)) || (op == DIV && r == 0)
    ensures !IsArithmetic(op) && !IsComparison(op) ==> Apply(op, l, r) == Err(UnsupportedOperator)
    ensures Apply(NOT_EQUAL, l, r) == Err(UnsupportedOperator)
  {
  }

  // ---------------------------------------------------------------------
  // Expressions

  /** Expressions: BinaryExpr evaluates its left operand, then its right, in
      the same environment; AssignExpr defines the name in the environment it
      is evaluated in; a string literal is worth 0. */
  function Evaluate(d: Delegates, e: Expr, h: nat, st: State): (o: Outcome<int>)
    requires Sound(d) && ValidState(st) && h < |st.frames|
    ensures Extends(st, o.state)
    decreases e
  {
    match e
    case BinaryExpr(left, op, right) =>
      var l := Evaluate(d, left, h, st);
      (match l.result
       case Err(error) => Outcome(Err(error), l.state)
       case Ok(lv) =>
         var r := Evaluate(d, right, h, l.state);
         ExtendsTransitive(st, l.state, r.state);
         match r.result
         case Err(error) => Outcome(Err(error), r.state)
         case Ok(rv) => Outcome(Apply(op, lv, rv), r.state))
    case LiteralExpr(value) => Outcome(Ok(value), st)
    case VarExpr(name) => Outcome(Lookup(st.frames, h, name), st)
    case AssignExpr(name, rhs) =>
      var v := Evaluate(d, rhs, h, st);
      (match v.result
       case Err(error) => Outcome(Err(error), v.state)
       case Ok(value) => Outcome(Ok(value), v.state.(frames := WithValue(v.state.frames, h, name, value))))
    case StringLiteralExpr(_) => Outcome(Ok(0), st)
    case CallExpr(_, _) => d.evaluateCall(e, h, st)
  }

  /** An expression without assignment or call. */
  predicate Pure(e: Expr) {
    match e
    case BinaryExpr(left, _, right) => Pure(left) && Pure(right)
    case LiteralExpr(_) => true
    case VarExpr(_) => true
    case StringLiteralExpr(_) => true
    case _ => false
  }

  /** The value of a pure expression, read off the arena without changing it;
      the first failing operand, from the left, gives the error. */
  function Value(e: Expr, a: seq<Frame>, h: nat): Result<int>
    requires Pure(e) && WellFormed(a) && h < |a|
  {
    match e
    case BinaryExpr(left, op, right) =>
      (match Value(left, a, h)
       case Err(error) => Err(error)
       case Ok(l) =>
         match Value(right, a, h)
         case Err(error) => Err(error)
         case Ok(r) => Apply(op, l, r))
    case LiteralExpr(value) => Ok(value)
    case VarExpr(name) => Lookup(a, h, name)
    case StringLiteralExpr(_) => Ok(0)
  }

  /** Evaluating a pure expression changes nothing and gives its value. */
  lemma {:induction false} EvaluatePure(d: Delegates, e: Expr, h: nat, st: State)
    requires Sound(d) && ValidState(st) && h < |st.frames| && Pure(e)
    ensures Evaluate(d, e, h, st) == Outcome(Value(e, st.frames, h), st)
  {
    if e.BinaryExpr? {
      EvaluatePure(d, e.left, h, st);
      EvaluatePure(d, e.right, h, st);
    }
  }

  /** The left operand is evaluated first: when it fails, the right one is
      never evaluated and its effects never happen. When it succeeds, the
      right operand runs in the state the left one left behind. */
  lemma LeftOperandFirst(d: Delegates, left: Expr, op: TokenKind, right: Expr, h: nat, st: State)
    requires Sound(d) && ValidState(st) && h < |st.frames|
    ensures var l := Evaluate(d, left, h, st);
      var o := Evaluate(d, BinaryExpr(left, op, right), h, st);
      && (l.result.Err? ==> o == Outcome(Err(l.result.error), l.state))
      && (l.result.Ok? ==> o.state == Evaluate(d, right, h, l.state).state)
  {
  }

  /** A division whose right operand evaluates to 0 raises DivisionByZero. */
  lemma DivisionByZeroRaised(d: Delegates, left: Expr, right: Expr, h: nat, st: State)
    requires Sound(d) && ValidState(st) && h < |st.frames|
    requires Evaluate(d, left, h, st).result.Ok?
    requires Evaluate(d, right, h, Evaluate(d, left, h, st).state).result == Ok(0)
    ensures Evaluate(d, BinaryExpr(left, DIV, right), h, st).result == Err(DivisionByZero)
  {
  }

  /** An assignment yields the value of its right-hand side, binds the name
      to it in the current environment, changes no other environment and no
      other name, and prints nothing of its own. */
  lemma AssignDefinesHere(d: Delegates, name: string, rhs: Expr, h: nat, st: State)
    requires Sound(d) && ValidState(st) && h < |st.frames|
    ensures var v := Evaluate(d, rhs, h, st);
      var o := Evaluate(d, AssignExpr(name, rhs), h, st);
      && o.result == v.result
      && o.state.output == v.state.output
      && |o.state.frames| == |v.state.frames|
      && (o.result.Ok? ==> Lookup(o.state.frames, h, name) == o.result)
      && (o.result.Ok? ==> o.state.frames[h].values == v.state.frames[h].values[name := o.result.value])
      && (forall g :: 0 <= g < |v.state.frames| && g != h ==> o.state.frames[g] == v.state.frames[g])
  {
    var v := Evaluate(d, rhs, h, st);
    if v.result.Ok? {
      GetAfterDefine(v.state.frames, h, name, v.result.value);
    }
  }

  /** `a = b = 5` binds both names to 5 in the current environment. */
  lemma ChainedAssignment(d: Delegates, a: string, b: string, v: int, h: nat, st: State)
    requires Sound(d) && ValidState(st) && h < |st.frames|
    ensures var o := Evaluate(d, AssignExpr(a, AssignExpr(b, LiteralExpr(v))), h, st);
      && o.result == Ok(v)
      && o.state.output == st.output
      && Lookup(o.state.frames, h, a) == Ok(v)
      && Lookup(o.state.frames, h, b) == Ok(v)
  {
    var inner := WithValue(st.frames, h, b, v);
    var lit := Evaluate(d, LiteralExpr(v), h, st);
    assert lit == Outcome(Ok(v), st);
    var mid := Evaluate(d, AssignExpr(b, LiteralExpr(v)), h, st);
    assert mid == Outcome(Ok(v), st.(frames := inner));
    GetAfterDefine(st.frames, h, b, v);
    GetAfterDefine(inner, h, a, v);
    if a != b {
      DefineOtherName(inner, h, a, v, h, b);
    }
  }

  // ---------------------------------------------------------------------
  // Arguments

  /** convertArgumentsToValues: the arguments evaluated left to right in the
      same environment, each value pushed onto `acc`. */
  function ArgumentsFrom(d: Delegates, args: seq<Expr>, h: nat, st: State, acc: seq<int>): (o: Outcome<seq<int>>)
    requires Sound(d) && ValidState(st) && h < |st.frames|
    ensures Extends(st, o.state)
    ensures o.result.Ok? ==> |o.result.value| == |acc| + |args| && o.result.value[..|acc|] == acc
    decreases |args|
  {
    if |args| == 0 then Outcome(Ok(acc), st)
    else
      var first := Evaluate(d, args[0], h, st);
      match first.result
      case Err(error) => Outcome(Err(error), first.state)
      case Ok(value) =>
        var rest := ArgumentsFrom(d, args[1..], h, first.state, acc + [value]);
        ExtendsTransitive(st, first.state, rest.state);
        assert rest.result.Ok? ==> rest.result.value[..|acc|] == (acc + [value])[..|acc|];
        rest
  }

  function EvaluateArguments(d: Delegates, args: seq<Expr>, h: nat, st: State): (o: Outcome<seq<int>>)
    requires Sound(d) && ValidState(st) && h < |st.frames|
    ensures Extends(st, o.state)
    ensures o.result.Ok? ==> |o.result.value| == |args|
  {
    ArgumentsFrom(d, args, h, st, [])
  }

  /** The last argument is evaluated after all the others, in the state they
      leave behind, and its value goes last. */
  lemma {:induction false} ArgumentsFromSnoc(d: Delegates, args: seq<Expr>, e: Expr, h: nat, st: State, acc: seq<int>)
    requires Sound(d) && ValidState(st) && h < |st.frames|
    ensures var o := ArgumentsFrom(d, args, h, st, acc);
      ArgumentsFrom(d, args + [e], h, st, acc) ==
        if o.result.Err? then o
        else
          var last := Evaluate(d, e, h, o.state);
          if last.result.Err? then Outcome(Err(last.result.error), last.state)
          else Outcome(Ok(o.result.value + [last.result.value]), last.state)
    decreases |args|
  {
    if |args| == 0 {
      assert [] + [e] == [e];
      assert ([e])[1..] == [];
    } else {
      assert (args + [e])[0] == args[0];
      assert (args + [e])[1..] == args[1..] + [e];
      var first := Evaluate(d, args[0], h, st);
      if first.result.Ok? {
        ArgumentsFromSnoc(d, args[1..], e, h, first.state, acc + [first.result.value]);
      }
    }
  }

  lemma ArgumentsInOrder(d: Delegates, args: seq<Expr>, e: Expr, h: nat, st: State)
    requires Sound(d) && ValidState(st) && h < |st.frames|
    ensures var o := EvaluateArguments(d, args, h, st);
      EvaluateArguments(d, args + [e], h, st) ==
        if o.result.Err? then o
        else
          var last := Evaluate(d, e, h, o.state);
          if last.result.Err? then Outcome(Err(last.result.error), last.state)
          else Outcome(Ok(o.result.value + [last.result.value]), last.state)
  {
    ArgumentsFromSnoc(d, args, e, h, st, []);
  }

  /** With pure arguments the i-th value is the value of the i-th argument. */
  lemma {:induction false} PureArguments(d: Delegates, args: seq<Expr>, h: nat, st: State, acc: seq<int>)
    requires Sound(d) && ValidState(st) && h < |st.frames|
    requires forall i :: 0 <= i < |args| ==> Pure(args[i]) && Value(args[i], st.frames, h).Ok?
    ensures var o := ArgumentsFrom(d, args, h, st, acc);
      && o.state == st && o.result.Ok?
      && forall i :: 0 <= i < |args| ==> o.result.value[|acc| + i] == Value(args[i], st.frames, h).value
    decreases |args|
  {
    if |args| > 0 {
      EvaluatePure(d, args[0], h, st);
      var v := Value(args[0], st.frames, h).value;
      PureArguments(d, args[1..], h, st, acc + [v]);
      var o := ArgumentsFrom(d, args, h, st, acc);
      forall i | 0 <= i < |args|
        ensures o.result.value[|acc| + i] == Value(args[i], st.frames, h).value
      {
        if i == 0 {
          assert o.result.value[..|acc| + 1] == acc + [v];
          assert o.result.value[|acc|] == (acc + [v])[|acc|];
        } else {
          assert args[1..][i - 1] == args[i];
        }
      }
    }
  }

  // ---------------------------------------------------------------------
  // Printing

  /** How `std::cout << n` writes an int. */
  function DigitChar(n: nat): char
    requires n < 10
  {
    ('0' as int + n) as char
  }

  function DigitsOf(n: nat): (s: string)
    ensures |s| > 0
    ensures forall i :: 0 <= i < |s| ==> '0' <= s[i] <= '9'
    ensures s[0] == '0' ==> n == 0
    decreases n
  {
    if n < 10 then [DigitChar(n)] else DigitsOf(n / 10) + [DigitChar(n % 10)]
  }

  function Decimal(n: int): (s: string)
    ensures |s| > 0
    ensures s[0] == '-' <==> n < 0
  {
    if n < 0 then "-" + DigitsOf(-n) else DigitsOf(n)
  }

  predicate AllDigits(s: string) {
    forall i :: 0 <= i < |s| ==> '0' <= s[i] <= '9'
  }

  function DigitsValue(s: string): nat
    requires AllDigits(s)
  {
    if |s| == 0 then 0
    else DigitsValue(s[..|s| - 1]) * 10 + (s[|s| - 1] as int - '0' as int)
  }

  /** A numeral: an optional minus sign, then at least one digit. */
  predicate IsNumeral(s: string) {
    if |s| > 0 && s[0] == '-' then |s| > 1 && AllDigits(s[1..]) else |s| > 0 && AllDigits(s)
  }

  function ParseDecimal(s: string): int
    requires IsNumeral(s)
  {
    if s[0] == '-' then -(DigitsValue(s[1..]) as int) else DigitsValue(s)
  }

  lemma {:induction false} DigitsRoundTrip(n: nat)
    ensures DigitsValue(DigitsOf(n)) == n
    decreases n
  {
    if n >= 10 {
      var s := DigitsOf(n);
      assert s[..|s| - 1] == DigitsOf(n / 10);
      DigitsRoundTrip(n / 10);
    }
  }

  /** The printed form of an int is a numeral that reads back as the int. */
  lemma DecimalRoundTrip(n: int)
    ensures IsNumeral(Decimal(n))
    ensures ParseDecimal(Decimal(n)) == n
  {
    var s := Decimal(n);
    if n < 0 {
      var digits := DigitsOf(-n);
      assert s == "-" + digits;
      assert s[1..] == digits;
      assert AllDigits(digits);
      DigitsRoundTrip(-n);
      assert ParseDecimal(s) == -(DigitsValue(digits) as int);
    } else {
      var digits := DigitsOf(n);
      assert s == digits;
      assert AllDigits(digits);
      assert digits[0] != '-';
      DigitsRoundTrip(n);
    }
  }

  /** PrintStmt::execute on the items not yet printed: a string literal's text
      as it is, any other item's value in decimal, each followed by one space,
      and after the last item a newline. Output already written stays written
      when an item fails. */
  function ExecutePrint(d: Delegates, items: seq<Expr>, h: nat, st: State): (o: Outcome<Signal>)
    requires Sound(d) && ValidState(st) && h < |st.frames|
    ensures Extends(st, o.state)
    ensures o.result.Ok? ==> o.result.value == Completed
    decreases |items|
  {
    if |items| == 0 then
      AppendExtends(st, "", "\n");
      Outcome(Ok(Completed), st.(output := st.output + "\n"))
    else
      var first := PrintItem(d, items[0], h, st);
      match first.result
      case Err(error) => first
      case Ok(_) =>
        var o := ExecutePrint(d, items[1..], h, first.state);
        ExtendsTransitive(st, first.state, o.state);
        o
  }

  /** One item of a print statement: a string literal's text as it is, any
      other item's value in decimal, then one space. */
  function PrintItem(d: Delegates, e: Expr, h: nat, st: State): (o: Outcome<Signal>)
    requires Sound(d) && ValidState(st) && h < |st.frames|
    ensures Extends(st, o.state)
    ensures o.result.Ok? ==> o.result.value == Completed
  {
    match e
    case StringLiteralExpr(text) =>
      AppendExtends(st, text, " ");
      Outcome(Ok(Completed), st.(output := st.output + text + " "))
    case _ =>
      var v := Evaluate(d, e, h, st);
      match v.result
      case Err(error) => Outcome(Err(error), v.state)
      case Ok(value) =>
        AppendExtends(v.state, Decimal(value), " ");
        ExtendsTransitive(st, v.state, v.state.(output := v.state.output + Decimal(value) + " "));
        Outcome(Ok(Completed), v.state.(output := v.state.output + Decimal(value) + " "))
  }

  /** How one pure item of a print statement is written. */
  function RenderItem(e: Expr, a: seq<Frame>, h: nat): Result<string>
    requires Pure(e) && WellFormed(a) && h < |a|
  {
    if e.StringLiteralExpr? then Ok(e.text)
    else match Value(e, a, h)
      case Err(error) => Err(error)
      case Ok(v) => Ok(Decimal(v))
  }

  /** What a print statement of pure items writes, or the first error. */
  function Rendered(items: seq<Expr>, a: seq<Frame>, h: nat): Result<string>
    requires WellFormed(a) && h < |a|
    requires forall i :: 0 <= i < |items| ==> Pure(items[i])
    decreases |items|
  {
    if |items| == 0 then Ok("\n")
    else
      match RenderItem(items[0], a, h)
      case Err(error) => Err(error)
      case Ok(text) =>
        match Rendered(items[1..], a, h)
        case Err(error) => Err(error)
        case Ok(rest) => Ok(text + " " + rest)
  }

  lemma PrintStepPure(d: Delegates, items: seq<Expr>, h: nat, st: State)
    requires Sound(d) && ValidState(st) && h < |st.frames|
    requires |items| > 0 && Pure(items[0])
    ensures var item := RenderItem(items[0], st.frames, h);
      && (item.Err? ==> ExecutePrint(d, items, h, st) == Outcome(Err(item.error), st))
      && (item.Ok? ==> ExecutePrint(d, items, h, st) == ExecutePrint(d, items[1..], h, st.(output := st.output + item.value + " ")))
  {
    if !items[0].StringLiteralExpr? {
      EvaluatePure(d, items[0], h, st);
    }
  }

  /** Printing pure items leaves the environments alone; it fails exactly
      when one of the items fails, and otherwise appends the rendered line. */
  lemma {:induction false} PrintPure(d: Delegates, items: seq<Expr>, h: nat, st: State)
    requires Sound(d) && ValidState(st) && h < |st.frames|
    requires forall i :: 0 <= i < |items| ==> Pure(items[i])
    ensures var o := ExecutePrint(d, items, h, st);
      && o.state.frames == st.frames
      && (o.result.Err? <==> Rendered(items, st.frames, h).Err?)
      && (o.result.Err? ==> o.result.error == Rendered(items, st.frames, h).error)
      && (o.result.Ok? ==> o.state.output == st.output + Rendered(items, st.frames, h).value)
    decreases |items|
  {
    if |items| > 0 {
      var rest := items[1..];
      assert forall i :: 0 <= i < |rest| ==> Pure(rest[i]) by {
        forall i | 0 <= i < |rest| ensures Pure(rest[i]) { assert rest[i] == items[i + 1]; }
      }
      PrintStepPure(d, items, h, st);
      RenderedStep(items, st.frames, h);
      var item := RenderItem(items[0], st.frames, h);
      if item.Ok? {
        var next := st.(output := st.output + item.value + " ");
        PrintPure(d, rest, h, next);
        PrintAfterItem(st, item.value, ExecutePrint(d, rest, h, next), Rendered(rest, st.frames, h), Rendered(items, st.frames, h));
      }
    }
  }

  /** The inductive step of PrintPure once the first item has rendered as
      `text`: `o` is what printing the remaining items from the state after
      `text` gives, and `rest` what they render to. */
  lemma PrintAfterItem(st: State, text: string, o: Outcome<Signal>, rest: Result<string>, all: Result<string>)
    requires o.state.frames == st.frames
    requires o.result.Err? <==> rest.Err?
    requires o.result.Err? ==> o.result.error == rest.error
    requires o.result.Ok? ==> o.state.output == st.output + text + " " + rest.value
    requires rest.Err? ==> all == rest
    requires rest.Ok? ==> all == Ok(text + " " + rest.value)
    ensures o.state.frames == st.frames
    ensures o.result.Err? <==> all.Err?
    ensures o.result.Err? ==> o.result.error == all.error
    ensures o.result.Ok? ==> o.state.output == st.output + all.value
  {
    if o.result.Ok? {
      assert st.output + text + " " + rest.value == st.output + (text + " " + rest.value);
    }
  }

  /** One step of Rendered, spelled out case by case. */
  lemma RenderedStep(items: seq<Expr>, a: seq<Frame>, h: nat)
    requires WellFormed(a) && h < |a| && |items| > 0
    requires forall i :: 0 <= i < |items| ==> Pure(items[i])
    ensures var item := RenderItem(items[0], a, h);
      && (item.Err? ==> Rendered(items, a, h) == Err(item.error))
      && (item.Ok? && Rendered(items[1..], a, h).Err? ==> Rendered(items, a, h) == Rendered(items[1..], a, h))
      && (item.Ok? && Rendered(items[1..], a, h).Ok? ==>
            Rendered(items, a, h) == Ok(item.value + " " + Rendered(items[1..], a, h).value))
  {
  }

  lemma PrintExample(d: Delegates, st: State)
    requires Sound(d) && ValidState(st)
    ensures ExecutePrint(d, [StringLiteralExpr("x ="), BinaryExpr(LiteralExpr(-7), DIV, LiteralExpr(2))], 0, st)
      == Outcome(Ok(Completed), st.(output := st.output + "x = -4 \n"))
  {
    var items := [StringLiteralExpr("x ="), BinaryExpr(LiteralExpr(-7), DIV, LiteralExpr(2))];
    assert FloorDivide(-7, 2) == -4;
    assert Decimal(-4) == "-4";
    assert items[1..][1..] == [];
    PrintPure(d, items, 0, st);
  }

  // ---------------------------------------------------------------------
  // Statements

  /** Statement dispatch: an expression statement evaluates its expression and
      drops the value; a print statement prints; the rest are delegated. */
  function Execute(d: Delegates, s: Stmt, h: nat, st: State): (o: Outcome<Signal>)
    requires Sound(d) && ValidState(st) && h < |st.frames|
    ensures Extends(st, o.state)
  {
    match s
    case ExpressionStmt(e) =>
      var v := Evaluate(d, e, h, st);
      var result: Result<Signal> := match v.result case Err(error) => Err(error) case Ok(_) => Ok(Completed);
      Outcome(result, v.state)
    case PrintStmt(items) => ExecutePrint(d, items, h, st)
    case _ => d.execute(s, h, st)
  }

  /** An expression statement has the effects of its expression, and its
      value is dropped. */
  lemma ExpressionStatementEffects(d: Delegates, e: Expr, h: nat, st: State)
    requires Sound(d) && ValidState(st) && h < |st.frames|
    ensures Execute(d, ExpressionStmt(e), h, st).state == Evaluate(d, e, h, st).state
    ensures Execute(d, ExpressionStmt(e), h, st).result.Ok? <==> Evaluate(d, e, h, st).result.Ok?
    ensures Execute(d, ExpressionStmt(e), h, st).result.Ok? ==> Execute(d, ExpressionStmt(e), h, st).result.value == Completed
  {
  }

  predicate Continues(o: Outcome<Signal>) {
    o.result.Ok? && o.result.value.Completed?
  }

  /** executeBlock: the statements in order, all in the environment given,
      stopping at the first that returns or fails and passing its outcome up
      unchanged. */
  function ExecuteBlock(d: Delegates, stmts: seq<Stmt>, h: nat, st: State): (o: Outcome<Signal>)
    requires Sound(d) && ValidState(st) && h < |st.frames|
    ensures Extends(st, o.state)
    decreases |stmts|
  {
    if |stmts| == 0 then Outcome(Ok(Completed), st)
    else
      var first := Execute(d, stmts[0], h, st);
      if !Continues(first) then first
      else
        var rest := ExecuteBlock(d, stmts[1..], h, first.state);
        ExtendsTransitive(st, first.state, rest.state);
        rest
  }

  /** Running a block of two parts is running the first part and, when and
      only when it completes normally, the second part after it. */
  lemma {:induction false} BlockAppend(d: Delegates, ss: seq<Stmt>, ts: seq<Stmt>, h: nat, st: State)
    requires Sound(d) && ValidState(st) && h < |st.frames|
    ensures var o := ExecuteBlock(d, ss, h, st);
      ExecuteBlock(d, ss + ts, h, st) == if Continues(o) then ExecuteBlock(d, ts, h, o.state) else o
    decreases |ss|
  {
    if |ss| == 0 {
      assert [] + ts == ts;
    } else {
      assert (ss + ts)[0] == ss[0];
      assert (ss + ts)[1..] == ss[1..] + ts;
      var first := Execute(d, ss[0], h, st);
      if Continues(first) {
        BlockAppend(d, ss[1..], ts, h, first.state);
      }
    }
  }

  /** A statement that returns ends the block: what follows never runs, and
      the return signal reaches the caller unchanged. */
  lemma ReturnEndsBlock(d: Delegates, ss: seq<Stmt>, s: Stmt, ts: seq<Stmt>, h: nat, st: State)
    requires Sound(d) && ValidState(st) && h < |st.frames|
    requires Continues(ExecuteBlock(d, ss, h, st))
    requires Execute(d, s, h, ExecuteBlock(d, ss, h, st).state).result.Ok?
    requires Execute(d, s, h, ExecuteBlock(d, ss, h, st).state).result.value.Returned?
    ensures ExecuteBlock(d, ss + [s] + ts, h, st) == Execute(d, s, h, ExecuteBlock(d, ss, h, st).state)
  {
    var mid := ExecuteBlock(d, ss, h, st).state;
    BlockAppend(d, ss, [s] + ts, h, st);
    assert ss + [s] + ts == ss + ([s] + ts);
    assert ([s] + ts)[0] == s;
  }

  // ---------------------------------------------------------------------
  // Function calls

  /** The parameters bound one after another, each by define on frame `local`. */
  function BindAll(a: seq<Frame>, local: nat, params: seq<string>, args: seq<int>): (r: seq<Frame>)
    requires local < |a| && |params| == |args|
    ensures |r| == |a|
    ensures forall g :: 0 <= g < |a| ==> r[g].parent == a[g].parent
    ensures forall g :: 0 <= g < |a| && g != local ==> r[g] == a[g]
    ensures r[local].functions == a[local].functions
    decreases |params|
  {
    if |params| == 0 then a
    else BindAll(WithValue(a, local, params[0], args[0]), local, params[1..], args[1..])
  }

  /** The last parameter of a name gets its argument; a name that is no
      parameter keeps its binding, and nothing else is bound. */
  lemma {:induction false} BindAllBinds(a: seq<Frame>, local: nat, params: seq<string>, args: seq<int>)
    requires local < |a| && |params| == |args|
    ensures BindAll(a, local, params, args)[local].values.Keys == a[local].values.Keys + set p | p in params
    ensures forall x :: x in a[local].values && x !in params ==>
      x in BindAll(a, local, params, args)[local].values &&
      BindAll(a, local, params, args)[local].values[x] == a[local].values[x]
    ensures forall i :: 0 <= i < |params| && (forall j :: i < j < |params| ==> params[j] != params[i]) ==>
      params[i] in BindAll(a, local, params, args)[local].values &&
      BindAll(a, local, params, args)[local].values[params[i]] == args[i]
    decreases |params|
  {
    if |params| > 0 {
      var b := WithValue(a, local, params[0], args[0]);
      BindAllBinds(b, local, params[1..], args[1..]);
      var r := BindAll(a, local, params, args)[local].values;
      assert r == BindAll(b, local, params[1..], args[1..])[local].values;
      assert b[local].values.Keys == a[local].values.Keys + {params[0]};
      assert (set p | p in params) == {params[0]} + set p | p in params[1..];
      forall i | 0 <= i < |params| && (forall j :: i < j < |params| ==> params[j] != params[i])
        ensures params[i] in r && r[params[i]] == args[i]
      {
        if i > 0 {
          assert params[1..][i - 1] == params[i];
          assert args[1..][i - 1] == args[i];
          forall j | i - 1 < j < |params| - 1 ensures params[1..][j] != params[1..][i - 1] {
            assert params[1..][j] == params[j + 1];
          }
        } else {
          assert params[0] !in params[1..] by {
            forall j | 0 <= j < |params| - 1 ensures params[1..][j] != params[0] {
              assert params[1..][j] == params[j + 1];
            }
          }
        }
      }
    }
  }

  /** The arena as the body of a call first sees it: a new environment whose
      parent is the caller's environment `h`, holding exactly the parameter
      bindings; no existing environment changes. */
  function EnterCall(a: seq<Frame>, h: nat, f: Function, args: seq<int>): (r: seq<Frame>)
    requires Rooted(a) && h < |a| && |args| == |f.parameters|
    ensures Rooted(r)
    ensures |r| == |a| + 1 && r[..|a|] == a
    ensures r[|a|].parent == Some(h) && r[|a|].functions == map[]
  {
    BindAll(a + [NewFrame(Some(h))], |a|, f.parameters, args)
  }

  /** The parameters resolve to their arguments in the new environment; any
      other name, and every function, resolves as it does in the caller's. */
  lemma CallEnvironment(a: seq<Frame>, h: nat, f: Function, args: seq<int>, name: string)
    requires Rooted(a) && h < |a| && |args| == |f.parameters|
    ensures var r := EnterCall(a, h, f, args);
      && (forall i :: 0 <= i < |args| && (forall j :: i < j < |args| ==> f.parameters[j] != f.parameters[i]) ==>
            Lookup(r, |a|, f.parameters[i]) == Ok(args[i]))
      && (name !in f.parameters ==> Lookup(r, |a|, name) == Lookup(a, h, name))
      && LookupFunction(r, |a|, name) == LookupFunction(a, h, name)
  {
    CallParametersBound(a, h, f, args);
    CallOuterNames(a, h, f, args, name);
  }

  lemma CallParametersBound(a: seq<Frame>, h: nat, f: Function, args: seq<int>)
    requires Rooted(a) && h < |a| && |args| == |f.parameters|
    ensures var r := EnterCall(a, h, f, args);
      forall i :: 0 <= i < |args| && (forall j :: i < j < |args| ==> f.parameters[j] != f.parameters[i]) ==>
        Lookup(r, |a|, f.parameters[i]) == Ok(args[i])
  {
    var r := EnterCall(a, h, f, args);
    BindAllBinds(a + [NewFrame(Some(h))], |a|, f.parameters, args);
    forall i | 0 <= i < |args| && (forall j :: i < j < |args| ==> f.parameters[j] != f.parameters[i])
      ensures Lookup(r, |a|, f.parameters[i]) == Ok(args[i])
    {
      assert f.parameters[i] in r[|a|].values && r[|a|].values[f.parameters[i]] == args[i];
    }
  }

  lemma CallOuterNames(a: seq<Frame>, h: nat, f: Function, args: seq<int>, name: string)
    requires Rooted(a) && h < |a| && |args| == |f.parameters|
    ensures var r := EnterCall(a, h, f, args);
      && (name !in f.parameters ==> Lookup(r, |a|, name) == Lookup(a, h, name))
      && LookupFunction(r, |a|, name) == LookupFunction(a, h, name)
  {
    var r := EnterCall(a, h, f, args);
    BindAllBinds(a + [NewFrame(Some(h))], |a|, f.parameters, args);
    assert r == a + [r[|a|]];
    LookupExtend(a, [r[|a|]], h, name);
    if name !in f.parameters {
      assert name !in r[|a|].values;
      assert Lookup(r, |a|, name) == Lookup(r, h, name);
    }
    assert name !in r[|a|].functions;
    assert LookupFunction(r, |a|, name) == LookupFunction(r, h, name);
  }

  /** callFunction: find the function from the caller's environment, make the
      call's environment as a child of the caller's, check the argument count,
      bind the parameters, run the body there; a return signal's value is the
      result and a body that completes gives 0. */
  function CallFunction(d: Delegates, name: string, args: seq<int>, h: nat, st: State): (o: Outcome<int>)
    requires Sound(d) && ValidState(st) && h < |st.frames|
    ensures Extends(st, o.state)
  {
    match LookupFunction(st.frames, h, name)
    case Err(error) => Outcome(Err(error), st)
    case Ok(f) =>
      if |args| != |f.parameters| then
        Outcome(Err(ArityMismatch(name)), st.(frames := st.frames + [NewFrame(Some(h))]))
      else
        var entered := st.(frames := EnterCall(st.frames, h, f, args));
        var body := Execute(d, f.body, |st.frames|, entered);
        ExtendsTransitive(st, entered, body.state);
        var result: Result<int> :=
          match body.result
          case Err(error) => Err(error)
          case Ok(Returned(v)) => Ok(v)
          case Ok(Completed) => Ok(0);
        Outcome(result, body.state)
  }

  /** A name no environment of the chain defines as a function fails the call,
      and nothing happens. */
  lemma CallUndefined(d: Delegates, name: string, args: seq<int>, h: nat, st: State)
    requires Sound(d) && ValidState(st) && h < |st.frames|
    requires forall k :: 0 <= k < |Chain(st.frames, h)| ==> name !in st.frames[Chain(st.frames, h)[k]].functions
    ensures CallFunction(d, name, args, h, st) == Outcome(Err(UndefinedFunction(name)), st)
  {
    LookupFunctionUndefined(st.frames, h, name);
  }

  /** A wrong argument count fails the call before the body runs: nothing is
      printed and no existing environment changes. */
  lemma CallArity(d: Delegates, name: string, args: seq<int>, h: nat, st: State)
    requires Sound(d) && ValidState(st) && h < |st.frames|
    requires LookupFunction(st.frames, h, name).Ok?
    requires |args| != |LookupFunction(st.frames, h, name).value.parameters|
    ensures var o := CallFunction(d, name, args, h, st);
      && o.result == Err(ArityMismatch(name))
      && o.state.output == st.output
      && o.state.frames[..|st.frames|] == st.frames
  {
  }

  /** With the right argument count the body runs once, in the environment
      EnterCall builds; its return value is the result, or 0 when it completes. */
  lemma CallRunsBody(d: Delegates, name: string, args: seq<int>, h: nat, st: State)
    requires Sound(d) && ValidState(st) && h < |st.frames|
    requires LookupFunction(st.frames, h, name).Ok?
    requires |args| == |LookupFunction(st.frames, h, name).value.parameters|
    ensures var f := LookupFunction(st.frames, h, name).value;
      var body := Execute(d, f.body, |st.frames|, st.(frames := EnterCall(st.frames, h, f, args)));
      var o := CallFunction(d, name, args, h, st);
      && o.state == body.state
      && (body.result.Err? ==> o.result == Err(body.result.error))
      && (body.result.Ok? && body.result.value.Returned? ==> o.result == Ok(body.result.value.value))
      && (body.result.Ok? && body.result.value.Completed? ==> o.result == Ok(0))
  {
  }

  // ---------------------------------------------------------------------
  // The interpreter's own entry points

  /** Interpreter::defineFunction: always into the global environment. */
  function DefineFunction(st: State, name: string, f: Function): (r: State)
    requires ValidState(st)
    ensures Extends(st, r) && r.output == st.output
  {
    st.(frames := WithFunction(st.frames, 0, name, f))
  }

  /** A function defined globally is found from every environment whose
      chain has no local function of that name. */
  lemma {:induction false} DefinedFunctionVisible(st: State, name: string, f: Function, h: nat)
    requires ValidState(st) && h < |st.frames|
    requires forall k :: 0 <= k < |Chain(st.frames, h)| - 1 ==> name !in st.frames[Chain(st.frames, h)[k]].functions
    ensures LookupFunction(DefineFunction(st, name, f).frames, h, name) == Ok(f)
    decreases h
  {
    var a := st.frames;
    var b := DefineFunction(st, name, f).frames;
    if h > 0 {
      var p := a[h].parent.value;
      var c := Chain(a, h);
      assert c == [h] + Chain(a, p);
      assert name !in a[c[0]].functions;
      assert b[h] == a[h];
      forall k | 0 <= k < |Chain(a, p)| - 1
        ensures name !in a[Chain(a, p)[k]].functions
      {
        assert Chain(a, p)[k] == c[k + 1];
      }
      DefinedFunctionVisible(st, name, f, p);
    }
  }

  /** Interpreter::interpret: no root does nothing; a root runs once, in the
      global environment. */
  function Interpret(d: Delegates, root: Option<Stmt>, st: State): (o: Outcome<Signal>)
    requires Sound(d) && ValidState(st)
    ensures Extends(st, o.state)
    ensures root.None? ==> o == Outcome(Ok(Completed), st)
  {
    match root
    case None => Outcome(Ok(Completed), st)
    case Some(s) => Execute(d, s, 0, st)
  }
}
