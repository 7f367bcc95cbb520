/** The Interpreter object: it owns the environments, starting from the
    global one, and everything its statements print. Each method changes
    that state step by step as the C++ member functions and node methods do,
    and is proved to end in the state, with the result, that the Semantics
    function of the same name gives. */
module Interpreting {
  import opened Wrappers
  import opened Ast
  import opened Env
  import opened Semantics

  class Interpreter {
    /** Every environment of the run; handle 0 is the global environment. */
    const environments: Arena
    const globalEnvironment: nat := 0
    var output: string
    const delegates: Delegates

    ghost predicate Valid()
      reads this, environments
    {
      environments.Valid() && Sound(delegates)
    }

    ghost function Snapshot(): State
      reads this, environments
    {
      State(environments.frames, output)
    }

    /** The interpreter starts with a global environment that has no parent
        and is the root of every chain. */
    constructor (delegates: Delegates)
      requires Sound(delegates)
      ensures Valid() && fresh(environments)
      ensures this.delegates == delegates
      ensures Snapshot() == InitialState()
    {
      this.delegates := delegates;
      environments := new Arena();
      output := "";
    }

    /** Takes over the state that a delegated node method produced. */
    method Commit(st: State)
      requires Valid() && ValidState(st)
      modifies this, environments
      ensures Valid() && Snapshot() == st
    {
      environments.frames := st.frames;
      output := st.output;
    }

    /** evaluateExpr, and the evaluate methods of the expression nodes. */
    method Evaluate(e: Expr, h: nat) returns (r: Result<int>)
      requires Valid() && h < |environments.frames|
      modifies this, environments
      ensures Valid()
      ensures r == Semantics.Evaluate(delegates, e, h, old(Snapshot())).result
      ensures Snapshot() == Semantics.Evaluate(delegates, e, h, old(Snapshot())).state
      decreases e
    {
      match e
      case BinaryExpr(left, op, right) =>
        var l := Evaluate(left, h);
        match l {
          case Err(error) => r := Err(error);
          case Ok(lv) =>
            var rr := Evaluate(right, h);
            match rr {
              case Err(error) => r := Err(error);
              case Ok(rv) => r := Apply(op, lv, rv);
            }
        }
      case LiteralExpr(value) =>
        r := Ok(value);
      case VarExpr(name) =>
        r := Lookup(environments.frames, h, name);
      case AssignExpr(name, rhs) =>
        r := Evaluate(rhs, h);
        match r {
          case Err(_) =>
          case Ok(value) => environments.Define(h, name, value);
        }
      case StringLiteralExpr(_) =>
        r := Ok(0);
      case CallExpr(_, _) =>
        var o := delegates.evaluateCall(e, h, State(environments.frames, output));
        Commit(o.state);
        r := o.result;
    }

    /** CallExpr::convertArgumentsToValues: one value per argument, pushed in
        order as the arguments are evaluated from left to right. */
    method ConvertArgumentsToValues(args: seq<Expr>, h: nat) returns (r: Result<seq<int>>)
      requires Valid() && h < |environments.frames|
      modifies this, environments
      ensures Valid()
      ensures r == EvaluateArguments(delegates, args, h, old(Snapshot())).result
      ensures Snapshot() == EvaluateArguments(delegates, args, h, old(Snapshot())).state
    {
      var values := [];
      var i := 0;
      while i < |args|
        invariant Valid() && 0 <= i <= |args| && h < |environments.frames|
        invariant ArgumentsFrom(delegates, args[i..], h, Snapshot(), values)
          == EvaluateArguments(delegates, args, h, old(Snapshot()))
      {
        assert args[i..][1..] == args[i + 1..];
        var v := Evaluate(args[i], h);
        match v {
          case Err(error) =>
            return Err(error);
          case Ok(value) =>
            values := values + [value];
        }
        i := i + 1;
      }
      r := Ok(values);
    }

    /** PrintStmt::execute. */
    method ExecutePrint(items: seq<Expr>, h: nat) returns (r: Result<Signal>)
      requires Valid() && h < |environments.frames|
      modifies this, environments
      ensures Valid()
      ensures r == Semantics.ExecutePrint(delegates, items, h, old(Snapshot())).result
      ensures Snapshot() == Semantics.ExecutePrint(delegates, items, h, old(Snapshot())).state
    {
      var i := 0;
      while i < |items|
        invariant Valid() && 0 <= i <= |items| && h < |environments.frames|
        invariant Semantics.ExecutePrint(delegates, items[i..], h, Snapshot())
          == Semantics.ExecutePrint(delegates, items, h, old(Snapshot()))
      {
        assert items[i..][1..] == items[i + 1..];
        match items[i] {
          case StringLiteralExpr(text) =>
            output := output + text + " ";
          case _ =>
            var v := Evaluate(items[i], h);
            match v {
              case Err(error) =>
                return Err(error);
              case Ok(value) =>
                output := output + Decimal(value) + " ";
            }
        }
        i := i + 1;
      }
      output := output + "\n";
      r := Ok(Completed);
    }

    /** executeStatement, and the execute methods of the statement nodes. */
    method Execute(s: Stmt, h: nat) returns (r: Result<Signal>)
      requires Valid() && h < |environments.frames|
      modifies this, environments
      ensures Valid()
      ensures r == Semantics.Execute(delegates, s, h, old(Snapshot())).result
      ensures Snapshot() == Semantics.Execute(delegates, s, h, old(Snapshot())).state
    {
      match s
      case ExpressionStmt(e) =>
        var v := Evaluate(e, h);
        match v {
          case Err(error) => r := Err(error);
          case Ok(_) => r := Ok(Completed);
        }
      case PrintStmt(items) =>
        r := ExecutePrint(items, h);
      case _ =>
        var o := delegates.execute(s, h, State(environments.frames, output));
        Commit(o.state);
        r := o.result;
    }

    /** executeBlock: every statement in the given environment, in order,
        until one returns or fails. */
    method ExecuteBlock(stmts: seq<Stmt>, h: nat) returns (r: Result<Signal>)
      requires Valid() && h < |environments.frames|
      modifies this, environments
      ensures Valid()
      ensures r == Semantics.ExecuteBlock(delegates, stmts, h, old(Snapshot())).result
      ensures Snapshot() == Semantics.ExecuteBlock(delegates, stmts, h, old(Snapshot())).state
    {
      var i := 0;
      while i < |stmts|
        invariant Valid() && 0 <= i <= |stmts| && h < |environments.frames|
        invariant Semantics.ExecuteBlock(delegates, stmts[i..], h, Snapshot())
          == Semantics.ExecuteBlock(delegates, stmts, h, old(Snapshot()))
      {
        assert stmts[i..][1..] == stmts[i + 1..];
        r := Execute(stmts[i], h);
        if !(r.Ok? && r.value.Completed?) {
          return;
        }
        i := i + 1;
      }
      r := Ok(Completed);
    }

    /** callFunction. */
    method CallFunction(name: string, args: seq<int>, h: nat) returns (r: Result<int>)
      requires Valid() && h < |environments.frames|
      modifies this, environments
      ensures Valid()
      ensures r == Semantics.CallFunction(delegates, name, args, h, old(Snapshot())).result
      ensures Snapshot() == Semantics.CallFunction(delegates, name, args, h, old(Snapshot())).state
    {
      var found := LookupFunction(environments.frames, h, name);
      match found {
        case Err(error) =>
          return Err(error);
        case Ok(f) =>
        ghost var caller := environments.frames;
        var local := environments.NewEnvironment(h);
        if |args| != |f.parameters| {
          return Err(ArityMismatch(name));
        }
        var parameters := f.parameters;
        assert parameters[0..] == parameters && args[0..] == args;
        for i := 0 to |args|
          invariant Valid() && local < |environments.frames| && output == old(output)
          invariant BindAll(environments.frames, local, parameters[i..], args[i..]) == EnterCall(caller, h, f, args)
        {
          assert parameters[i..][1..] == parameters[i + 1..] && args[i..][1..] == args[i + 1..];
          environments.Define(local, parameters[i], args[i]);
        }
        assert parameters[|args|..] == [] && args[|args|..] == [];
        var body := Execute(f.body, local);
        match body {
          case Err(error) => r := Err(error);
          case Ok(Returned(value)) => r := Ok(value);
          case Ok(Completed) => r := Ok(0);
        }
      }
    }

    /** defineFunction: registers in the global environment. */
    method DefineFunction(name: string, f: Function)
      requires Valid()
      modifies this, environments
      ensures Valid()
      ensures Snapshot() == Semantics.DefineFunction(old(Snapshot()), name, f)
    {
      environments.DefineFunction(globalEnvironment, name, f);
    }

    /** interpret: nothing for an empty tree, else the root runs in the
        global environment. */
    method Interpret(root: Option<Stmt>) returns (r: Result<Signal>)
      requires Valid()
      modifies this, environments
      ensures Valid()
      ensures r == Semantics.Interpret(delegates, root, old(Snapshot())).result
      ensures Snapshot() == Semantics.Interpret(delegates, root, old(Snapshot())).state
    {
      match root
      case None =>
        r := Ok(Completed);
      case Some(s) =>
        r := Execute(s, globalEnvironment);
    }
  }
}
