/** Environments: scopes holding a variable map and a function table, each
    pointing at the scope that encloses it.

    The parent pointers become an arena: a sequence of frames in which a
    frame names its parent by index, and every parent index is smaller than
    the index of the frame that names it, so walking up always ends. */
module Env {
  import opened Wrappers
  import opened Ast

  datatype Frame = Frame(values: map<string, int>, functions: map<string, Function>, parent: Option<nat>)

  /** A new environment with empty maps and the given parent. */
  function NewFrame(parent: Option<nat>): Frame {
    Frame(map[], map[], parent)
  }

  /** Every parent index points at an earlier frame. */
  ghost predicate WellFormed(a: seq<Frame>) {
    forall i :: 0 <= i < |a| && a[i].parent.Some? ==> a[i].parent.value < i
  }

  /** The arena of a running interpreter: frame 0 is the global environment,
      the only one without a parent. */
  ghost predicate Rooted(a: seq<Frame>) {
    && WellFormed(a)
    && |a| > 0
    && a[0].parent.None?
    && forall i :: 0 < i < |a| ==> a[i].parent.Some?
  }

  /** The handles met when walking from h up to a root. */
  function Chain(a: seq<Frame>, h: nat): (c: seq<nat>)
    requires WellFormed(a) && h < |a|
    ensures |c| > 0 && c[0] == h
    ensures forall k :: 0 <= k < |c| ==> c[k] < |a|
    ensures a[c[|c| - 1]].parent.None?
    ensures forall k :: 0 < k < |c| ==> a[c[k - 1]].parent == Some(c[k])
    decreases h
  {
    match a[h].parent
    case None => [h]
    case Some(p) => [h] + Chain(a, p)
  }

  /** Environment::get: this frame's binding if it has one, otherwise the
      parent's, failing at a frame without parent. */
  function Lookup(a: seq<Frame>, h: nat, name: string): (r: Result<int>)
    requires WellFormed(a) && h < |a|
    ensures r.Err? ==> r.error == UndefinedVariable(name)
    decreases h
  {
    if name in a[h].values then Ok(a[h].values[name])
    else match a[h].parent
      case Some(p) => Lookup(a, p, name)
      case None => Err(UndefinedVariable(name))
  }

  /** Environment::getFunction: the same walk over the function tables. */
  function LookupFunction(a: seq<Frame>, h: nat, name: string): (r: Result<Function>)
    requires WellFormed(a) && h < |a|
    ensures r.Err? ==> r.error == UndefinedFunction(name)
    decreases h
  {
    if name in a[h].functions then Ok(a[h].functions[name])
    else match a[h].parent
      case Some(p) => LookupFunction(a, p, name)
      case None => Err(UndefinedFunction(name))
  }

  /** Environment::define on frame h: inserts or overwrites the name in that
      frame's own variable map; nothing else changes. */
  function WithValue(a: seq<Frame>, h: nat, name: string, value: int): (r: seq<Frame>)
    requires h < |a|
    ensures |r| == |a|
    ensures r[h].values == a[h].values[name := value]
    ensures r[h].functions == a[h].functions
    ensures forall g :: 0 <= g < |a| ==> r[g].parent == a[g].parent
    ensures forall g :: 0 <= g < |a| && g != h ==> r[g] == a[g]
  {
    a[h := a[h].(values := a[h].values[name := value])]
  }

  /** Environment::defineFunction on frame h: inserts or overwrites the name
      in that frame's own function table; nothing else changes. */
  function WithFunction(a: seq<Frame>, h: nat, name: string, f: Function): (r: seq<Frame>)
    requires h < |a|
    ensures |r| == |a|
    ensures r[h].functions == a[h].functions[name := f]
    ensures r[h].values == a[h].values
    ensures forall g :: 0 <= g < |a| ==> r[g].parent == a[g].parent
    ensures forall g :: 0 <= g < |a| && g != h ==> r[g] == a[g]
  {
    a[h := a[h].(functions := a[h].functions[name := f])]
  }

  // ---------------------------------------------------------------------
  // Lookup laws

  /** The global environment ends every chain of a running interpreter. */
  lemma {:induction false} ChainEndsAtGlobal(a: seq<Frame>, h: nat)
    requires Rooted(a) && h < |a|
    ensures Chain(a, h)[|Chain(a, h)| - 1] == 0
    decreases h
  {
    if h > 0 {
      ChainEndsAtGlobal(a, a[h].parent.value);
    }
  }

  /** The innermost frame of the chain that binds the name gives the value:
      inner bindings shadow outer ones. */
  lemma {:induction false} LookupInnermost(a: seq<Frame>, h: nat, name: string, k: nat)
    requires WellFormed(a) && h < |a|
    requires k < |Chain(a, h)| && name in a[Chain(a, h)[k]].values
    requires forall j :: 0 <= j < k ==> name !in a[Chain(a, h)[j]].values
    ensures Lookup(a, h, name) == Ok(a[Chain(a, h)[k]].values[name])
    decreases h
  {
    if k > 0 {
      var p := a[h].parent.value;
      var c := Chain(a, h);
      assert name !in a[c[0]].values;
      assert c[1..] == Chain(a, p);
      forall j | 0 <= j < k - 1
        ensures name !in a[Chain(a, p)[j]].values
      {
        assert Chain(a, p)[j] == c[j + 1];
      }
      LookupInnermost(a, p, name, k - 1);
    }
  }

  /** Lookup fails exactly when no frame of the chain binds the name, and
      then with the undefined-variable error. */
  lemma LookupUndefined(a: seq<Frame>, h: nat, name: string)
    requires WellFormed(a) && h < |a|
    ensures Lookup(a, h, name).Err? <==>
      forall k :: 0 <= k < |Chain(a, h)| ==> name !in a[Chain(a, h)[k]].values
    ensures Lookup(a, h, name).Err? ==> Lookup(a, h, name).error == UndefinedVariable(name)
  {
    LookupFailsUnbound(a, h, name);
    LookupSucceedsBound(a, h, name);
  }

  lemma {:induction false} LookupFailsUnbound(a: seq<Frame>, h: nat, name: string)
    requires WellFormed(a) && h < |a|
    ensures Lookup(a, h, name).Err? ==>
      && Lookup(a, h, name).error == UndefinedVariable(name)
      && forall k :: 0 <= k < |Chain(a, h)| ==> name !in a[Chain(a, h)[k]].values
    decreases h
  {
    var r := Lookup(a, h, name);
    if r.Err? && a[h].parent.Some? {
      var p := a[h].parent.value;
      LookupFailsUnbound(a, p, name);
      var c, cp := Chain(a, h), Chain(a, p);
      assert c == [h] + cp;
      forall k | 0 <= k < |c|
        ensures name !in a[c[k]].values
      {
        if k > 0 { assert c[k] == cp[k - 1]; }
      }
    }
  }

  lemma {:induction false} LookupSucceedsBound(a: seq<Frame>, h: nat, name: string)
    requires WellFormed(a) && h < |a|
    ensures Lookup(a, h, name).Ok? ==>
      exists k :: 0 <= k < |Chain(a, h)| && name in a[Chain(a, h)[k]].values
    decreases h
  {
    var r := Lookup(a, h, name);
    var c := Chain(a, h);
    if name in a[h].values {
      assert name in a[c[0]].values;
    } else if r.Ok? {
      var p := a[h].parent.value;
      LookupSucceedsBound(a, p, name);
      var cp := Chain(a, p);
      assert c == [h] + cp;
      var k :| 0 <= k < |cp| && name in a[cp[k]].values;
      assert c[k + 1] == cp[k];
      assert name in a[c[k + 1]].values;
    }
  }

  /** getFunction answers from this frame's own table when the name is there. */
  lemma GetFunctionOwnEntry(a: seq<Frame>, h: nat, name: string)
    requires WellFormed(a) && h < |a| && name in a[h].functions
    ensures LookupFunction(a, h, name) == Ok(a[h].functions[name])
  {
  }

  /** Otherwise getFunction asks the parent, or fails at a frame without one. */
  lemma GetFunctionDelegates(a: seq<Frame>, h: nat, name: string)
    requires WellFormed(a) && h < |a| && name !in a[h].functions
    ensures a[h].parent.Some? ==> LookupFunction(a, h, name) == LookupFunction(a, a[h].parent.value, name)
    ensures a[h].parent.None? ==> LookupFunction(a, h, name) == Err(UndefinedFunction(name))
  {
  }

  /** getFunction fails exactly when no frame of the chain has the name, and
      then with the undefined-function error. */
  lemma LookupFunctionUndefined(a: seq<Frame>, h: nat, name: string)
    requires WellFormed(a) && h < |a|
    ensures LookupFunction(a, h, name).Err? <==>
      forall k :: 0 <= k < |Chain(a, h)| ==> name !in a[Chain(a, h)[k]].functions
    ensures LookupFunction(a, h, name).Err? ==> LookupFunction(a, h, name).error == UndefinedFunction(name)
  {
    LookupFunctionFailsUnbound(a, h, name);
    LookupFunctionSucceedsBound(a, h, name);
  }

  lemma {:induction false} LookupFunctionFailsUnbound(a: seq<Frame>, h: nat, name: string)
    requires WellFormed(a) && h < |a|
    ensures LookupFunction(a, h, name).Err? ==>
      && LookupFunction(a, h, name).error == UndefinedFunction(name)
      && forall k :: 0 <= k < |Chain(a, h)| ==> name !in a[Chain(a, h)[k]].functions
    decreases h
  {
    var r := LookupFunction(a, h, name);
    if r.Err? && a[h].parent.Some? {
      var p := a[h].parent.value;
      LookupFunctionFailsUnbound(a, p, name);
      var c, cp := Chain(a, h), Chain(a, p);
      assert c == [h] + cp;
      forall k | 0 <= k < |c|
        ensures name !in a[c[k]].functions
      {
        if k > 0 { assert c[k] == cp[k - 1]; }
      }
    }
  }

  lemma {:induction false} LookupFunctionSucceedsBound(a: seq<Frame>, h: nat, name: string)
    requires WellFormed(a) && h < |a|
    ensures LookupFunction(a, h, name).Ok? ==>
      exists k :: 0 <= k < |Chain(a, h)| && name in a[Chain(a, h)[k]].functions
    decreases h
  {
    var r := LookupFunction(a, h, name);
    var c := Chain(a, h);
    if name in a[h].functions {
      assert name in a[c[0]].functions;
    } else if r.Ok? {
      var p := a[h].parent.value;
      LookupFunctionSucceedsBound(a, p, name);
      var cp := Chain(a, p);
      assert c == [h] + cp;
      var k :| 0 <= k < |cp| && name in a[cp[k]].functions;
      assert c[k + 1] == cp[k];
      assert name in a[c[k + 1]].functions;
    }
  }

  // ---------------------------------------------------------------------
  // Define laws

  /** After define(n, v), get(n) on the same environment gives v. */
  lemma GetAfterDefine(a: seq<Frame>, h: nat, name: string, value: int)
    requires WellFormed(a) && h < |a|
    ensures WellFormed(WithValue(a, h, name, value))
    ensures Lookup(WithValue(a, h, name, value), h, name) == Ok(value)
  {
  }

  /** define(n, v) changes the lookup of no other name, from any frame. */
  lemma {:induction false} DefineOtherName(a: seq<Frame>, h: nat, name: string, value: int, g: nat, other: string)
    requires WellFormed(a) && h < |a| && g < |a| && other != name
    ensures WellFormed(WithValue(a, h, name, value))
    ensures Lookup(WithValue(a, h, name, value), g, other) == Lookup(a, g, other)
    decreases g
  {
    var b := WithValue(a, h, name, value);
    if other !in a[g].values && a[g].parent.Some? {
      DefineOtherName(a, h, name, value, a[g].parent.value, other);
    }
  }

  /** define on frame h is invisible from every frame whose chain avoids h;
      in particular it never changes what an ancestor of h sees. */
  lemma {:induction false} DefineOffChain(a: seq<Frame>, h: nat, name: string, value: int, g: nat, any: string)
    requires WellFormed(a) && h < |a| && g < |a|
    requires h !in Chain(a, g)
    ensures WellFormed(WithValue(a, h, name, value))
    ensures Lookup(WithValue(a, h, name, value), g, any) == Lookup(a, g, any)
    decreases g
  {
    var b := WithValue(a, h, name, value);
    assert g != h && b[g] == a[g];
    if any !in a[g].values && a[g].parent.Some? {
      var p := a[g].parent.value;
      assert Chain(a, g) == [g] + Chain(a, p);
      DefineOffChain(a, h, name, value, p, any);
    }
  }

  /** A name defined in any frame of the chain, the frame itself or an
      ancestor, resolves from that frame afterwards. */
  lemma {:induction false} DefineInChainResolves(a: seq<Frame>, h: nat, g: nat, name: string, value: int)
    requires WellFormed(a) && h < |a| && g in Chain(a, h)
    ensures WellFormed(WithValue(a, g, name, value))
    ensures Lookup(WithValue(a, g, name, value), h, name).Ok?
    decreases h
  {
    var b := WithValue(a, g, name, value);
    if h != g && name !in a[h].values {
      var p := a[h].parent.value;
      assert Chain(a, h) == [h] + Chain(a, p);
      DefineInChainResolves(a, p, g, name, value);
    }
  }

  /** Defining a function overwrites this frame's entry, which then shadows
      every ancestor's entry of that name. */
  lemma GetFunctionAfterDefineFunction(a: seq<Frame>, h: nat, name: string, f: Function)
    requires WellFormed(a) && h < |a|
    ensures WellFormed(WithFunction(a, h, name, f))
    ensures LookupFunction(WithFunction(a, h, name, f), h, name) == Ok(f)
  {
  }

  /** The function tables and the variable maps are independent: defining in
      one never changes a lookup in the other. */
  lemma {:induction false} TablesIndependent(a: seq<Frame>, h: nat, name: string, value: int, f: Function, g: nat, any: string)
    requires WellFormed(a) && h < |a| && g < |a|
    ensures WellFormed(WithValue(a, h, name, value)) && WellFormed(WithFunction(a, h, name, f))
    ensures LookupFunction(WithValue(a, h, name, value), g, any) == LookupFunction(a, g, any)
    ensures Lookup(WithFunction(a, h, name, f), g, any) == Lookup(a, g, any)
    decreases g
  {
    if a[g].parent.Some? {
      TablesIndependent(a, h, name, value, f, a[g].parent.value, any);
    }
  }

  /** Adding frames to the arena changes no lookup from an existing frame. */
  lemma {:induction false} LookupExtend(a: seq<Frame>, b: seq<Frame>, h: nat, name: string)
    requires WellFormed(a) && WellFormed(a + b) && h < |a|
    ensures Lookup(a + b, h, name) == Lookup(a, h, name)
    ensures LookupFunction(a + b, h, name) == LookupFunction(a, h, name)
    decreases h
  {
    assert (a + b)[h] == a[h];
    if a[h].parent.Some? {
      LookupExtend(a, b, a[h].parent.value, name);
    }
  }

  /** A fresh child of frame p binds nothing of its own: every lookup in it
      is the lookup in p. */
  lemma ChildLookup(a: seq<Frame>, p: nat, name: string)
    requires WellFormed(a) && p < |a|
    ensures WellFormed(a + [NewFrame(Some(p))])
    ensures Lookup(a + [NewFrame(Some(p))], |a|, name) == Lookup(a, p, name)
    ensures LookupFunction(a + [NewFrame(Some(p))], |a|, name) == LookupFunction(a, p, name)
  {
    LookupExtend(a, [NewFrame(Some(p))], p, name);
  }

  // ---------------------------------------------------------------------
  // The environments as mutable objects

  /** All environments of a run. A handle is an index into `frames`. */
  class Arena {
    var frames: seq<Frame>

    ghost predicate Valid()
      reads this
    {
      Rooted(frames)
    }

    /** The global environment, built without a parent. */
    constructor ()
      ensures frames == [NewFrame(None)]
      ensures Valid()
    {
      frames := [NewFrame(None)];
    }

    /** Environment(&parent): a new environment whose parent is `parent`. */
    method NewEnvironment(parent: nat) returns (h: nat)
      requires Valid() && parent < |frames|
      modifies this
      ensures Valid()
      ensures frames == old(frames) + [NewFrame(Some(parent))]
      ensures h == |old(frames)|
    {
      h := |frames|;
      frames := frames + [NewFrame(Some(parent))];
    }

    /** define(name, value) on environment h. */
    method Define(h: nat, name: string, value: int)
      requires Valid() && h < |frames|
      modifies this
      ensures Valid()
      ensures frames == WithValue(old(frames), h, name, value)
    {
      frames := frames[h := frames[h].(values := frames[h].values[name := value])];
    }

    /** defineFunction(name, f) on environment h. */
    method DefineFunction(h: nat, name: string, f: Function)
      requires Valid() && h < |frames|
      modifies this
      ensures Valid()
      ensures frames == WithFunction(old(frames), h, name, f)
    {
      frames := frames[h := frames[h].(functions := frames[h].functions[name := f])];
    }
  }
}
