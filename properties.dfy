/**
 * What the evaluator promises: how calls bind their arguments (positional,
 * partial application, the `&` rest formal), which frames `def` and `=` write,
 * how `if` chooses, that a lambda body sees its caller's bindings, and worked
 * examples of whole expressions.
 */
module EvalProperties {
  import opened Values
  import opened Environment
  import opened Builtins
  import opened Evaluator

  /** Binding names to values one after another, left to right, into a frame. */
  function PutSeq(f: Frame, syms: seq<string>, vals: seq<Value>): Frame
    requires |syms| == |vals|
    decreases |syms|
  {
    if |syms| == 0 then f else PutSeq(FramePut(f, syms[0], vals[0]), syms[1..], vals[1..])
  }

  predicate Distinct(s: seq<string>)
  {
    forall i, j :: 0 <= i < j < |s| ==> s[i] != s[j]
  }

  /** No formal is the rest marker `&`. */
  predicate Positional(formals: seq<string>)
  {
    forall j :: 0 <= j < |formals| ==> formals[j] != "&"
  }

  lemma {:induction false} PutSeqAppend(f: Frame, s1: seq<string>, v1: seq<Value>, s2: seq<string>, v2: seq<Value>)
    requires |s1| == |v1| && |s2| == |v2|
    ensures PutSeq(f, s1 + s2, v1 + v2) == PutSeq(PutSeq(f, s1, v1), s2, v2)
    decreases |s1|
  {
    if |s1| == 0 {
      assert s1 + s2 == s2 && v1 + v2 == v2;
    } else {
      assert (s1 + s2)[1..] == s1[1..] + s2 && (v1 + v2)[1..] == v1[1..] + v2;
      PutSeqAppend(FramePut(f, s1[0], v1[0]), s1[1..], v1[1..], s2, v2);
    }
  }

  /** Binding other names leaves the lookup of a name unchanged. */
  lemma {:induction false} PutSeqOther(f: Frame, syms: seq<string>, vals: seq<Value>, k: string)
    requires |syms| == |vals|
    requires forall j :: 0 <= j < |syms| ==> syms[j] != k
    ensures Lookup(PutSeq(f, syms, vals), k) == Lookup(f, k)
    decreases |syms|
  {
    if |syms| > 0 {
      LookupOtherAfterPut(f, syms[0], vals[0], k);
      PutSeqOther(FramePut(f, syms[0], vals[0]), syms[1..], vals[1..], k);
    }
  }

  /** With distinct names, each name is bound to its own value. */
  lemma {:induction false} PutSeqLookup(f: Frame, syms: seq<string>, vals: seq<Value>, j: nat)
    requires |syms| == |vals| && j < |syms| && Distinct(syms)
    ensures Lookup(PutSeq(f, syms, vals), syms[j]) == Some(vals[j])
    decreases |syms|
  {
    var g := FramePut(f, syms[0], vals[0]);
    if j == 0 {
      PutSeqOther(g, syms[1..], vals[1..], syms[0]);
      LookupAfterPut(f, syms[0], vals[0]);
    } else {
      PutSeqLookup(g, syms[1..], vals[1..], j - 1);
    }
  }

  /**
   * Without `&`, arguments are bound to formals in order: as many arguments as
   * formals run the body, fewer return the remaining formals.
   */
  lemma {:induction false} BindLoopPositional(frame: Frame, formals: seq<string>, args: seq<Value>, g: int, t: int)
    requires Positional(formals) && |args| <= |formals|
    ensures var bound := PutSeq(frame, formals[..|args|], args);
      BindLoop(frame, formals, args, g, t) ==
        if |args| == |formals| then Full(bound) else Partial(bound, formals[|args|..])
    decreases |args|
  {
    if |args| > 0 {
      var n := |args|;
      BindLoopPositional(FramePut(frame, formals[0], args[0]), formals[1..], args[1..], g, t);
      assert formals[..n][1..] == formals[1..][..n - 1];
      assert formals[1..][n - 1..] == formals[n..];
    }
  }

  lemma BindPositional(frame: Frame, formals: seq<string>, args: seq<Value>)
    requires Positional(formals) && |args| <= |formals|
    ensures |args| == |formals| ==> Bind(frame, formals, args) == Full(PutSeq(frame, formals, args))
    ensures |args| < |formals| ==> Bind(frame, formals, args) == Partial(PutSeq(frame, formals[..|args|], args), formals[|args|..])
  {
    BindLoopPositional(frame, formals, args, |args|, |formals|);
    assert formals[..|formals|] == formals;
  }

  /** Without `&`, more arguments than formals is an error reporting both counts. */
  lemma {:induction false} BindLoopTooMany(frame: Frame, formals: seq<string>, args: seq<Value>, g: int, t: int)
    requires Positional(formals) && |args| > |formals|
    ensures BindLoop(frame, formals, args, g, t) == Failed(Err(TooManyArguments(g, t)))
    decreases |args|
  {
    if |formals| > 0 {
      BindLoopTooMany(FramePut(frame, formals[0], args[0]), formals[1..], args[1..], g, t);
    }
  }

  lemma BindTooMany(frame: Frame, formals: seq<string>, args: seq<Value>)
    requires Positional(formals) && |args| > |formals|
    ensures Bind(frame, formals, args) == Failed(Err(TooManyArguments(|args|, |formals|)))
  {
    BindLoopTooMany(frame, formals, args, |args|, |formals|);
  }

  /**
   * With formals `fixed & rest`, the fixed formals take the first arguments
   * and `rest` a Q-expression of all the others, possibly `{}`.
   */
  lemma {:induction false} BindLoopVariadic(frame: Frame, fixed: seq<string>, rest: string, args: seq<Value>, g: int, t: int)
    requires Positional(fixed) && |args| >= |fixed|
    ensures BindLoop(frame, fixed + ["&", rest], args, g, t) ==
      Full(FramePut(PutSeq(frame, fixed, args[..|fixed|]), rest, QExpr(args[|fixed|..])))
    decreases |fixed|
  {
    if |fixed| == 0 {
      assert [] + ["&", rest] == ["&", rest];
    } else {
      assert (fixed + ["&", rest])[1..] == fixed[1..] + ["&", rest];
      assert args[..|fixed|][1..] == args[1..][..|fixed| - 1];
      assert args[1..][|fixed| - 1..] == args[|fixed|..];
      BindLoopVariadic(FramePut(frame, fixed[0], args[0]), fixed[1..], rest, args[1..], g, t);
    }
  }

  lemma BindVariadic(frame: Frame, fixed: seq<string>, rest: string, args: seq<Value>)
    requires Positional(fixed) && |args| >= |fixed|
    ensures Bind(frame, fixed + ["&", rest], args) ==
      Full(FramePut(PutSeq(frame, fixed, args[..|fixed|]), rest, QExpr(args[|fixed|..])))
  {
    BindLoopVariadic(frame, fixed, rest, args, |args|, |fixed + ["&", rest]|);
  }

  /** An `&` that is not followed by exactly one formal is an error once the arguments reach it. */
  lemma {:induction false} BindLoopRestFormat(frame: Frame, fixed: seq<string>, more: seq<string>, args: seq<Value>, g: int, t: int)
    requires Positional(fixed) && |args| >= |fixed| && |more| != 1
    ensures BindLoop(frame, fixed + ["&"] + more, args, g, t) == Failed(Err(RestFormat))
    decreases |fixed|
  {
    if |fixed| == 0 {
      assert [] + ["&"] + more == ["&"] + more;
    } else {
      assert (fixed + ["&"] + more)[1..] == fixed[1..] + ["&"] + more;
      BindLoopRestFormat(FramePut(frame, fixed[0], args[0]), fixed[1..], more, args[1..], g, t);
    }
  }

  lemma BindRestFormat(frame: Frame, fixed: seq<string>, more: seq<string>, args: seq<Value>)
    requires Positional(fixed) && |args| >= |fixed| && |more| != 1
    ensures Bind(frame, fixed + ["&"] + more, args) == Failed(Err(RestFormat))
  {
    BindLoopRestFormat(frame, fixed, more, args, |args|, |fixed + ["&"] + more|);
  }

  /** A call with fewer arguments than formals returns a function whose frame holds the arguments given. */
  lemma CallPartial(io: Loader, fuel: nat, env: Chain, f: Value, args: seq<Value>)
    requires f.Lambda? && Positional(f.formals) && 0 < |args| < |f.formals|
    ensures Call(io, fuel, env, f, args) ==
      Ok(env, Lambda(PutSeq(f.env, f.formals[..|args|], args), f.formals[|args|..], f.body))
  {
    BindPositional(f.env, f.formals, args);
  }

  /** Every formal bound by a partial application holds its argument (distinct formals). */
  lemma PartialHoldsArguments(io: Loader, fuel: nat, env: Chain, f: Value, args: seq<Value>, j: nat)
    requires f.Lambda? && Positional(f.formals) && Distinct(f.formals) && 0 < |args| < |f.formals| && j < |args|
    ensures Call(io, fuel, env, f, args).Ok? && Call(io, fuel, env, f, args).val.Lambda?
    ensures Lookup(Call(io, fuel, env, f, args).val.env, f.formals[j]) == Some(args[j])
  {
    CallPartial(io, fuel, env, f, args);
    var s := f.formals[..|args|];
    assert Distinct(s) && s[j] == f.formals[j];
    PutSeqLookup(f.env, s, args, j);
  }

  /**
   * Currying: applying a function to some arguments, then the result to the
   * rest, is the same as applying it to all of them at once.
   */
  lemma CallCurry(io: Loader, fuel: nat, env: Chain, f: Value, a1: seq<Value>, a2: seq<Value>)
    requires f.Lambda? && Positional(f.formals)
    requires 0 < |a1| < |f.formals| && 0 < |a2| && |a1| + |a2| <= |f.formals|
    ensures Call(io, fuel, env, f, a1).Ok? && Call(io, fuel, env, f, a1).val.Lambda?
    ensures Call(io, fuel, env, f, a1 + a2) == Call(io, fuel, env, Call(io, fuel, env, f, a1).val, a2)
  {
    CallPartial(io, fuel, env, f, a1);
    BindCurry(f.env, f.formals, a1, a2);
  }

  /** Binding the arguments in two batches binds them as one batch would. */
  lemma BindCurry(frame: Frame, formals: seq<string>, a1: seq<Value>, a2: seq<Value>)
    requires Positional(formals) && 0 < |a1| < |formals| && |a1| + |a2| <= |formals|
    ensures Bind(frame, formals, a1 + a2) == Bind(PutSeq(frame, formals[..|a1|], a1), formals[|a1|..], a2)
  {
    var k1, k2 := |a1|, |a2|;
    var frame1 := PutSeq(frame, formals[..k1], a1);
    var rest1 := formals[k1..];
    assert Positional(rest1);
    BindPositional(frame1, rest1, a2);
    BindPositional(frame, formals, a1 + a2);
    assert formals[..k1 + k2] == formals[..k1] + rest1[..k2];
    PutSeqAppend(frame, formals[..k1], a1, rest1[..k2], a2);
    assert rest1[k2..] == formals[k1 + k2..];
    if k1 + k2 == |formals| {
      assert rest1[..k2] == rest1;
      assert formals[..k1 + k2] == formals;
    }
  }


  /** A function without formals can never run its body: any argument is one too many. */
  lemma NoFormalsNeverRuns(io: Loader, fuel: nat, env: Chain, body: seq<Value>, frame: Frame, args: seq<Value>)
    requires |args| > 0
    ensures Call(io, fuel, env, Lambda(frame, [], body), args) == Ok(env, Err(TooManyArguments(|args|, 0)))
  {
  }

  /** The Q-expression `{k1 k2 ...}` of symbols naming `syms`. */
  function Quoted(syms: seq<string>): (q: Value)
    ensures q.QExpr? && |q.cells| == |syms|
    ensures forall j :: 0 <= j < |syms| ==> q.cells[j] == Sym(syms[j])
  {
    QExpr(seq(|syms|, j requires 0 <= j < |syms| => Sym(syms[j])))
  }

  lemma QuotedNames(syms: seq<string>)
    ensures FirstNonSym(Quoted(syms).cells) < 0 && Names(Quoted(syms).cells) == syms
  {
  }

  /** What a child that is not an S-expression evaluates to: a symbol's binding, or itself. */
  function AtomValue(env: Chain, v: Value): Value
  {
    if v.Sym? then ChainGet(env, v.str) else v
  }

  /** Children that are not S-expressions are evaluated without consuming fuel or changing any frame. */
  lemma {:induction false} EvalCellsAtoms(io: Loader, fuel: nat, env: Chain, cells: seq<Value>)
    requires forall j :: 0 <= j < |cells| ==> !cells[j].SExpr?
    ensures EvalCells(io, fuel, env, cells).Ok? && EvalCells(io, fuel, env, cells).env == env
    ensures |EvalCells(io, fuel, env, cells).val| == |cells|
    ensures forall j :: 0 <= j < |cells| ==> EvalCells(io, fuel, env, cells).val[j] == AtomValue(env, cells[j])
    decreases |cells|
  {
    if |cells| > 0 {
      EvalCellsAtoms(io, fuel, env, cells[1..]);
      var vs := EvalCells(io, fuel, env, cells).val;
      forall j | 0 <= j < |cells| ensures vs[j] == AtomValue(env, cells[j]) {
        if j > 0 {
          assert cells[1..][j - 1] == cells[j];
        }
      }
    }
  }

  lemma VarPutAllOne(env: Chain, global: bool, k: string, v: Value)
    ensures VarPutAll(env, global, [k], [v]) == VarPut(env, global, k, v)
  {
    assert [k][1..] == [] && [v][1..] == [];
  }

  lemma BindOne(frame: Frame, x: string, a: Value)
    requires x != "&"
    ensures Bind(frame, [x], [a]) == Full(FramePut(frame, x, a))
  {
    assert [x][1..] == [] && [a][1..] == [];
    assert BindLoop(FramePut(frame, x, a), [], [], 1, 1) == Full(FramePut(frame, x, a));
  }

  /**
   * `def` binds in the global frame whatever frame evaluation runs in, leaves
   * every other frame alone, and returns `()`; the name then yields the value
   * unless a nearer frame binds it.
   */
  lemma DefBindsGlobally(io: Loader, fuel: nat, env: Chain, k: string, v: Value)
    ensures Dispatch(io, fuel, env, OpDef, [Quoted([k]), v]) == Ok(DefGlobal(env, k, v), SExpr([]))
    ensures (forall j :: 0 <= j < |env| - 1 ==> Lookup(env[j], k).None?) ==> ChainGet(DefGlobal(env, k, v), k) == v
  {
    QuotedNames([k]);
    VarPutAllOne(env, true, k, v);
    assert [Quoted([k]), v][1..] == [v];
    if forall j :: 0 <= j < |env| - 1 ==> Lookup(env[j], k).None? {
      GetAfterDef(env, k, v);
    }
  }

  /**
   * `=` binds in the frame evaluation runs in and leaves every other frame,
   * the global one included when there are others, alone; the name then
   * yields the value.
   */
  lemma PutBindsLocally(io: Loader, fuel: nat, env: Chain, k: string, v: Value)
    ensures Dispatch(io, fuel, env, OpPut, [Quoted([k]), v]) == Ok(PutLocal(env, k, v), SExpr([]))
    ensures ChainGet(PutLocal(env, k, v), k) == v
    ensures |env| > 1 ==> PutLocal(env, k, v)[|env| - 1] == env[|env| - 1]
  {
    QuotedNames([k]);
    VarPutAllOne(env, false, k, v);
    assert [Quoted([k]), v][1..] == [v];
    GetAfterPutLocal(env, k, v);
  }

  /** A failed `def` or `=` changes nothing: wrong counts are reported with both numbers. */
  lemma VarCountMismatch(io: Loader, fuel: nat, env: Chain, syms: seq<string>, vals: seq<Value>)
    requires |syms| != |vals|
    ensures Dispatch(io, fuel, env, OpDef, [Quoted(syms)] + vals) == Ok(env, Err(VarCount("def", |syms|, |vals|)))
    ensures Dispatch(io, fuel, env, OpPut, [Quoted(syms)] + vals) == Ok(env, Err(VarCount("=", |syms|, |vals|)))
  {
    QuotedNames(syms);
    assert ([Quoted(syms)] + vals)[0] == Quoted(syms);
  }

  /** Binding names with `=` never changes what another name yields. */
  lemma {:induction false} PutAllOther(env: Chain, syms: seq<string>, vals: seq<Value>, k: string)
    requires |syms| == |vals| && forall j :: 0 <= j < |syms| ==> syms[j] != k
    ensures ChainGet(VarPutAll(env, false, syms, vals), k) == ChainGet(env, k)
    decreases |syms|
  {
    if |syms| > 0 {
      GetOtherAfterPutLocal(env, syms[0], vals[0], k);
      PutAllOther(VarPut(env, false, syms[0], vals[0]), syms[1..], vals[1..], k);
    }
  }

  /** `=` with several distinct names binds each to its own value. */
  lemma {:induction false} PutAllBinds(env: Chain, syms: seq<string>, vals: seq<Value>, j: nat)
    requires |syms| == |vals| && j < |syms| && Distinct(syms)
    ensures ChainGet(VarPutAll(env, false, syms, vals), syms[j]) == vals[j]
    decreases |syms|
  {
    var env1 := VarPut(env, false, syms[0], vals[0]);
    if j == 0 {
      PutAllOther(env1, syms[1..], vals[1..], syms[0]);
      GetAfterPutLocal(env, syms[0], vals[0]);
    } else {
      PutAllBinds(env1, syms[1..], vals[1..], j - 1);
    }
  }

  lemma PutManyBinds(io: Loader, fuel: nat, env: Chain, syms: seq<string>, vals: seq<Value>, j: nat)
    requires |syms| == |vals| && j < |syms| && Distinct(syms)
    ensures Dispatch(io, fuel, env, OpPut, [Quoted(syms)] + vals).Ok?
    ensures ChainGet(Dispatch(io, fuel, env, OpPut, [Quoted(syms)] + vals).env, syms[j]) == vals[j]
  {
    QuotedNames(syms);
    var a := [Quoted(syms)] + vals;
    assert a[0] == Quoted(syms) && a[1..] == vals;
    PutAllBinds(env, syms, vals, j);
  }

  /** `if` on a boolean evaluates exactly the branch it selects, as an S-expression. */
  lemma IfSelects(io: Loader, fuel: nat, env: Chain, b: bool, t: seq<Value>, e: seq<Value>)
    ensures If(io, fuel, env, [Bool(b), QExpr(t), QExpr(e)]) == Eval(io, fuel, env, SExpr(if b then t else e))
  {
  }

  /**
   * A Q-expression condition is evaluated as an S-expression; a boolean result
   * selects the branch, which runs in the environment the condition left, and
   * any other result is the "must be conditional" error.
   */
  lemma IfEvaluatesCondition(io: Loader, fuel: nat, env: Chain, c: seq<Value>, t: seq<Value>, e: seq<Value>)
    requires Eval(io, fuel, env, SExpr(c)).Ok?
    ensures var Ok(env1, w) := Eval(io, fuel, env, SExpr(c));
      If(io, fuel, env, [QExpr(c), QExpr(t), QExpr(e)]) ==
        if w.Bool? then Eval(io, fuel, env1, SExpr(if w.b then t else e))
        else Ok(env1, Err(NotConditional(TagOf(w))))
  {
  }

  /** `if` refuses a condition that is neither a boolean nor evaluates to one. */
  lemma IfNeedsBoolean(io: Loader, fuel: nat, env: Chain, c: Value, t: seq<Value>, e: seq<Value>)
    requires !c.Bool? && !c.QExpr?
    ensures If(io, fuel, env, [c, QExpr(t), QExpr(e)]) == Ok(env, Err(NotConditional(TagOf(c))))
  {
  }

  /** `if` requires exactly three arguments and Q-expression branches, checking them in that order. */
  lemma IfChecks(io: Loader, fuel: nat, env: Chain, a: seq<Value>)
    ensures |a| != 3 ==> If(io, fuel, env, a) == Ok(env, Err(ArgCount("if", |a|, 3)))
    ensures |a| == 3 && !a[1].QExpr? ==> If(io, fuel, env, a) == Ok(env, Err(BranchType(TagOf(a[1]))))
    ensures |a| == 3 && a[1].QExpr? && !a[2].QExpr? ==> If(io, fuel, env, a) == Ok(env, Err(BranchType(TagOf(a[2]))))
  {
  }

  /**
   * A call that binds every formal runs the body as an S-expression on top of
   * the caller's chain and then drops the call's own frame.
   */
  lemma CallFull(io: Loader, fuel: nat, env: Chain, f: Value, args: seq<Value>, frame: Frame)
    requires f.Lambda? && |args| > 0 && Bind(f.env, f.formals, args) == Full(frame) && fuel >= 1
    ensures EvalSExpr(io, fuel - 1, [frame] + env, f.body).OutOfFuel? ==> Call(io, fuel, env, f, args).OutOfFuel?
    ensures EvalSExpr(io, fuel - 1, [frame] + env, f.body).Ok? ==>
      Call(io, fuel, env, f, args) ==
      Ok(EvalSExpr(io, fuel - 1, [frame] + env, f.body).env[1..], EvalSExpr(io, fuel - 1, [frame] + env, f.body).val)
  {
    assert Dispatch(io, fuel, [frame] + env, OpEval, [QExpr(f.body)]) == Eval(io, fuel, [frame] + env, SExpr(f.body));
  }

  /**
   * Dynamic scope: a function body resolves a name it does not bind in the
   * environment of its caller, not the one it was defined in.
   */
  lemma BodySeesCaller(io: Loader, fuel: nat, env: Chain, x: string, y: string, a: Value)
    requires x != y && x != "&" && fuel >= 1
    ensures Call(io, fuel, env, Lambda(Frame([]), [x], [Sym(y)]), [a]) == Ok(env, ChainGet(env, y))
  {
    var frame := FramePut(Frame([]), x, a);
    var c: Chain := [frame] + env;
    LookupOtherAfterPut(Frame([]), x, a, y);
    assert c[1..] == env;
    assert ChainGet(c, y) == ChainGet(env, y);
    BindOne(Frame([]), x, a);
    EvalCellsAtoms(io, fuel - 1, c, [Sym(y)]);
    assert EvalCells(io, fuel - 1, c, [Sym(y)]).val == [ChainGet(env, y)];
    assert EvalSExpr(io, fuel - 1, c, [Sym(y)]) == Ok(c, ChainGet(env, y));
    CallFull(io, fuel, env, Lambda(Frame([]), [x], [Sym(y)]), [a], frame);
  }

  /**
   * `=` inside a function body writes the call's own frame, which is dropped
   * when the call returns: the caller's environment is unchanged.
   */
  lemma BodyPutIsLocal(io: Loader, fuel: nat, env: Chain, x: string, y: string, a: Value, v: Value)
    requires fuel >= 1 && x != "=" && x != "&" && ChainGet(env, "=") == Builtin(OpPut)
    requires !v.SExpr? && !v.Sym? && !v.Err?
    ensures Call(io, fuel, env, Lambda(Frame([]), [x], [Sym("="), Quoted([y]), v]), [a]) == Ok(env, SExpr([]))
  {
    var frame := FramePut(Frame([]), x, a);
    LookupOtherAfterPut(Frame([]), x, a, "=");
    GetBehindFrame(frame, env, "=");
    BindOne(Frame([]), x, a);
    PutForm(io, fuel - 1, [frame] + env, y, v);
    assert PutLocal([frame] + env, y, v)[1..] == env;
    CallFull(io, fuel, env, Lambda(Frame([]), [x], [Sym("="), Quoted([y]), v]), [a], frame);
  }

  /** `def` inside a function body writes the global frame, which the caller keeps. */
  lemma BodyDefIsGlobal(io: Loader, fuel: nat, env: Chain, x: string, y: string, a: Value, v: Value)
    requires fuel >= 1 && x != "def" && x != "&" && ChainGet(env, "def") == Builtin(OpDef)
    requires !v.SExpr? && !v.Sym? && !v.Err?
    ensures Call(io, fuel, env, Lambda(Frame([]), [x], [Sym("def"), Quoted([y]), v]), [a]) ==
      Ok(DefGlobal(env, y, v), SExpr([]))
  {
    var frame := FramePut(Frame([]), x, a);
    BindOne(Frame([]), x, a);
    DefInFrame(io, fuel - 1, env, frame, y, v);
    CallDefRuns(io, fuel, env, Lambda(Frame([]), [x], [Sym("def"), Quoted([y]), v]), [a], frame, y, v);
  }

  /** `def` run inside a frame that does not bind `def` itself still reaches the global builtin. */
  lemma DefInFrame(io: Loader, fuel: nat, env: Chain, frame: Frame, y: string, v: Value)
    requires Lookup(frame, "def").None? && ChainGet(env, "def") == Builtin(OpDef)
    requires !v.SExpr? && !v.Sym? && !v.Err?
    ensures EvalSExpr(io, fuel, [frame] + env, [Sym("def"), Quoted([y]), v]) ==
      Ok(DefGlobal([frame] + env, y, v), SExpr([]))
  {
    GetBehindFrame(frame, env, "def");
    DefForm(io, fuel, [frame] + env, y, v);
  }

  /** A call whose body defines `y` globally leaves the definition in the caller's chain. */
  lemma CallDefRuns(io: Loader, fuel: nat, env: Chain, f: Value, args: seq<Value>, frame: Frame, y: string, v: Value)
    requires f.Lambda? && |args| > 0 && Bind(f.env, f.formals, args) == Full(frame) && fuel >= 1
    requires EvalSExpr(io, fuel - 1, [frame] + env, f.body) == Ok(DefGlobal([frame] + env, y, v), SExpr([]))
    ensures Call(io, fuel, env, f, args) == Ok(DefGlobal(env, y, v), SExpr([]))
  {
    DefBehindFrame(frame, env, y, v);
    CallRuns(io, fuel, env, f, args, frame, DefGlobal([frame] + env, y, v), SExpr([]));
  }

  /** A full call whose body yields `val` in `env1` returns `val` with the call's frame dropped from `env1`. */
  lemma CallRuns(io: Loader, fuel: nat, env: Chain, f: Value, args: seq<Value>, frame: Frame, env1: Chain, val: Value)
    requires f.Lambda? && |args| > 0 && Bind(f.env, f.formals, args) == Full(frame) && fuel >= 1
    requires EvalSExpr(io, fuel - 1, [frame] + env, f.body) == Ok(env1, val)
    ensures |env1| > 1 && Call(io, fuel, env, f, args) == Ok(env1[1..], val)
  {
    CallFull(io, fuel, env, f, args, frame);
  }

  /** A frame that does not bind `k` is transparent to its lookup. */
  lemma GetBehindFrame(frame: Frame, env: Chain, k: string)
    requires Lookup(frame, k).None?
    ensures ChainGet([frame] + env, k) == ChainGet(env, k)
  {
    assert ([frame] + env)[1..] == env;
  }

  /** `def` under a pushed frame writes the same root and keeps the pushed frame. */
  lemma DefBehindFrame(frame: Frame, env: Chain, k: string, v: Value)
    ensures DefGlobal([frame] + env, k, v)[1..] == DefGlobal(env, k, v)
  {
    assert ([frame] + env)[1..] == env;
  }

  /** `(def {k} v)` evaluated as an S-expression binds `k` globally and yields `()`. */
  lemma DefForm(io: Loader, fuel: nat, env: Chain, k: string, v: Value)
    requires ChainGet(env, "def") == Builtin(OpDef) && !v.SExpr? && !v.Sym? && !v.Err?
    ensures EvalSExpr(io, fuel, env, [Sym("def"), Quoted([k]), v]) == Ok(DefGlobal(env, k, v), SExpr([]))
  {
    var inner := [Sym("def"), Quoted([k]), v];
    EvalCellsAtoms(io, fuel, env, inner);
    var ivs := EvalCells(io, fuel, env, inner);
    assert ivs.val == [Builtin(OpDef), Quoted([k]), v];
    assert FirstErr(ivs.val) < 0;
    assert ivs.val[1..] == [Quoted([k]), v];
    DefBindsGlobally(io, fuel, env, k, v);
  }

  /** `(= {k} v)` evaluated as an S-expression binds `k` in the current frame and yields `()`. */
  lemma PutForm(io: Loader, fuel: nat, env: Chain, k: string, v: Value)
    requires ChainGet(env, "=") == Builtin(OpPut) && !v.SExpr? && !v.Sym? && !v.Err?
    ensures EvalSExpr(io, fuel, env, [Sym("="), Quoted([k]), v]) == Ok(PutLocal(env, k, v), SExpr([]))
  {
    var inner := [Sym("="), Quoted([k]), v];
    EvalCellsAtoms(io, fuel, env, inner);
    var ivs := EvalCells(io, fuel, env, inner);
    assert ivs.val == [Builtin(OpPut), Quoted([k]), v];
    assert FirstErr(ivs.val) < 0;
    assert ivs.val[1..] == [Quoted([k]), v];
    PutBindsLocally(io, fuel, env, k, v);
  }

  /**
   * Every child of an S-expression is evaluated, with its effects, even after
   * an earlier child has failed; the first error is the result.
   */
  lemma ErrorsDoNotShortCircuit(io: Loader, fuel: nat, env: Chain, u: string, k: string, v: Value)
    requires fuel >= 2 && ChainGet(env, u).Err? && ChainGet(env, "def") == Builtin(OpDef)
    requires !v.SExpr? && !v.Sym? && !v.Err?
    ensures Eval(io, fuel, env, SExpr([Sym(u), SExpr([Sym("def"), Quoted([k]), v])])) ==
      Ok(DefGlobal(env, k, v), ChainGet(env, u))
  {
    var inner := [Sym("def"), Quoted([k]), v];
    DefForm(io, fuel - 2, env, k, v);
    ErrorBeforeEffect(io, fuel, env, Sym(u), SExpr(inner));
  }

  /** An error in the first of two children still lets the second run with its effects; the error is the result. */
  lemma ErrorBeforeEffect(io: Loader, fuel: nat, env: Chain, a: Value, b: Value)
    requires fuel >= 1 && !a.SExpr? && Eval(io, fuel - 1, env, a).val.Err? && Eval(io, fuel - 1, env, b).Ok?
    ensures Eval(io, fuel, env, SExpr([a, b])) ==
      Ok(Eval(io, fuel - 1, env, b).env, Eval(io, fuel - 1, env, a).val)
  {
    EvalCellsTwo(io, fuel - 1, env, a, b);
    FirstErrorWins(io, fuel - 1, env, [a, b], 0);
  }

  /** Two children are evaluated left to right, the second in the environment the first left. */
  lemma EvalCellsTwo(io: Loader, fuel: nat, env: Chain, a: Value, b: Value)
    requires Eval(io, fuel, env, a).Ok? && Eval(io, fuel, Eval(io, fuel, env, a).env, b).Ok?
    ensures var ra := Eval(io, fuel, env, a); var rb := Eval(io, fuel, ra.env, b);
      EvalCells(io, fuel, env, [a, b]) == Ok(rb.env, [ra.val, rb.val])
  {
    var ra := Eval(io, fuel, env, a);
    var rb := Eval(io, fuel, ra.env, b);
    assert [a, b][1..] == [b] && [b][1..] == [];
    assert EvalCells(io, fuel, rb.env, []) == Ok(rb.env, []);
    assert [rb.val] + [] == [rb.val];
    assert EvalCells(io, fuel, ra.env, [b]) == Ok(rb.env, [rb.val]);
    assert [ra.val] + [rb.val] == [ra.val, rb.val];
  }

  /** Once the children are evaluated, the lowest-indexed error among their values is the result. */
  lemma FirstErrorWins(io: Loader, fuel: nat, env: Chain, cells: seq<Value>, j: nat)
    requires EvalCells(io, fuel, env, cells).Ok?
    requires var vs := EvalCells(io, fuel, env, cells).val;
      j < |vs| && vs[j].Err? && forall i :: 0 <= i < j ==> !vs[i].Err?
    ensures EvalSExpr(io, fuel, env, cells) ==
      Ok(EvalCells(io, fuel, env, cells).env, EvalCells(io, fuel, env, cells).val[j])
  {
    var r := EvalCells(io, fuel, env, cells);
    assert FirstErr(r.val) == j;
  }

  /** Two or more error-free values whose first is not a function: "S-Expression starts with incorrect type". */
  lemma BadHeadRejected(io: Loader, fuel: nat, env: Chain, cells: seq<Value>)
    requires EvalCells(io, fuel, env, cells).Ok?
    requires var vs := EvalCells(io, fuel, env, cells).val;
      |vs| >= 2 && !IsFun(vs[0]) && forall i :: 0 <= i < |vs| ==> !vs[i].Err?
    ensures EvalSExpr(io, fuel, env, cells) ==
      Ok(EvalCells(io, fuel, env, cells).env, Err(BadHead(TagOf(EvalCells(io, fuel, env, cells).val[0]))))
  {
  }

  /**
   * `list` retags its arguments as a Q-expression; `eval` retags a lone
   * Q-expression as an S-expression and evaluates it, and refuses anything else.
   */
  lemma ListAndEvalRetag(io: Loader, fuel: nat, env: Chain, a: seq<Value>)
    requires |a| > 0
    ensures Dispatch(io, fuel, env, OpList, a) == Ok(env, QExpr(a))
    ensures |a| == 1 && a[0].QExpr? ==> Dispatch(io, fuel, env, OpEval, a) == Eval(io, fuel, env, SExpr(a[0].cells))
    ensures |a| != 1 ==> Dispatch(io, fuel, env, OpEval, a) == Ok(env, Err(ListArgCount("eval", |a|)))
    ensures |a| == 1 && !a[0].QExpr? ==> Dispatch(io, fuel, env, OpEval, a) == Ok(env, Err(ListArgType("eval", TagOf(a[0]))))
  {
  }

  /** `(f)` does not call `f`: a lone child, of any kind, is the value of the S-expression; `()` is itself. */
  lemma LoneChildIsValue(io: Loader, fuel: nat, env: Chain, c: Value)
    requires fuel >= 1
    ensures Eval(io, fuel, env, SExpr([c])) == Eval(io, fuel - 1, env, c)
    ensures Eval(io, fuel, env, SExpr([])) == Ok(env, SExpr([]))
  {
    assert EvalCells(io, fuel - 1, env, []) == Ok(env, []);
    var r := Eval(io, fuel - 1, env, c);
    assert [c][1..] == [];
    if r.Ok? {
      assert EvalCells(io, fuel - 1, r.env, []) == Ok(r.env, []);
      assert [r.val] + [] == [r.val];
      assert EvalCells(io, fuel - 1, env, [c]) == Ok(r.env, [r.val]);
      assert FirstErr([r.val]) == (if r.val.Err? then 0 else -1);
    } else {
      assert EvalCells(io, fuel - 1, env, [c]).OutOfFuel?;
    }
    assert EvalSExpr(io, fuel - 1, env, [c]) == r;
  }

  /** Raising the fuel bound never changes a result that was reached. */
  lemma {:induction false} EvalMono(io: Loader, fuel: nat, fuel': nat, env: Chain, v: Value)
    requires fuel <= fuel' && Eval(io, fuel, env, v).Ok?
    ensures Eval(io, fuel', env, v) == Eval(io, fuel, env, v)
    decreases fuel, 0, 0
  {
    if v.SExpr? {
      EvalSExprMono(io, fuel - 1, fuel' - 1, env, v.cells);
    }
  }

  lemma {:induction false} EvalCellsMono(io: Loader, fuel: nat, fuel': nat, env: Chain, cells: seq<Value>)
    requires fuel <= fuel' && EvalCells(io, fuel, env, cells).Ok?
    ensures EvalCells(io, fuel', env, cells) == EvalCells(io, fuel, env, cells)
    decreases fuel, 1, |cells|
  {
    if |cells| > 0 {
      EvalMono(io, fuel, fuel', env, cells[0]);
      EvalCellsMono(io, fuel, fuel', Eval(io, fuel, env, cells[0]).env, cells[1..]);
    }
  }

  lemma {:induction false} EvalSExprMono(io: Loader, fuel: nat, fuel': nat, env: Chain, cells: seq<Value>)
    requires fuel <= fuel' && EvalSExpr(io, fuel, env, cells).Ok?
    ensures EvalSExpr(io, fuel', env, cells) == EvalSExpr(io, fuel, env, cells)
    decreases fuel, 4, 0
  {
    EvalCellsMono(io, fuel, fuel', env, cells);
    var r := EvalCells(io, fuel, env, cells);
    var vs := r.val;
    if FirstErr(vs) < 0 && |vs| > 1 && IsFun(vs[0]) {
      CallMono(io, fuel, fuel', r.env, vs[0], vs[1..]);
    }
  }

  lemma {:induction false} CallMono(io: Loader, fuel: nat, fuel': nat, env: Chain, f: Value, args: seq<Value>)
    requires IsFun(f) && |args| > 0
    requires fuel <= fuel' && Call(io, fuel, env, f, args).Ok?
    ensures Call(io, fuel', env, f, args) == Call(io, fuel, env, f, args)
    decreases fuel, 3, 0
  {
    if f.Builtin? {
      DispatchMono(io, fuel, fuel', env, f.fn, args);
    } else if Bind(f.env, f.formals, args).Full? {
      DispatchMono(io, fuel, fuel', [Bind(f.env, f.formals, args).frame] + env, OpEval, [QExpr(f.body)]);
    }
  }

  lemma {:induction false} DispatchMono(io: Loader, fuel: nat, fuel': nat, env: Chain, op: BuiltinFn, args: seq<Value>)
    requires |args| > 0
    requires fuel <= fuel' && Dispatch(io, fuel, env, op, args).Ok?
    ensures Dispatch(io, fuel', env, op, args) == Dispatch(io, fuel, env, op, args)
    decreases fuel, 2, 1
  {
    match op
    case OpEval =>
      if |args| == 1 && args[0].QExpr? {
        EvalMono(io, fuel, fuel', env, SExpr(args[0].cells));
      }
    case OpIf => IfMono(io, fuel, fuel', env, args);
    case OpLoad => LoadMono(io, fuel, fuel', env, args);
    case _ =>
  }

  lemma {:induction false} IfMono(io: Loader, fuel: nat, fuel': nat, env: Chain, args: seq<Value>)
    requires fuel <= fuel' && If(io, fuel, env, args).Ok?
    ensures If(io, fuel', env, args) == If(io, fuel, env, args)
    decreases fuel, 1, 0
  {
    if IfError(args).None? {
      var env1 := env;
      var truth := args[0];
      if args[0].QExpr? {
        EvalMono(io, fuel, fuel', env, SExpr(args[0].cells));
        env1 := Eval(io, fuel, env, SExpr(args[0].cells)).env;
        truth := Eval(io, fuel, env, SExpr(args[0].cells)).val;
      }
      if truth.Bool? {
        EvalMono(io, fuel, fuel', env1, SExpr((if truth.b then args[1] else args[2]).cells));
      }
    }
  }

  lemma {:induction false} LoadMono(io: Loader, fuel: nat, fuel': nat, env: Chain, args: seq<Value>)
    requires fuel <= fuel' && Load(io, fuel, env, args).Ok?
    ensures Load(io, fuel', env, args) == Load(io, fuel, env, args)
    decreases fuel, 2, 0
  {
    if |args| == 1 && args[0].Str? && io(args[0].str).Forms? {
      EvalCellsMono(io, fuel, fuel', env, io(args[0].str).forms);
    }
  }
}
