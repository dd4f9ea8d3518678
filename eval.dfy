/**
 * The evaluator (lispy.c:417-454, 476-543, 603-645, 761-807, 845-869).
 *
 * A lambda's own frame is always a root (`par` is NULL) except while its body
 * runs, when lval_call links it to the caller's environment (lispy.c:537) and
 * discards it afterwards. The environments evaluation can see therefore form a
 * stack: the frames of the active calls, innermost first, ending in the global
 * frame. Evaluation is bounded by `fuel`, which an S-expression consumes; a
 * result `OutOfFuel` means the bound was reached, not that the program fails.
 */
module Evaluator {
  import opened Values
  import opened Environment
  import opened Builtins

  /** The environment after a step and the step's value, or the fuel bound was reached. */
  datatype Out<T> = Ok(env: Chain, val: T) | OutOfFuel

  /** What reading a file yields: its top-level forms, or the parser's message. */
  datatype Parsed = Forms(forms: seq<Value>) | ParseError(message: string)

  /** The file system and reader as `load` uses them (mpc_parse_contents and lval_read). */
  type Loader = string -> Parsed

  /**
   * Evaluation changes at most the innermost frame (through `=`) and the
   * global frame (through `def`); the frames of the callers in between are
   * untouched.
   */
  predicate Preserves(c: Chain, c': Chain)
  {
    |c'| == |c| && forall i :: 0 < i < |c| - 1 ==> c'[i] == c[i]
  }

  /** The position of the first error among evaluated children, or -1 (lispy.c:611-615). */
  function FirstErr(vs: seq<Value>): (i: int)
    ensures -1 <= i < |vs|
    ensures 0 <= i ==> vs[i].Err?
    ensures forall j :: 0 <= j < |vs| && (i < 0 || j < i) ==> !vs[j].Err?
    decreases vs
  {
    if |vs| == 0 then -1
    else if vs[0].Err? then 0
    else
      var j := FirstErr(vs[1..]);
      if j < 0 then -1 else j + 1
  }

  /** lval_eval (lispy.c:639-645): symbols are looked up, S-expressions evaluated, everything else is itself. */
  function Eval(io: Loader, fuel: nat, env: Chain, v: Value): (r: Out<Value>)
    ensures r.Ok? ==> Preserves(env, r.env)
    ensures !v.SExpr? ==> r.Ok? && r.env == env
    ensures v.Sym? ==> r.val == ChainGet(env, v.str)
    ensures !v.SExpr? && !v.Sym? ==> r.val == v
    decreases fuel, 0, 0
  {
    match v
    case Sym(s) => Ok(env, ChainGet(env, s))
    case SExpr(cells) => if fuel == 0 then OutOfFuel else EvalSExpr(io, fuel - 1, env, cells)
    case _ => Ok(env, v)
  }

  /** The first loop of lval_eval_sexpr (lispy.c:606-608): every child, left to right, each in the environment the previous one left. */
  function EvalCells(io: Loader, fuel: nat, env: Chain, cells: seq<Value>): (r: Out<seq<Value>>)
    ensures r.Ok? ==> Preserves(env, r.env) && |r.val| == |cells|
    decreases fuel, 1, |cells|
  {
    if |cells| == 0 then Ok(env, [])
    else
      match Eval(io, fuel, env, cells[0])
      case OutOfFuel => OutOfFuel
      case Ok(env1, v) =>
        match EvalCells(io, fuel, env1, cells[1..])
        case OutOfFuel => OutOfFuel
        case Ok(env2, vs) => Ok(env2, [v] + vs)
  }

  /**
   * lval_eval_sexpr (lispy.c:603-637): evaluate all children, then return the
   * first error among them; `()` is itself, a lone child is its value, and
   * otherwise the first child must be a function, called on the rest.
   */
  function EvalSExpr(io: Loader, fuel: nat, env: Chain, cells: seq<Value>): (r: Out<Value>)
    ensures r.Ok? ==> Preserves(env, r.env)
    decreases fuel, 4, 0
  {
    match EvalCells(io, fuel, env, cells)
    case OutOfFuel => OutOfFuel
    case Ok(env1, vs) =>
      var i := FirstErr(vs);
      if i >= 0 then Ok(env1, vs[i])
      else if |vs| == 0 then Ok(env1, SExpr([]))
      else if |vs| == 1 then Ok(env1, vs[0])
      else if !IsFun(vs[0]) then Ok(env1, Err(BadHead(TagOf(vs[0]))))
      else Call(io, fuel, env1, vs[0], vs[1..])
  }

  /** How binding the arguments of a lambda call ends. */
  datatype Bound =
    | Failed(err: Value)                        // the call is an error
    | Partial(frame: Frame, rest: seq<string>)  // formals remain: the call returns a new function
    | Full(frame: Frame)                        // every formal is bound: the body runs

  /**
   * The binding loop of lval_call (lispy.c:485-511): each argument is bound to
   * the next formal; at `&`, the one formal after it takes all the remaining
   * arguments as a Q-expression.
   */
  function BindLoop(frame: Frame, formals: seq<string>, args: seq<Value>, given: int, total: int): Bound
    decreases |args|
  {
    if |args| == 0 then BindRest(frame, formals)
    else if |formals| == 0 then Failed(Err(TooManyArguments(given, total)))
    else if formals[0] == "&" then
      if |formals| != 2 then Failed(Err(RestFormat))
      else Full(FramePut(frame, formals[1], QExpr(args)))
    else BindLoop(FramePut(frame, formals[0], args[0]), formals[1..], args[1..], given, total)
  }

  /** After the arguments run out (lispy.c:515-534): a pending `&` formal is bound to `{}`. */
  function BindRest(frame: Frame, formals: seq<string>): (r: Bound)
    ensures r.Partial? ==> r.rest == formals && r.frame == frame && 0 < |formals| && formals[0] != "&"
    ensures r.Failed? ==> r.err == Err(RestFormat)
  {
    if |formals| > 0 && formals[0] == "&" then
      if |formals| != 2 then Failed(Err(RestFormat))
      else Full(FramePut(frame, formals[1], QExpr([])))
    else if |formals| == 0 then Full(frame)
    else Partial(frame, formals)
  }

  /** lval_call's binding of `args` to the formals of a lambda whose frame is `frame` (lispy.c:485-534). */
  function Bind(frame: Frame, formals: seq<string>, args: seq<Value>): Bound
  {
    BindLoop(frame, formals, args, |args|, |formals|)
  }

  /**
   * Each argument consumes one formal: a partial result leaves exactly the
   * formals after the first `|args|`, and the only failures are "too many
   * arguments" and the `&` format error.
   */
  lemma {:induction false} BindLoopShape(frame: Frame, formals: seq<string>, args: seq<Value>, given: int, total: int)
    ensures var r := BindLoop(frame, formals, args, given, total);
      (r.Partial? ==> |args| < |formals| && r.rest == formals[|args|..]) &&
      (r.Failed? ==> r.err == Err(TooManyArguments(given, total)) || r.err == Err(RestFormat))
    decreases |args|
  {
    if |args| > 0 && |formals| > 0 && formals[0] != "&" {
      var f := FramePut(frame, formals[0], args[0]);
      BindLoopShape(f, formals[1..], args[1..], given, total);
      if BindLoop(f, formals[1..], args[1..], given, total).Partial? {
        assert formals[1..][|args| - 1..] == formals[|args|..];
      }
    }
  }

  /** BindLoopShape for a call: the too-many error carries the argument and formal counts. */
  lemma BindShape(frame: Frame, formals: seq<string>, args: seq<Value>)
    ensures var r := Bind(frame, formals, args);
      (r.Partial? ==> |args| < |formals| && r.rest == formals[|args|..]) &&
      (r.Failed? ==> r.err == Err(TooManyArguments(|args|, |formals|)) || r.err == Err(RestFormat))
  {
    BindLoopShape(frame, formals, args, |args|, |formals|);
  }

  /** The binding part of lval_call as the source runs it: pop formals and arguments until one list is exhausted. */
  method BindArguments(frame: Frame, formals: seq<string>, args: seq<Value>) returns (r: Bound)
    ensures r == Bind(frame, formals, args)
  {
    var given := |args|;
    var total := |formals|;
    var env := frame;
    var fs := formals;
    var a := args;
    while |a| > 0
      invariant BindLoop(env, fs, a, given, total) == Bind(frame, formals, args)
      decreases |a|
    {
      if |fs| == 0 {
        return Failed(Err(TooManyArguments(given, total)));
      }
      var sym := fs[0];
      fs := fs[1..];
      if sym == "&" {
        if |fs| != 1 {
          return Failed(Err(RestFormat));
        }
        var nsym := fs[0];
        fs := fs[1..];
        env := FramePut(env, nsym, QExpr(a));
        return Full(env);
      }
      env := FramePut(env, sym, a[0]);
      a := a[1..];
    }
    if |fs| > 0 && fs[0] == "&" {
      if |fs| != 2 {
        return Failed(Err(RestFormat));
      }
      env := FramePut(env, fs[1], QExpr([]));
      return Full(env);
    }
    if |fs| == 0 {
      return Full(env);
    }
    return Partial(env, fs);
  }

  /**
   * lval_call (lispy.c:476-543). A builtin is applied to the arguments. A
   * lambda's arguments are bound into a copy of its frame; with formals left
   * over the copy is returned, otherwise the body runs as an S-expression in
   * the copy, whose parent is the caller's environment.
   */
  function Call(io: Loader, fuel: nat, env: Chain, f: Value, args: seq<Value>): (r: Out<Value>)
    requires IsFun(f) && |args| > 0
    ensures r.Ok? ==> Preserves(env, r.env)
    decreases fuel, 3, 0
  {
    if f.Builtin? then Dispatch(io, fuel, env, f.fn, args)
    else
      match Bind(f.env, f.formals, args)
      case Failed(e) => Ok(env, e)
      case Partial(frame, rest) => Ok(env, Lambda(frame, rest, f.body))
      case Full(frame) =>
        match Dispatch(io, fuel, [frame] + env, OpEval, [QExpr(f.body)])
        case OutOfFuel => OutOfFuel
        case Ok(env1, v) => Ok(env1[1..], v)
  }

  /** One binding of `def` (root frame) or `=` (innermost frame). */
  function VarPut(env: Chain, global: bool, k: string, v: Value): (r: Chain)
    ensures Preserves(env, r)
    ensures global ==> r == DefGlobal(env, k, v)
    ensures !global ==> r == PutLocal(env, k, v)
  {
    if global then DefGlobal(env, k, v) else PutLocal(env, k, v)
  }

  /** The binding loop of builtin_var (lispy.c:860-863): the symbols in order, each with its value. */
  function VarPutAll(env: Chain, global: bool, syms: seq<string>, vals: seq<Value>): (r: Chain)
    requires |syms| == |vals|
    ensures Preserves(env, r)
    decreases |syms|
  {
    if |syms| == 0 then env
    else VarPutAll(VarPut(env, global, syms[0], vals[0]), global, syms[1..], vals[1..])
  }

  /** builtin_var (lispy.c:845-866) for `def` and `=`: check, bind, return `()`. */
  function Var(env: Chain, global: bool, args: seq<Value>): (r: Out<Value>)
    requires |args| > 0
    ensures r.Ok? && Preserves(env, r.env)
    ensures r.val.Err? <==> VarError(if global then "def" else "=", args).Some?
    ensures r.val.Err? ==> r.env == env
    ensures !r.val.Err? ==> r.val == SExpr([])
  {
    match VarError(if global then "def" else "=", args)
    case Some(e) => Ok(env, e)
    case None => Ok(VarPutAll(env, global, Names(args[0].cells), args[1..]), SExpr([]))
  }

  /**
   * builtin_if (lispy.c:761-798): a Q-expression condition is first evaluated
   * as an S-expression; the result must be a boolean, and only the branch it
   * selects is evaluated.
   */
  function If(io: Loader, fuel: nat, env: Chain, args: seq<Value>): (r: Out<Value>)
    ensures r.Ok? ==> Preserves(env, r.env)
    decreases fuel, 1, 0
  {
    match IfError(args)
    case Some(e) => Ok(env, e)
    case None =>
      var cond := if args[0].QExpr? then Eval(io, fuel, env, SExpr(args[0].cells)) else Ok(env, args[0]);
      match cond
      case OutOfFuel => OutOfFuel
      case Ok(env1, truth) =>
        if !truth.Bool? then Ok(env1, Err(NotConditional(TagOf(truth))))
        else Eval(io, fuel, env1, SExpr((if truth.b then args[1] else args[2]).cells))
  }

  /** builtin_load (lispy.c:417-454): evaluate each form of the file; their values and errors are discarded. */
  function Load(io: Loader, fuel: nat, env: Chain, args: seq<Value>): (r: Out<Value>)
    ensures r.Ok? ==> Preserves(env, r.env)
    ensures r.Ok? ==> r.val.Err? || r.val == SExpr([])
    decreases fuel, 2, 0
  {
    if |args| != 1 then Ok(env, Err(ArgCount("load", |args|, 1)))
    else if !args[0].Str? then Ok(env, Err(ArgType("load", 0, TagOf(args[0]), TStr)))
    else
      match io(args[0].str)
      case ParseError(m) => Ok(env, Err(LoadFailed(m)))
      case Forms(forms) =>
        match EvalCells(io, fuel, env, forms)
        case OutOfFuel => OutOfFuel
        case Ok(env1, _) => Ok(env1, SExpr([]))
  }

  /** The builtin functions, as lenv_add_builtins (lispy.c:1043-1075) binds them. */
  function Dispatch(io: Loader, fuel: nat, env: Chain, op: BuiltinFn, args: seq<Value>): (r: Out<Value>)
    requires |args| > 0
    ensures r.Ok? ==> Preserves(env, r.env)
    decreases fuel, 2, 1
  {
    match op
    case OpLambda => Ok(env, BuildLambda(args))
    case OpDef => Var(env, true, args)
    case OpPut => Var(env, false, args)
    case OpList => Ok(env, QExpr(args))
    case OpHead => Ok(env, Head(args))
    case OpTail => Ok(env, Tail(args))
    case OpEval =>
      if |args| != 1 then Ok(env, Err(ListArgCount("eval", |args|)))
      else if !args[0].QExpr? then Ok(env, Err(ListArgType("eval", TagOf(args[0]))))
      else Eval(io, fuel, env, SExpr(args[0].cells))
    case OpJoin => Ok(env, JoinAll(args))
    case OpAdd => Ok(env, OpFold(op, args))
    case OpSub => Ok(env, OpFold(op, args))
    case OpMul => Ok(env, OpFold(op, args))
    case OpDiv => Ok(env, OpFold(op, args))
    case OpLt => Ok(env, OpFold(op, args))
    case OpGt => Ok(env, OpFold(op, args))
    case OpLe => Ok(env, OpFold(op, args))
    case OpGe => Ok(env, OpFold(op, args))
    case OpEq => Ok(env, Cmp(op, args))
    case OpNe => Ok(env, Cmp(op, args))
    case OpIf => If(io, fuel, env, args)
    case OpLoad => Load(io, fuel, env, args)
    case OpPrint => Ok(env, SExpr([]))
    case OpError => Ok(env, RaiseError(args))
  }
}
