/**
 * Runtime values of the Lispy interpreter (lispy.c:37-51, 143-153): a tagged
 * union of errors, numbers, booleans, strings, symbols, functions and the two
 * kinds of expression lists, together with structural equality, deep copy and
 * the operations on the `cell` array of an expression list.
 */
module Values {

  datatype Option<T> = None | Some(value: T)

  /** The type tags `LVAL_ERR` ... `LVAL_QEXPR` (lispy.c:144-153). */
  datatype Tag = TErr | TNum | TBool | TStr | TSym | TFun | TSExpr | TQExpr

  /**
   * The native operations that lenv_add_builtins installs (lispy.c:1043-1075).
   * Two builtins are the same function pointer exactly when they are the same
   * constructor here.
   */
  datatype BuiltinFn =
    | OpLambda | OpDef | OpPut
    | OpList | OpHead | OpTail | OpEval | OpJoin
    | OpAdd | OpSub | OpMul | OpDiv
    | OpEq | OpNe | OpLt | OpGt | OpLe | OpGe | OpIf
    | OpLoad | OpPrint | OpError

  /**
   * The message of an error value. There is one constructor per distinct format
   * string passed to lval_err, carrying the arguments that are formatted into
   * it, so that two errors have equal text exactly when they are equal here.
   */
  datatype ErrorKind =
    | UnboundSymbol(name: string)                             // lispy.c:1005
    | TooManyArguments(given: int, total: int)                // lispy.c:488
    | RestFormat                                              // lispy.c:497, 523
    | BadHead(head: Tag)                                      // lispy.c:626
    | NotANumber(arg: Tag)                                    // lispy.c:673
    | DivisionByZero                                          // lispy.c:697
    | ArgCount(func: string, count: int, expected: int)       // LASSERT_NUM, lispy.c:16-19, 762
    | ArgType(func: string, index: int, got: Tag, want: Tag)  // LASSERT_TYPE, lispy.c:11-14
    | ListArgCount(func: string, count: int)                  // lispy.c:730, 744, 801
    | ListArgType(func: string, got: Tag)                     // lispy.c:731, 745, 802, 811
    | EmptyList(func: string)                                 // lispy.c:732, 746
    | BranchType(got: Tag)                                    // lispy.c:764
    | NotConditional(got: Tag)                                // lispy.c:780
    | LambdaNonSymbol(got: Tag)                               // lispy.c:833
    | VarNonSymbol(func: string, got: Tag)                    // lispy.c:850
    | VarCount(func: string, nsyms: int, nargs: int)          // lispy.c:855
    | LoadFailed(reason: string)                              // lispy.c:448
    | Raised(message: string)                                 // lispy.c:470
    | PopEmpty                                                // list.c:38
    | IndexOutOfBounds(index: int)                            // list.c:62

  /**
   * A runtime value. A lambda owns the frame of bindings it has accumulated by
   * partial application, its formal parameter names and its body (the cells of
   * the body Q-expression).
   */
  datatype Value =
    | Err(kind: ErrorKind)
    | Num(n: int)
    | Bool(b: bool)
    | Str(str: string)
    | Sym(str: string)
    | Builtin(fn: BuiltinFn)
    | Lambda(env: Frame, formals: seq<string>, body: seq<Value>)
    | SExpr(cells: seq<Value>)
    | QExpr(cells: seq<Value>)

  /** One entry of a frame: `syms[i]` and `vals[i]` of `struct lenv` (lispy.c:53-58). */
  datatype Binding = Binding(sym: string, val: Value)

  /** The bindings of one environment frame, in insertion order. */
  datatype Frame = Frame(binds: seq<Binding>)

  function TagOf(v: Value): Tag
  {
    match v
    case Err(_) => TErr
    case Num(_) => TNum
    case Bool(_) => TBool
    case Str(_) => TStr
    case Sym(_) => TSym
    case Builtin(_) => TFun
    case Lambda(_, _, _) => TFun
    case SExpr(_) => TSExpr
    case QExpr(_) => TQExpr
  }

  predicate IsFun(v: Value) { v.Builtin? || v.Lambda? }

  predicate IsList(v: Value) { v.SExpr? || v.QExpr? }

  /** ltype_name (lispy.c:1099-1111); the tag set is closed, so "Unknown" never arises. */
  function TypeName(t: Tag): (r: string)
    ensures |r| >= 5 && r != "Unknown"
  {
    match t
    case TFun => "Function"
    case TBool => "Boolean"
    case TNum => "Number"
    case TStr => "String"
    case TErr => "Error"
    case TSym => "Symbol"
    case TSExpr => "S-Expression"
    case TQExpr => "Q-Expression"
  }

  /** Different tags have different names, so messages that name a type tell the types apart. */
  lemma TypeNameInjective(s: Tag, t: Tag)
    ensures TypeName(s) == TypeName(t) ==> s == t
  {
    if s != t {
      assert TypeName(s)[0] != TypeName(t)[0] || TypeName(s)[1] != TypeName(t)[1];
    }
  }

  /**
   * lval_eq (lispy.c:263-291). Values of different tags are unequal. Numbers and
   * booleans compare their payload, strings, errors and symbols their text, and
   * expression lists their lengths and children pairwise. A builtin equals only
   * the same builtin. A lambda on the left equals every function: the source
   * compares two `lval*` results coerced to booleans, which are never null.
   */
  function Equal(x: Value, y: Value): (r: bool)
    ensures r ==> TagOf(x) == TagOf(y)
    ensures !x.Lambda? && !x.SExpr? && !x.QExpr? ==> (r <==> x == y)
    ensures r && IsList(x) ==> |x.cells| == |y.cells|
    decreases x
  {
    if TagOf(x) != TagOf(y) then false
    else match x
      case Num(n) => n == y.n
      case Bool(b) => b == y.b
      case Str(s) => s == y.str
      case Err(k) => k == y.kind
      case Sym(s) => s == y.str
      case Builtin(f) => y.Builtin? && f == y.fn
      case Lambda(_, _, _) => true
      case SExpr(xs) => |xs| == |y.cells| && forall i :: 0 <= i < |xs| ==> Equal(xs[i], y.cells[i])
      case QExpr(xs) => |xs| == |y.cells| && forall i :: 0 <= i < |xs| ==> Equal(xs[i], y.cells[i])
  }

  /** Every value is equal to itself under lval_eq. */
  lemma {:induction false} EqualReflexive(v: Value)
    ensures Equal(v, v)
    decreases v
  {
    match v
    case SExpr(xs) =>
      forall i | 0 <= i < |xs| ensures Equal(xs[i], xs[i]) { EqualReflexive(xs[i]); }
    case QExpr(xs) =>
      forall i | 0 <= i < |xs| ensures Equal(xs[i], xs[i]) { EqualReflexive(xs[i]); }
    case _ =>
  }

  /** Tags must agree: lval_eq is false whenever the types differ. */
  lemma EqualNeedsSameTag(x: Value, y: Value)
    requires Equal(x, y)
    ensures TagOf(x) == TagOf(y)
  {
  }

  /** Two builtins are equal exactly when they are the same native function. */
  lemma EqualBuiltins(f: BuiltinFn, g: BuiltinFn)
    ensures Equal(Builtin(f), Builtin(g)) <==> f == g
  {
  }

  /** The quirk of lispy.c:278-279: any two lambdas are equal, whatever their formals and bodies. */
  lemma LambdasAlwaysEqual(e1: Frame, f1: seq<string>, b1: seq<Value>, e2: Frame, f2: seq<string>, b2: seq<Value>)
    ensures Equal(Lambda(e1, f1, b1), Lambda(e2, f2, b2))
  {
  }

  /** lval_eq is not symmetric: a lambda equals a builtin, but not the other way round. */
  lemma EqualNotSymmetric()
    ensures Equal(Lambda(Frame([]), [], []), Builtin(OpAdd))
    ensures !Equal(Builtin(OpAdd), Lambda(Frame([]), [], []))
  {
  }

  /**
   * bool_negate (lispy.c:293-300): flips a payload of 0 or 1. Its only caller
   * passes the boolean result of lval_eq.
   */
  function BoolNegate(v: Value): (r: Value)
    requires v.Bool? || v.Num?
    ensures v.Bool? ==> r == Bool(!v.b)
    ensures v.Num? ==> r.Num? && (v.n == 0 ==> r.n == 1) && (v.n == 1 ==> r.n == 0)
    ensures v.Num? && v.n != 0 && v.n != 1 ==> r == v
  {
    match v
    case Bool(b) => Bool(!b)
    case Num(n) => if n == 0 then Num(1) else if n == 1 then Num(0) else v
  }

  /** Negating twice gives back the value, for every payload bool_negate accepts. */
  lemma BoolNegateTwice(v: Value)
    requires v.Bool? || v.Num?
    ensures BoolNegate(BoolNegate(v)) == v
  {
  }

  /**
   * lval_copy (lispy.c:882-919): a fresh tree with the same shape. A lambda's
   * frame is copied binding by binding (lenv_copy, lispy.c:1077-1090), its
   * formals and body recursively.
   */
  function Copy(v: Value): (r: Value)
    ensures r == v
    decreases v
  {
    match v
    case Lambda(env, formals, body) => Lambda(CopyFrame(env), formals, CopyCells(body))
    case SExpr(cells) => SExpr(CopyCells(cells))
    case QExpr(cells) => QExpr(CopyCells(cells))
    case Err(k) => Err(k)
    case Num(n) => Num(n)
    case Bool(b) => Bool(b)
    case Str(s) => Str(s)
    case Sym(s) => Sym(s)
    case Builtin(f) => Builtin(f)
  }

  function CopyCells(vs: seq<Value>): (r: seq<Value>)
    ensures r == vs
    decreases vs
  {
    if vs == [] then [] else [Copy(vs[0])] + CopyCells(vs[1..])
  }

  /** The bindings of a frame as lenv_copy duplicates them. */
  function CopyFrame(f: Frame): (r: Frame)
    ensures r == f
    decreases f
  {
    Frame(CopyBinds(f.binds))
  }

  function CopyBinds(bs: seq<Binding>): (r: seq<Binding>)
    ensures r == bs
    decreases bs
  {
    if bs == [] then [] else [Binding(bs[0].sym, Copy(bs[0].val))] + CopyBinds(bs[1..])
  }

  /** A copy is equal to its original under lval_eq, for every value. */
  lemma CopyEqual(v: Value)
    ensures Equal(Copy(v), v)
  {
    EqualReflexive(v);
  }

  /** lval_add (lispy.c:546-551): append one child to an expression list. */
  function Add(v: Value, x: Value): (r: Value)
    requires IsList(v)
    ensures TagOf(r) == TagOf(v)
    ensures |r.cells| == |v.cells| + 1 && r.cells[|v.cells|] == x
    ensures forall j :: 0 <= j < |v.cells| ==> r.cells[j] == v.cells[j]
  {
    v.(cells := v.cells + [x])
  }

  /**
   * lval_pop (lispy.c:647-659): remove the child at `i`, returning it and the
   * shortened list; the children after `i` move down by one.
   */
  function Pop(v: Value, i: nat): (r: (Value, Value))
    requires IsList(v) && i < |v.cells|
    ensures r.0 == v.cells[i]
    ensures TagOf(r.1) == TagOf(v) && |r.1.cells| == |v.cells| - 1
    ensures forall j :: 0 <= j < i ==> r.1.cells[j] == v.cells[j]
    ensures forall j :: i <= j < |r.1.cells| ==> r.1.cells[j] == v.cells[j + 1]
  {
    assert v.cells == v.cells[..i] + [v.cells[i]] + v.cells[i + 1..];
    (v.cells[i], v.(cells := v.cells[..i] + v.cells[i + 1..]))
  }

  /** lval_pop loses and invents nothing: the popped child and the rest are the original children. */
  lemma PopPermutes(v: Value, i: nat)
    requires IsList(v) && i < |v.cells|
    ensures multiset(Pop(v, i).1.cells) + multiset{Pop(v, i).0} == multiset(v.cells)
  {
    assert v.cells == v.cells[..i] + [v.cells[i]] + v.cells[i + 1..];
  }

  /** Popping the first child leaves the rest of the children in order. */
  lemma PopFront(v: Value)
    requires IsList(v) && 0 < |v.cells|
    ensures Pop(v, 0) == (v.cells[0], v.(cells := v.cells[1..]))
  {
    assert v.cells[..0] + v.cells[1..] == v.cells[1..];
  }

  /** lval_take (lispy.c:661-665): pop the child at `i` and discard the rest of the list. */
  function Take(v: Value, i: nat): (r: Value)
    requires IsList(v) && i < |v.cells|
    ensures r == v.cells[i]
  {
    Pop(v, i).0
  }

  /** The value lval_join (lispy.c:871-880) produces: `y`'s children appended to `x`'s. */
  function Joined(x: Value, y: Value): (r: Value)
    requires IsList(x) && IsList(y)
    ensures TagOf(r) == TagOf(x) && |r.cells| == |x.cells| + |y.cells|
    ensures forall j :: 0 <= j < |x.cells| ==> r.cells[j] == x.cells[j]
    ensures forall j :: 0 <= j < |y.cells| ==> r.cells[|x.cells| + j] == y.cells[j]
  {
    x.(cells := x.cells + y.cells)
  }

  /**
   * lval_join as the source runs it: pop the first child of `y` and add it to
   * `x` until `y` is empty.
   */
  method Join(x: Value, y: Value) returns (r: Value)
    requires IsList(x) && IsList(y)
    ensures r == Joined(x, y)
  {
    r := x;
    var rest := y;
    ghost var k := 0;
    while |rest.cells| > 0
      invariant 0 <= k <= |y.cells|
      invariant r == x.(cells := x.cells + y.cells[..k])
      invariant rest == y.(cells := y.cells[k..])
      decreases |rest.cells|
    {
      PopFront(rest);
      var p := Pop(rest, 0);
      r := Add(r, p.0);
      rest := p.1;
      assert y.cells[..k + 1] == y.cells[..k] + [y.cells[k]];
      assert y.cells[k..][1..] == y.cells[k + 1..];
      k := k + 1;
    }
    assert y.cells[..k] == y.cells;
  }
}
