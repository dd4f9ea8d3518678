/**
 * The builtins that only inspect their arguments (lispy.c:302-309, 466-474,
 * 667-759, 809-869): arithmetic and ordering, list access, equality, lambda
 * construction, raising errors, and the argument checks of `if`, `def` and `=`.
 * The builtins that evaluate or bind live with the evaluator.
 */
module Builtins {
  import opened Values

  /** The builtins implemented by builtin_op (lispy.c:405-415). */
  predicate NumOp(op: BuiltinFn)
  {
    op.OpAdd? || op.OpSub? || op.OpMul? || op.OpDiv? || op.OpLt? || op.OpGt? || op.OpLe? || op.OpGe?
  }

  predicate IsComparison(op: BuiltinFn)
  {
    op.OpLt? || op.OpGt? || op.OpLe? || op.OpGe?
  }

  /** C's `/` on `long`: the quotient truncated toward zero. */
  function CDiv(a: int, b: int): (q: int)
    requires b != 0
    ensures var r := a - q * b; (a >= 0 ==> 0 <= r < Abs(b)) && (a < 0 ==> -Abs(b) < r <= 0)
  {
    if a >= 0 then (if b > 0 then a / b else -(a / -b))
    else (if b > 0 then -((-a) / b) else (-a) / (-b))
  }

  function Abs(x: int): int { if x < 0 then -x else x }

  /** Truncating division rounds toward zero where Dafny's Euclidean division rounds down. */
  lemma CDivNegative()
    ensures CDiv(-7, 2) == -3 && -7 / 2 == -4
  {
  }

  /** The `num` field an argument carries; booleans share it with numbers. */
  function Raw(v: Value): int
  {
    match v
    case Num(n) => n
    case Bool(b) => if b then 1 else 0
    case _ => 0
  }

  /** One iteration of builtin_op's loop (lispy.c:689-718): combine the accumulator with the next number. */
  function Step(op: BuiltinFn, x: Value, y: int): (r: Value)
    requires NumOp(op) && !(op.OpDiv? && y == 0)
    ensures IsComparison(op) <==> r.Bool?
    ensures !IsComparison(op) ==> r.Num?
  {
    var a := Raw(x);
    match op
    case OpAdd => Num(a + y)
    case OpSub => Num(a - y)
    case OpMul => Num(a * y)
    case OpDiv => Num(CDiv(a, y))
    case OpLt => Bool(a < y)
    case OpGt => Bool(a > y)
    case OpLe => Bool(a <= y)
    case OpGe => Bool(a >= y)
  }

  /** The position of the first argument that is not a number, or -1. */
  function FirstNonNum(a: seq<Value>): (i: int)
    ensures -1 <= i < |a|
    ensures 0 <= i ==> !a[i].Num?
    ensures forall j :: 0 <= j < |a| && (i < 0 || j < i) ==> a[j].Num?
    decreases a
  {
    if |a| == 0 then -1
    else if !a[0].Num? then 0
    else
      var j := FirstNonNum(a[1..]);
      if j < 0 then -1 else j + 1
  }

  predicate AllNums(a: seq<Value>)
  {
    forall j :: 0 <= j < |a| ==> a[j].Num?
  }

  /** Fold the remaining numbers into the accumulator, left to right, stopping at a zero divisor. */
  function Fold(op: BuiltinFn, x: Value, ys: seq<Value>): (r: Value)
    requires NumOp(op) && AllNums(ys) && (x.Num? || x.Bool?)
    ensures r.Err? ==> op.OpDiv? && r == Err(DivisionByZero)
    decreases |ys|
  {
    if |ys| == 0 then x
    else if op.OpDiv? && ys[0].n == 0 then Err(DivisionByZero)
    else Fold(op, Step(op, x, ys[0].n), ys[1..])
  }

  /**
   * builtin_op (lispy.c:667-726). Any argument that is not a number, booleans
   * included, is refused, the first such one being reported; a lone `-`
   * argument is negated; otherwise the arguments are folded left to right.
   */
  function OpFold(op: BuiltinFn, a: seq<Value>): (r: Value)
    requires NumOp(op) && |a| > 0
    ensures !AllNums(a) ==> 0 <= FirstNonNum(a) && r == Err(NotANumber(TagOf(a[FirstNonNum(a)])))
    ensures AllNums(a) ==> (r.Err? ==> op.OpDiv? && r == Err(DivisionByZero))
  {
    var i := FirstNonNum(a);
    if i >= 0 then Err(NotANumber(TagOf(a[i])))
    else if op.OpSub? && |a| == 1 then Num(-a[0].n)
    else Fold(op, a[0], a[1..])
  }

  /** builtin_op as the source runs it: a type-checking loop, then popping and folding. */
  method BuiltinOp(op: BuiltinFn, a: seq<Value>) returns (x: Value)
    requires NumOp(op) && |a| > 0
    ensures x == OpFold(op, a)
  {
    var i := 0;
    while i < |a|
      invariant 0 <= i <= |a|
      invariant forall j :: 0 <= j < i ==> a[j].Num?
    {
      if !a[i].Num? {
        assert FirstNonNum(a) == i;
        return Err(NotANumber(TagOf(a[i])));
      }
      i := i + 1;
    }
    x := a[0];
    var rest := a[1..];
    if op.OpSub? && |rest| == 0 {
      x := Num(-x.n);
    }
    while |rest| > 0
      invariant AllNums(rest) && (x.Num? || x.Bool?)
      invariant Fold(op, x, rest) == OpFold(op, a)
      decreases |rest|
    {
      var y := rest[0];
      rest := rest[1..];
      if op.OpDiv? && y.n == 0 {
        x := Err(DivisionByZero);
        break;
      }
      x := Step(op, x, y.n);
    }
  }

  /** The sum of a sequence of numbers, recursing from the right. */
  function Sum(a: seq<Value>): int
    requires AllNums(a)
  {
    if |a| == 0 then 0 else a[0].n + Sum(a[1..])
  }

  function Product(a: seq<Value>): int
    requires AllNums(a)
  {
    if |a| == 0 then 1 else a[0].n * Product(a[1..])
  }

  lemma {:induction false} FoldAdd(x: int, ys: seq<Value>)
    requires AllNums(ys)
    ensures Fold(OpAdd, Num(x), ys) == Num(x + Sum(ys))
    decreases |ys|
  {
    if |ys| > 0 {
      FoldAdd(x + ys[0].n, ys[1..]);
    }
  }

  lemma {:induction false} FoldSub(x: int, ys: seq<Value>)
    requires AllNums(ys)
    ensures Fold(OpSub, Num(x), ys) == Num(x - Sum(ys))
    decreases |ys|
  {
    if |ys| > 0 {
      FoldSub(x - ys[0].n, ys[1..]);
    }
  }

  lemma {:induction false} FoldMul(x: int, ys: seq<Value>)
    requires AllNums(ys)
    ensures Fold(OpMul, Num(x), ys) == Num(x * Product(ys))
    decreases |ys|
  {
    if |ys| > 0 {
      FoldMul(x * ys[0].n, ys[1..]);
      assert x * ys[0].n * Product(ys[1..]) == x * (ys[0].n * Product(ys[1..]));
    }
  }

  /** `+` of numbers is their sum. */
  lemma OpAddIsSum(a: seq<Value>)
    requires |a| > 0 && AllNums(a)
    ensures OpFold(OpAdd, a) == Num(Sum(a))
  {
    FoldAdd(a[0].n, a[1..]);
  }

  /** `*` of numbers is their product. */
  lemma OpMulIsProduct(a: seq<Value>)
    requires |a| > 0 && AllNums(a)
    ensures OpFold(OpMul, a) == Num(Product(a))
  {
    FoldMul(a[0].n, a[1..]);
  }

  /** `-` negates a single number and otherwise subtracts the rest from the first. */
  lemma OpSubIsDifference(a: seq<Value>)
    requires |a| > 0 && AllNums(a)
    ensures |a| == 1 ==> OpFold(OpSub, a) == Num(-a[0].n)
    ensures |a| > 1 ==> OpFold(OpSub, a) == Num(a[0].n - Sum(a[1..]))
  {
    FoldSub(a[0].n, a[1..]);
  }

  /** Division fails exactly when some divisor, any argument after the first, is zero. */
  lemma {:induction false} FoldDivZero(x: Value, ys: seq<Value>)
    requires AllNums(ys) && (x.Num? || x.Bool?)
    ensures Fold(OpDiv, x, ys) == Err(DivisionByZero) <==> exists j :: 0 <= j < |ys| && ys[j].n == 0
    ensures x.Num? && (forall j :: 0 <= j < |ys| ==> ys[j].n != 0) ==> Fold(OpDiv, x, ys).Num?
    decreases |ys|
  {
    if |ys| > 0 && ys[0].n != 0 {
      FoldDivZero(Step(OpDiv, x, ys[0].n), ys[1..]);
      if exists j :: 0 <= j < |ys[1..]| && ys[1..][j].n == 0 {
        var j :| 0 <= j < |ys[1..]| && ys[1..][j].n == 0;
        assert ys[j + 1].n == 0;
      }
      if exists j :: 0 <= j < |ys| && ys[j].n == 0 {
        var j :| 0 <= j < |ys| && ys[j].n == 0;
        assert ys[1..][j - 1].n == 0;
      }
    }
  }

  lemma OpDivZero(a: seq<Value>)
    requires |a| > 0 && AllNums(a)
    ensures OpFold(OpDiv, a) == Err(DivisionByZero) <==> exists j :: 1 <= j < |a| && a[j].n == 0
    ensures (forall j :: 1 <= j < |a| ==> a[j].n != 0) ==> OpFold(OpDiv, a).Num?
  {
    FoldDivZero(a[0], a[1..]);
    if exists j :: 1 <= j < |a| && a[j].n == 0 {
      var j :| 1 <= j < |a| && a[j].n == 0;
      assert a[1..][j - 1].n == 0;
    }
    if exists j :: 0 <= j < |a[1..]| && a[1..][j].n == 0 {
      var j :| 0 <= j < |a[1..]| && a[1..][j].n == 0;
      assert a[j + 1].n == 0;
    }
  }

  /** Two numbers compare as the operator names. */
  lemma OpCompareTwo(x: int, y: int)
    ensures OpFold(OpLt, [Num(x), Num(y)]) == Bool(x < y)
    ensures OpFold(OpGt, [Num(x), Num(y)]) == Bool(x > y)
    ensures OpFold(OpLe, [Num(x), Num(y)]) == Bool(x <= y)
    ensures OpFold(OpGe, [Num(x), Num(y)]) == Bool(x >= y)
  {
    OpFoldTwo(OpLt, x, y);
    OpFoldTwo(OpGt, x, y);
    OpFoldTwo(OpLe, x, y);
    OpFoldTwo(OpGe, x, y);
  }

  /** Two numbers are combined by a single step of the fold. */
  lemma OpFoldTwo(op: BuiltinFn, x: int, y: int)
    requires NumOp(op) && !(op.OpDiv? && y == 0)
    ensures OpFold(op, [Num(x), Num(y)]) == Step(op, Num(x), y)
  {
    var a := [Num(x), Num(y)];
    assert a[1..] == [Num(y)] && a[1..][1..] == [];
    assert FirstNonNum(a) == -1;
    assert Fold(op, Num(x), [Num(y)]) == Fold(op, Step(op, Num(x), y), []);
  }

  /**
   * Longer comparisons do not chain: each step compares the previous boolean,
   * read as 0 or 1, with the next number; and a single argument comes back as
   * the number itself.
   */
  lemma OpCompareQuirks()
    ensures OpFold(OpLt, [Num(3), Num(2), Num(1)]) == Bool(true)
    ensures OpFold(OpGt, [Num(5)]) == Num(5)
  {
  }

  /** Worked examples: `(+ 1 2 3)` is 6, `(- 10 3 2)` is 5, `(* 2 3 4)` is 24, `(- 7)` is -7, `(/ -7 2)` is -3. */
  lemma OpExamples()
    ensures OpFold(OpAdd, [Num(1), Num(2), Num(3)]) == Num(6)
    ensures OpFold(OpSub, [Num(10), Num(3), Num(2)]) == Num(5)
    ensures OpFold(OpMul, [Num(2), Num(3), Num(4)]) == Num(24)
    ensures OpFold(OpSub, [Num(7)]) == Num(-7)
    ensures OpFold(OpDiv, [Num(-7), Num(2)]) == Num(-3)
    ensures OpFold(OpDiv, [Num(10), Num(0), Num(2)]) == Err(DivisionByZero)
  {
    OpAddIsSum([Num(1), Num(2), Num(3)]);
    OpSubIsDifference([Num(10), Num(3), Num(2)]);
    OpMulIsProduct([Num(2), Num(3), Num(4)]);
    OpFoldTwo(OpDiv, -7, 2);
    OpDivZero([Num(10), Num(0), Num(2)]);
  }

  /** Booleans are not numbers to builtin_op, even though they share the payload. */
  lemma OpRefusesBool(op: BuiltinFn, b: bool)
    requires NumOp(op)
    ensures OpFold(op, [Bool(b), Num(1)]) == Err(NotANumber(TBool))
  {
  }

  /** head and tail checks (lispy.c:730-732, 744-746): exactly one non-empty Q-expression. */
  function ListArgError(func: string, a: seq<Value>): (r: Option<Value>)
    ensures r.None? <==> |a| == 1 && a[0].QExpr? && |a[0].cells| > 0
  {
    if |a| != 1 then Some(Err(ListArgCount(func, |a|)))
    else if !a[0].QExpr? then Some(Err(ListArgType(func, TagOf(a[0]))))
    else if |a[0].cells| == 0 then Some(Err(EmptyList(func)))
    else None
  }

  /** builtin_head (lispy.c:728-740): a Q-expression holding the first element. */
  function Head(a: seq<Value>): (r: Value)
    ensures r.Err? || r.QExpr?
    ensures r.QExpr? <==> |a| == 1 && a[0].QExpr? && |a[0].cells| > 0
    ensures r.QExpr? ==> r.cells == [a[0].cells[0]]
    ensures r.Err? ==> r == ListArgError("head", a).value
  {
    match ListArgError("head", a)
    case Some(e) => e
    case None => QExpr(a[0].cells[..1])
  }

  /** builtin_head as the source runs it: take the argument, then pop the second element until one is left. */
  method BuiltinHead(a: seq<Value>) returns (v: Value)
    ensures v == Head(a)
  {
    var e := ListArgError("head", a);
    if e.Some? {
      return e.value;
    }
    v := Take(QExpr(a), 0);
    while |v.cells| > 1
      invariant v.QExpr? && 1 <= |v.cells| && v.cells[0] == a[0].cells[0]
      decreases |v.cells|
    {
      v := Pop(v, 1).1;
    }
    assert v.cells == [a[0].cells[0]];
  }

  /** builtin_tail (lispy.c:742-754): the Q-expression without its first element. */
  function Tail(a: seq<Value>): (r: Value)
    ensures r.Err? || r.QExpr?
    ensures r.QExpr? <==> |a| == 1 && a[0].QExpr? && |a[0].cells| > 0
    ensures r.QExpr? ==> [a[0].cells[0]] + r.cells == a[0].cells
    ensures r.Err? ==> r == ListArgError("tail", a).value
  {
    match ListArgError("tail", a)
    case Some(e) => e
    case None => Pop(a[0], 0).1
  }

  /** head and tail split a non-empty Q-expression. */
  lemma HeadTailSplit(q: Value)
    requires q.QExpr? && |q.cells| > 0
    ensures Head([q]).cells + Tail([q]).cells == q.cells
  {
  }

  /** The position of the first argument that is not a Q-expression, or -1. */
  function FirstNonQ(a: seq<Value>): (i: int)
    ensures -1 <= i < |a|
    ensures 0 <= i ==> !a[i].QExpr?
    ensures forall j :: 0 <= j < |a| && (i < 0 || j < i) ==> a[j].QExpr?
    decreases a
  {
    if |a| == 0 then -1
    else if !a[0].QExpr? then 0
    else
      var j := FirstNonQ(a[1..]);
      if j < 0 then -1 else j + 1
  }

  /** The children of a run of Q-expressions, end to end. */
  function Flatten(a: seq<Value>): seq<Value>
    requires forall j :: 0 <= j < |a| ==> a[j].QExpr?
    decreases |a|
  {
    if |a| == 0 then [] else a[0].cells + Flatten(a[1..])
  }

  lemma {:induction false} FlattenSnoc(a: seq<Value>, y: Value)
    requires forall j :: 0 <= j < |a| ==> a[j].QExpr?
    requires y.QExpr?
    ensures Flatten(a + [y]) == Flatten(a) + y.cells
    decreases |a|
  {
    if |a| > 0 {
      assert (a + [y])[1..] == a[1..] + [y];
      FlattenSnoc(a[1..], y);
    }
  }

  /** builtin_join (lispy.c:809-822): every argument must be a Q-expression; their children are concatenated. */
  function JoinAll(a: seq<Value>): (r: Value)
    requires |a| > 0
    ensures FirstNonQ(a) >= 0 <==> r.Err?
    ensures r.Err? ==> r == Err(ListArgType("join", TagOf(a[FirstNonQ(a)])))
  {
    var i := FirstNonQ(a);
    if i >= 0 then Err(ListArgType("join", TagOf(a[i]))) else QExpr(Flatten(a))
  }

  /** builtin_join as the source runs it: pop the first argument, then lval_join each following one into it. */
  method BuiltinJoin(a: seq<Value>) returns (x: Value)
    requires |a| > 0
    ensures x == JoinAll(a)
  {
    var i := 0;
    while i < |a|
      invariant 0 <= i <= |a|
      invariant forall j :: 0 <= j < i ==> a[j].QExpr?
    {
      if !a[i].QExpr? {
        assert FirstNonQ(a) == i;
        return Err(ListArgType("join", TagOf(a[i])));
      }
      i := i + 1;
    }
    x := a[0];
    assert Flatten(a[..1]) == a[0].cells;
    var k := 1;
    while k < |a|
      invariant 1 <= k <= |a|
      invariant x == QExpr(Flatten(a[..k]))
    {
      x := Join(x, a[k]);
      FlattenSnoc(a[..k], a[k]);
      assert a[..k + 1] == a[..k] + [a[k]];
      k := k + 1;
    }
    assert a[..k] == a;
  }

  /** `join` of two Q-expressions is the first one's children followed by the second one's. */
  lemma JoinTwo(x: seq<Value>, y: seq<Value>)
    ensures JoinAll([QExpr(x), QExpr(y)]) == QExpr(x + y)
  {
    var a := [QExpr(x), QExpr(y)];
    assert a[1..] == [QExpr(y)] && a[1..][1..] == [];
    assert FirstNonQ(a) == -1;
    assert Flatten(a[1..][1..]) == [];
    assert Flatten(a[1..]) == y + [] == y;
    assert Flatten(a) == x + y;
  }

  /** Joining keeps every element, in order: the length is the sum of the lengths. */
  lemma {:induction false} JoinLength(a: seq<Value>)
    requires forall j :: 0 <= j < |a| ==> a[j].QExpr?
    ensures |Flatten(a)| == LengthSum(a)
    decreases |a|
  {
    if |a| > 0 {
      JoinLength(a[1..]);
    }
  }

  function LengthSum(a: seq<Value>): nat
    requires forall j :: 0 <= j < |a| ==> a[j].QExpr?
  {
    if |a| == 0 then 0 else |a[0].cells| + LengthSum(a[1..])
  }

  /** builtin_cmp (lispy.c:302-309): `eq` and `ne` take exactly two arguments of any type. */
  function Cmp(op: BuiltinFn, a: seq<Value>): (r: Value)
    requires op.OpEq? || op.OpNe?
    ensures |a| != 2 <==> r.Err?
    ensures |a| != 2 ==> r == Err(ArgCount(if op.OpEq? then "eq" else "ne", |a|, 2))
    ensures |a| == 2 ==> r == Bool(if op.OpEq? then Equal(a[0], a[1]) else !Equal(a[0], a[1]))
  {
    var name := if op.OpEq? then "eq" else "ne";
    if |a| != 2 then Err(ArgCount(name, |a|, 2))
    else if op.OpEq? then Bool(Equal(a[0], a[1]))
    else BoolNegate(Bool(Equal(a[0], a[1])))
  }

  /** `eq` and `ne` always disagree on two arguments. */
  lemma EqNeOpposite(x: Value, y: Value)
    ensures Cmp(OpNe, [x, y]) == Bool(!Cmp(OpEq, [x, y]).b)
  {
  }

  /** The position of the first element that is not a symbol, or -1 (the loops of lispy.c:831-835 and 848-852). */
  function FirstNonSym(a: seq<Value>): (i: int)
    ensures -1 <= i < |a|
    ensures 0 <= i ==> !a[i].Sym?
    ensures forall j :: 0 <= j < |a| && (i < 0 || j < i) ==> a[j].Sym?
    decreases a
  {
    if |a| == 0 then -1
    else if !a[0].Sym? then 0
    else
      var j := FirstNonSym(a[1..]);
      if j < 0 then -1 else j + 1
  }

  /** The names of a run of symbols. */
  function Names(a: seq<Value>): (r: seq<string>)
    requires forall j :: 0 <= j < |a| ==> a[j].Sym?
    ensures |r| == |a| && forall j :: 0 <= j < |a| ==> r[j] == a[j].str
  {
    seq(|a|, j requires 0 <= j < |a| && a[j].Sym? => a[j].str)
  }

  /**
   * builtin_lambda (lispy.c:824-843) with lval_lambda (lispy.c:1113-1126): two
   * Q-expressions, the first of symbols only, make a function with an empty
   * frame.
   */
  function BuildLambda(a: seq<Value>): (r: Value)
    ensures r.Err? || r.Lambda?
    ensures r.Lambda? <==> |a| == 2 && a[0].QExpr? && a[1].QExpr? && FirstNonSym(a[0].cells) < 0
    ensures r.Lambda? ==> r.env == Frame([]) && |r.formals| == |a[0].cells| && r.body == a[1].cells
    ensures r.Lambda? ==> forall j :: 0 <= j < |r.formals| ==> a[0].cells[j] == Sym(r.formals[j])
    ensures |a| != 2 ==> r == Err(ArgCount("\\", |a|, 2))
    ensures |a| == 2 && !a[0].QExpr? ==> r == Err(ArgType("\\", 0, TagOf(a[0]), TQExpr))
    ensures |a| == 2 && a[0].QExpr? && !a[1].QExpr? ==> r == Err(ArgType("\\", 1, TagOf(a[1]), TQExpr))
  {
    if |a| != 2 then Err(ArgCount("\\", |a|, 2))
    else if !a[0].QExpr? then Err(ArgType("\\", 0, TagOf(a[0]), TQExpr))
    else if !a[1].QExpr? then Err(ArgType("\\", 1, TagOf(a[1]), TQExpr))
    else
      var i := FirstNonSym(a[0].cells);
      if i >= 0 then Err(LambdaNonSymbol(TagOf(a[0].cells[i])))
      else Lambda(Frame([]), Names(a[0].cells), a[1].cells)
  }

  /** builtin_error (lispy.c:466-474): one string argument becomes an error carrying that text. */
  function RaiseError(a: seq<Value>): (r: Value)
    ensures r.Err?
    ensures |a| == 1 && a[0].Str? ==> r == Err(Raised(a[0].str))
    ensures r.kind.Raised? ==> |a| == 1 && a[0].Str?
    ensures |a| != 1 ==> r == Err(ArgCount("error", |a|, 1))
  {
    if |a| != 1 then Err(ArgCount("error", |a|, 1))
    else if !a[0].Str? then Err(ArgType("error", 0, TagOf(a[0]), TStr))
    else Err(Raised(a[0].str))
  }

  /**
   * The checks of builtin_var (lispy.c:845-858) for `def` and `=`: a
   * Q-expression of symbols first, then exactly one value per symbol.
   */
  function VarError(func: string, a: seq<Value>): (r: Option<Value>)
    requires |a| > 0
    ensures r.None? <==> a[0].QExpr? && FirstNonSym(a[0].cells) < 0 && |a[0].cells| == |a| - 1
    ensures r.Some? ==> r.value.Err?
  {
    if !a[0].QExpr? then Some(Err(ArgType(func, 0, TagOf(a[0]), TQExpr)))
    else
      var i := FirstNonSym(a[0].cells);
      if i >= 0 then Some(Err(VarNonSymbol(func, TagOf(a[0].cells[i]))))
      else if |a[0].cells| != |a| - 1 then Some(Err(VarCount(func, |a[0].cells|, |a| - 1)))
      else None
  }

  /** The checks of builtin_if (lispy.c:762-765): three arguments, the two branches Q-expressions. */
  function IfError(a: seq<Value>): (r: Option<Value>)
    ensures r.None? <==> |a| == 3 && a[1].QExpr? && a[2].QExpr?
    ensures r.Some? ==> r.value.Err?
  {
    if |a| != 3 then Some(Err(ArgCount("if", |a|, 3)))
    else if !a[1].QExpr? then Some(Err(BranchType(TagOf(a[1]))))
    else if !a[2].QExpr? then Some(Err(BranchType(TagOf(a[2]))))
    else None
  }
}
