/**
 * Environments (lispy.c:53-58, 970-1097): frames of bindings linked to a
 * parent. The functions below give the meaning of a frame and of the chain of
 * frames that evaluation runs in; the class `Env` is the mutable `struct lenv`
 * whose operations are proved against them.
 */
module Environment {
  import opened Values

  /**
   * The frames an evaluation can see: index 0 is the frame it runs in, each
   * following entry is the parent (`par`) of the one before, and the last is
   * the root, whose `par` is NULL.
   */
  type Chain = c: seq<Frame> | |c| > 0 witness [Frame([])]

  function SymsOf(f: Frame): (s: seq<string>)
    ensures |s| == |f.binds| && forall j :: 0 <= j < |s| ==> s[j] == f.binds[j].sym
  {
    seq(|f.binds|, j requires 0 <= j < |f.binds| => f.binds[j].sym)
  }

  /** The position of the first occurrence of `k`, or -1 (the search loop of lenv_get and lenv_put). */
  function IndexOf(syms: seq<string>, k: string): (i: int)
    ensures -1 <= i < |syms|
    ensures 0 <= i ==> syms[i] == k
    ensures forall j :: 0 <= j < |syms| && (i < 0 || j < i) ==> syms[j] != k
    decreases syms
  {
    if |syms| == 0 then -1
    else if syms[0] == k then 0
    else
      var j := IndexOf(syms[1..], k);
      if j < 0 then -1 else j + 1
  }

  /** The first index holding `k` is determined by the two facts that it holds `k` and nothing before it does. */
  lemma IndexOfUnique(syms: seq<string>, k: string, i: int)
    requires 0 <= i < |syms| && syms[i] == k
    requires forall j :: 0 <= j < i ==> syms[j] != k
    ensures IndexOf(syms, k) == i
  {
  }

  /** A copy of the value bound to `k` in one frame (lispy.c:992-999). */
  function Lookup(f: Frame, k: string): (r: Option<Value>)
    ensures r.None? <==> forall j :: 0 <= j < |f.binds| ==> f.binds[j].sym != k
  {
    var i := IndexOf(SymsOf(f), k);
    if i >= 0 then Some(Copy(f.binds[i].val)) else None
  }

  /**
   * lenv_put on one frame (lispy.c:1009-1034): if `k` is bound, a copy of `v`
   * replaces the value at its first occurrence; otherwise the binding is
   * appended.
   */
  function FramePut(f: Frame, k: string, v: Value): (r: Frame)
    ensures var i := IndexOf(SymsOf(f), k);
      if i >= 0 then
        |r.binds| == |f.binds| && r.binds[i] == Binding(k, v) &&
        forall j :: 0 <= j < |f.binds| && j != i ==> r.binds[j] == f.binds[j]
      else
        |r.binds| == |f.binds| + 1 && r.binds[|f.binds|] == Binding(k, v) &&
        forall j :: 0 <= j < |f.binds| ==> r.binds[j] == f.binds[j]
  {
    var i := IndexOf(SymsOf(f), k);
    if i >= 0 then Frame(f.binds[i := Binding(k, Copy(v))])
    else Frame(f.binds + [Binding(k, Copy(v))])
  }

  /** After binding `k` in a frame, looking `k` up there yields the value bound. */
  lemma LookupAfterPut(f: Frame, k: string, v: Value)
    ensures Lookup(FramePut(f, k, v), k) == Some(v)
  {
    var r := FramePut(f, k, v);
    var i := IndexOf(SymsOf(f), k);
    var i' := if i >= 0 then i else |f.binds|;
    IndexOfUnique(SymsOf(r), k, i');
  }

  /** Binding `k` leaves the lookup of every other name in that frame as it was. */
  lemma LookupOtherAfterPut(f: Frame, k: string, v: Value, k': string)
    requires k' != k
    ensures Lookup(FramePut(f, k, v), k') == Lookup(f, k')
  {
    var r := FramePut(f, k, v);
    var i := IndexOf(SymsOf(f), k');
    if i >= 0 {
      IndexOfUnique(SymsOf(r), k', i);
    }
  }

  /**
   * lenv_get (lispy.c:989-1007): look in the frame, then in its parent; at the
   * root, an unbound-symbol error.
   */
  function ChainGet(c: Chain, k: string): Value
    decreases |c|
  {
    match Lookup(c[0], k)
    case Some(v) => v
    case None => if |c| == 1 then Err(UnboundSymbol(k)) else ChainGet(c[1..], k)
  }

  /** What lenv_get returns is bound to the name in some frame, or it is the unbound-symbol error, which it is whenever no frame binds the name. */
  lemma {:induction false} ChainGetSource(c: Chain, k: string)
    ensures var r := ChainGet(c, k);
      r == Err(UnboundSymbol(k)) || exists i :: 0 <= i < |c| && Lookup(c[i], k) == Some(r)
    ensures (exists i :: 0 <= i < |c| && Lookup(c[i], k).Some?) || ChainGet(c, k) == Err(UnboundSymbol(k))
    decreases |c|
  {
    if Lookup(c[0], k).None? && |c| > 1 {
      ChainGetSource(c[1..], k);
      assert forall i :: 0 <= i < |c| - 1 ==> c[1..][i] == c[i + 1];
    }
  }

  /** `=` (lispy.c:861): lenv_put into the frame evaluation runs in. */
  function PutLocal(c: Chain, k: string, v: Value): (r: Chain)
    ensures |r| == |c| && r[0] == FramePut(c[0], k, v)
    ensures forall i :: 0 < i < |c| ==> r[i] == c[i]
  {
    c[0 := FramePut(c[0], k, v)]
  }

  /** lenv_def (lispy.c:1092-1097): walk the parent links to the root and lenv_put there. */
  function DefGlobal(c: Chain, k: string, v: Value): (r: Chain)
    ensures |r| == |c| && r[|c| - 1] == FramePut(c[|c| - 1], k, v)
    ensures forall i :: 0 <= i < |c| - 1 ==> r[i] == c[i]
    decreases |c|
  {
    if |c| == 1 then PutLocal(c, k, v) else [c[0]] + DefGlobal(c[1..], k, v)
  }

  /**
   * Shadowing: lookup returns the binding of the nearest frame that binds the
   * name, however many frames further out also bind it.
   */
  lemma {:induction false} GetNearest(c: Chain, k: string, i: nat)
    requires i < |c| && Lookup(c[i], k).Some?
    requires forall j :: 0 <= j < i ==> Lookup(c[j], k).None?
    ensures ChainGet(c, k) == Lookup(c[i], k).value
    decreases i
  {
    if i > 0 {
      GetNearest(c[1..], k, i - 1);
    }
  }

  /** An unbound-symbol error arises when no frame of the chain binds the name. */
  lemma {:induction false} GetUnbound(c: Chain, k: string)
    requires forall j :: 0 <= j < |c| ==> Lookup(c[j], k).None?
    ensures ChainGet(c, k) == Err(UnboundSymbol(k))
    decreases |c|
  {
    if |c| > 1 {
      GetUnbound(c[1..], k);
    }
  }

  /** After `=`, the name yields the value bound, from the current frame. */
  lemma GetAfterPutLocal(c: Chain, k: string, v: Value)
    ensures ChainGet(PutLocal(c, k, v), k) == v
  {
    LookupAfterPut(c[0], k, v);
  }

  /** `=` and `def` on one name never change what another name yields in any frame. */
  lemma {:induction false} GetOtherAfterPutLocal(c: Chain, k: string, v: Value, k': string)
    requires k' != k
    ensures ChainGet(PutLocal(c, k, v), k') == ChainGet(c, k')
  {
    LookupOtherAfterPut(c[0], k, v, k');
    var r := PutLocal(c, k, v);
    if |c| > 1 {
      assert r[1..] == c[1..];
    }
  }

  lemma {:induction false} GetOtherAfterDef(c: Chain, k: string, v: Value, k': string)
    requires k' != k
    ensures ChainGet(DefGlobal(c, k, v), k') == ChainGet(c, k')
    decreases |c|
  {
    if |c| == 1 {
      GetOtherAfterPutLocal(c, k, v, k');
    } else {
      var r := DefGlobal(c, k, v);
      assert r[0] == c[0] && r[1..] == DefGlobal(c[1..], k, v);
      GetOtherAfterDef(c[1..], k, v, k');
    }
  }

  /** After `def`, the name yields the value defined when no frame nearer than the root binds it. */
  lemma {:induction false} GetAfterDef(c: Chain, k: string, v: Value)
    requires forall j :: 0 <= j < |c| - 1 ==> Lookup(c[j], k).None?
    ensures ChainGet(DefGlobal(c, k, v), k) == v
    decreases |c|
  {
    if |c| == 1 {
      GetAfterPutLocal(c, k, v);
    } else {
      var r := DefGlobal(c, k, v);
      assert r[0] == c[0] && r[1..] == DefGlobal(c[1..], k, v);
      forall j | 0 <= j < |c[1..]| - 1 ensures Lookup(c[1..][j], k).None? {
        assert c[1..][j] == c[j + 1];
      }
      GetAfterDef(c[1..], k, v);
    }
  }

  /** A name that a frame nearer than the global one binds is unaffected by `def`. */
  lemma {:induction false} GetShadowedAfterDef(c: Chain, k: string, v: Value, i: nat)
    requires i < |c| - 1 && Lookup(c[i], k).Some?
    ensures ChainGet(DefGlobal(c, k, v), k) == ChainGet(c, k)
    decreases |c|
  {
    var r := DefGlobal(c, k, v);
    assert r[0] == c[0] && r[1..] == DefGlobal(c[1..], k, v);
    if Lookup(c[0], k).None? {
      assert c[1..][i - 1] == c[i];
      GetShadowedAfterDef(c[1..], k, v, i - 1);
    }
  }

  /** The frame `struct lenv` holds, its parallel `syms` and `vals` arrays read as bindings. */
  function Pack(syms: seq<string>, vals: seq<Value>): (f: Frame)
    requires |syms| == |vals|
    ensures |f.binds| == |syms|
    ensures forall j :: 0 <= j < |syms| ==> f.binds[j] == Binding(syms[j], vals[j])
    ensures SymsOf(f) == syms
  {
    Frame(seq(|syms|, j requires 0 <= j < |syms| => Binding(syms[j], vals[j])))
  }

  /** Overwriting the value at the first position of `k`, as lenv_put does, is FramePut on the packed frame. */
  lemma PackOverwrite(syms: seq<string>, vals: seq<Value>, i: int, k: string, v: Value)
    requires |syms| == |vals| && 0 <= i && i == IndexOf(syms, k)
    ensures Pack(syms[i := k], vals[i := Copy(v)]) == FramePut(Pack(syms, vals), k, v)
  {
    var f := Pack(syms, vals);
    assert f.binds[i := Binding(k, Copy(v))] == Pack(syms[i := k], vals[i := Copy(v)]).binds;
  }

  /** Appending a binding for an unbound `k`, as lenv_put does, is FramePut on the packed frame. */
  lemma PackAppend(syms: seq<string>, vals: seq<Value>, k: string, v: Value)
    requires |syms| == |vals| && IndexOf(syms, k) < 0
    ensures Pack(syms + [k], vals + [Copy(v)]) == FramePut(Pack(syms, vals), k, v)
  {
    var f := Pack(syms, vals);
    assert f.binds + [Binding(k, Copy(v))] == Pack(syms + [k], vals + [Copy(v)]).binds;
  }

  /** The names and builtins lenv_add_builtins installs, in its order (lispy.c:1043-1075). */
  function BuiltinTable(): seq<(string, BuiltinFn)>
  {
    [("\\", OpLambda), ("def", OpDef), ("=", OpPut),
     ("list", OpList), ("head", OpHead), ("tail", OpTail), ("eval", OpEval), ("join", OpJoin),
     ("+", OpAdd), ("-", OpSub), ("*", OpMul), ("/", OpDiv),
     ("eq", OpEq), ("ne", OpNe), ("lt", OpLt), ("gt", OpGt), ("le", OpLe), ("ge", OpGe), ("if", OpIf),
     ("load", OpLoad), ("print", OpPrint), ("error", OpError)]
  }

  /** A frame after lenv_add_builtin has been applied for each entry of `t` in turn. */
  function PutAll(f: Frame, t: seq<(string, BuiltinFn)>): Frame
    decreases |t|
  {
    if |t| == 0 then f else FramePut(PutAll(f, t[..|t| - 1]), t[|t| - 1].0, Builtin(t[|t| - 1].1))
  }

  /** The root frame of a fresh global environment. */
  function GlobalFrame(): Frame
  {
    PutAll(Frame([]), BuiltinTable())
  }

  /** Installing distinct names into a frame that binds none of them appends one binding per name. */
  lemma {:induction false} PutAllFresh(f: Frame, t: seq<(string, BuiltinFn)>)
    requires forall i, j :: 0 <= i < j < |t| ==> t[i].0 != t[j].0
    requires forall i, j :: 0 <= i < |t| && 0 <= j < |f.binds| ==> t[i].0 != f.binds[j].sym
    ensures |PutAll(f, t).binds| == |f.binds| + |t|
    ensures forall j :: 0 <= j < |f.binds| ==> PutAll(f, t).binds[j] == f.binds[j]
    ensures forall i :: 0 <= i < |t| ==> PutAll(f, t).binds[|f.binds| + i] == Binding(t[i].0, Builtin(t[i].1))
    decreases |t|
  {
    if |t| > 0 {
      var t' := t[..|t| - 1];
      PutAllFresh(f, t');
      var g := PutAll(f, t');
      var k := t[|t| - 1].0;
      forall j | 0 <= j < |g.binds| ensures SymsOf(g)[j] != k {
        if j < |f.binds| {
        } else {
          assert g.binds[j] == Binding(t'[j - |f.binds|].0, Builtin(t'[j - |f.binds|].1));
        }
      }
    }
  }

  lemma NamesAfterDistinct(i: nat)
    requires i < |BuiltinTable()|
    ensures forall j :: i < j < |BuiltinTable()| ==> BuiltinTable()[i].0 != BuiltinTable()[j].0
  {
  }

  /** No name occurs twice in the builtin table. */
  lemma BuiltinNamesDistinct()
    ensures forall i, j :: 0 <= i < j < |BuiltinTable()| ==> BuiltinTable()[i].0 != BuiltinTable()[j].0
  {
    forall i, j | 0 <= i < j < |BuiltinTable()| ensures BuiltinTable()[i].0 != BuiltinTable()[j].0 {
      NamesAfterDistinct(i);
    }
  }

  /** Installing a table whose names are distinct into an empty frame binds each name to its function. */
  lemma TableBinds(t: seq<(string, BuiltinFn)>, i: nat)
    requires forall i, j :: 0 <= i < j < |t| ==> t[i].0 != t[j].0
    requires i < |t|
    ensures Lookup(PutAll(Frame([]), t), t[i].0) == Some(Builtin(t[i].1))
  {
    PutAllFresh(Frame([]), t);
    var g := PutAll(Frame([]), t);
    assert forall j :: 0 <= j < |t| ==> g.binds[j] == Binding(t[j].0, Builtin(t[j].1));
    LookupAt(g, i);
  }

  /** A name bound at exactly one position of a frame looks up the value there. */
  lemma LookupAt(f: Frame, i: nat)
    requires i < |f.binds| && forall j :: 0 <= j < |f.binds| && j != i ==> f.binds[j].sym != f.binds[i].sym
    ensures Lookup(f, f.binds[i].sym) == Some(f.binds[i].val)
  {
    IndexOfUnique(SymsOf(f), f.binds[i].sym, i);
  }

  /** Every builtin name is bound to its builtin in the global frame. */
  lemma GlobalBinds(i: nat)
    requires i < |BuiltinTable()|
    ensures Lookup(GlobalFrame(), BuiltinTable()[i].0) == Some(Builtin(BuiltinTable()[i].1))
    ensures ChainGet([GlobalFrame()], BuiltinTable()[i].0) == Builtin(BuiltinTable()[i].1)
  {
    BuiltinNamesDistinct();
    TableBinds(BuiltinTable(), i);
  }

  /**
   * `struct lenv` (lispy.c:53-58). `Spine` lists this frame and its ancestors
   * up to the root; `Valid` says the `par` links follow it without a cycle and
   * the two arrays have the same length.
   */
  class Env {
    var par: Env?
    var syms: seq<string>
    var vals: seq<Value>
    ghost var Spine: seq<Env>

    ghost predicate Valid()
      reads this, Spine
      decreases |Spine|
    {
      0 < |Spine| && Spine[0] == this && |syms| == |vals| &&
      if par == null then |Spine| == 1
      else |Spine| > 1 && Spine[1] == par && par.Spine == Spine[1..] && this !in par.Spine && par.Valid()
    }

    /** The chain of frames this environment sees. */
    ghost function Chain(): (c: Chain)
      reads this, Spine
      requires Valid()
      ensures |c| == |Spine| && c[0] == Pack(syms, vals)
      decreases |Spine|
    {
      if par == null then [Pack(syms, vals)] else [Pack(syms, vals)] + par.Chain()
    }

    /** lenv_new (lispy.c:970-977): an empty root frame. */
    constructor ()
      ensures Valid() && fresh(this)
      ensures par == null && syms == [] && vals == [] && Spine == [this]
      ensures Chain() == [Frame([])]
    {
      par := null;
      syms := [];
      vals := [];
      Spine := [this];
    }

    /** lenv_get (lispy.c:989-1007). */
    function Get(k: string): (r: Value)
      reads this, Spine
      requires Valid()
      ensures r == ChainGet(Chain(), k)
      decreases |Spine|
    {
      var i := IndexOf(syms, k);
      if i >= 0 then Values.Copy(vals[i])
      else if par == null then Err(UnboundSymbol(k))
      else par.Get(k)
    }

    /** lenv_put (lispy.c:1009-1034): overwrite the binding of `k` in this frame, or append one. */
    method Put(k: string, v: Value)
      requires Valid()
      modifies this
      ensures Valid() && par == old(par) && Spine == old(Spine)
      ensures Chain() == old(Chain())[0 := FramePut(old(Chain())[0], k, v)]
    {
      var i := Find(k);
      if i >= 0 {
        PackOverwrite(syms, vals, i, k, v);
        vals := vals[i := Values.Copy(v)];
        syms := syms[i := k];
      } else {
        PackAppend(syms, vals, k, v);
        vals := vals + [Values.Copy(v)];
        syms := syms + [k];
      }
      HeadChanged(this);
    }

    /** The search loop of lenv_put (lispy.c:1013-1024): the first position of `k` in this frame, or -1. */
    method Find(k: string) returns (i: int)
      ensures i == IndexOf(syms, k)
    {
      i := 0;
      while i < |syms|
        invariant 0 <= i <= |syms|
        invariant forall j :: 0 <= j < i ==> syms[j] != k
      {
        if syms[i] == k {
          IndexOfUnique(syms, k, i);
          return;
        }
        i := i + 1;
      }
      i := -1;
    }

    /** lenv_def (lispy.c:1092-1097): follow `par` to the root and lenv_put there. */
    method Def(k: string, v: Value)
      requires Valid()
      modifies Spine[|Spine| - 1]
      ensures Valid() && Spine == old(Spine)
      ensures Chain() == DefGlobal(old(Chain()), k, v)
    {
      ghost var c := Chain();
      var e := Root();
      SpineDistinct(this);
      e.Put(k, v);
      RootChanged(this);
      DefGlobalAtRoot(c, k, v);
    }

    /** The `par` walk of lenv_def (lispy.c:1093): the root frame, whose frame is the last of the chain. */
    method Root() returns (e: Env)
      requires Valid()
      ensures e == Spine[|Spine| - 1] && e.Valid() && e.par == null && e.Spine == [e]
      ensures e.Chain() == [Chain()[|Spine| - 1]]
    {
      e := this;
      ghost var n := 0;
      while e.par != null
        invariant 0 <= n < |Spine| && e == Spine[n] && e.Valid() && e.Spine == Spine[n..]
        invariant e.Chain() == Chain()[n..]
        decreases |Spine| - n
      {
        e := e.par;
        n := n + 1;
      }
    }

    /** lenv_copy (lispy.c:1077-1090): a new frame with copies of the bindings and the same parent link. */
    method Copy() returns (n: Env)
      requires Valid()
      ensures fresh(n) && n.par == par && n.syms == syms && n.vals == vals
      ensures n.Valid() && n.Spine == [n] + Spine[1..] && n.Chain() == Chain()
    {
      n := new Env();
      n.par := par;
      var i := 0;
      while i < |syms|
        invariant 0 <= i <= |syms|
        invariant n.par == par && n.syms == syms[..i] && n.vals == vals[..i]
      {
        n.syms := n.syms + [syms[i]];
        n.vals := n.vals + [Values.Copy(vals[i])];
        i := i + 1;
      }
      assert syms[..i] == syms && vals[..i] == vals;
      n.Spine := [n] + Spine[1..];
    }

    /** lenv_add_builtins (lispy.c:1043-1075): lenv_add_builtin for each entry of the table, in order. */
    method AddBuiltins()
      requires Valid()
      modifies this
      ensures Valid() && par == old(par) && Spine == old(Spine)
      ensures Chain() == old(Chain())[0 := PutAll(old(Chain())[0], BuiltinTable())]
    {
      PutTable(BuiltinTable());
    }

    /** lenv_add_builtin (lispy.c:1036-1041) applied to each (name, function) entry of `t` in turn. */
    method PutTable(t: seq<(string, BuiltinFn)>)
      requires Valid()
      modifies this
      ensures Valid() && par == old(par) && Spine == old(Spine)
      ensures Chain() == old(Chain())[0 := PutAll(old(Chain())[0], t)]
    {
      ghost var before := Chain();
      var i := 0;
      while i < |t|
        invariant 0 <= i <= |t|
        invariant Valid() && par == old(par) && Spine == old(Spine)
        invariant Chain() == before[0 := PutAll(before[0], t[..i])]
      {
        Put(t[i].0, Builtin(t[i].1));
        assert t[..i + 1][..i] == t[..i];
        i := i + 1;
      }
      assert t[..i] == t;
    }
  }

  /** The frames of a valid environment are distinct objects, so the `par` links have no cycle. */
  lemma {:induction false} SpineDistinct(x: Env)
    requires x.Valid()
    ensures forall i, j :: 0 <= i < j < |x.Spine| ==> x.Spine[i] != x.Spine[j]
    decreases |x.Spine|
  {
    if x.par != null {
      SpineDistinct(x.par);
      forall i, j | 0 <= i < j < |x.Spine| ensures x.Spine[i] != x.Spine[j] {
        if i > 0 {
          assert x.Spine[i] == x.par.Spine[i - 1] && x.Spine[j] == x.par.Spine[j - 1];
        }
      }
    }
  }

  /** Changing only the bindings of the first frame keeps the environment valid and changes its chain at index 0 only. */
  twostate lemma HeadChanged(x: Env)
    requires old(x.Valid()) && |x.syms| == |x.vals|
    requires x.par == old(x.par) && x.Spine == old(x.Spine) && unchanged(old(x.Spine)[1..])
    ensures x.Valid() && x.Chain() == old(x.Chain())[0 := Pack(x.syms, x.vals)]
  {
    if x.par != null {
      assert x.Spine[1..] == x.par.Spine;
      assert x.par.Valid() && x.par.Chain() == old(x.par.Chain());
    }
  }

  /** DefGlobal changes the chain at its last index only. */
  lemma DefGlobalAtRoot(c: Chain, k: string, v: Value)
    ensures DefGlobal(c, k, v) == c[|c| - 1 := FramePut(c[|c| - 1], k, v)]
  {
  }

  /**
   * Changing only the root frame of a valid environment, as lenv_put on the
   * root does, keeps every descendant valid and changes its chain at the last
   * index only.
   */
  twostate lemma {:induction false} RootChanged(x: Env)
    requires old(x.Valid())
    requires var r := old(x.Spine)[|old(x.Spine)| - 1]; r.Valid() && r.Spine == old(r.Spine)
    requires unchanged(old(x.Spine)[..|old(x.Spine)| - 1])
    ensures x.Valid() && x.Spine == old(x.Spine)
    ensures var r := x.Spine[|x.Spine| - 1]; x.Chain() == old(x.Chain())[|x.Spine| - 1 := r.Chain()[0]]
    decreases |old(x.Spine)|
  {
    if old(x.par) != null {
      var p := old(x.par);
      assert old(x.Spine)[..|old(x.Spine)| - 1] == [x] + old(p.Spine)[..|old(p.Spine)| - 1];
      RootChanged(p);
      ParentChanged(x);
      UpdateBehindHead(old(x.Chain())[0], old(p.Chain()), p.Spine[|p.Spine| - 1].Chain()[0]);
    }
  }

  /** An unchanged frame whose parent is still valid over the same spine is valid, and sees its parent's new chain. */
  twostate lemma ParentChanged(x: Env)
    requires old(x.Valid()) && old(x.par) != null && unchanged(x)
    requires x.par.Valid() && x.par.Spine == old(x.par.Spine)
    ensures x.Valid() && x.Spine == old(x.Spine)
    ensures old(x.Chain()) == [old(x.Chain())[0]] + old(x.par.Chain())
    ensures x.Chain() == [old(x.Chain())[0]] + x.par.Chain()
  {
  }

  /** Updating the last frame of a chain with a head in front updates the last frame of its tail. */
  lemma UpdateBehindHead(h: Frame, t: Chain, z: Frame)
    ensures ([h] + t)[|t| := z] == [h] + t[|t| - 1 := z]
  {
  }

  /** A fresh environment after lenv_add_builtins sees exactly the global frame. */
  method NewGlobal() returns (e: Env)
    ensures fresh(e) && e.Valid() && e.par == null && e.Chain() == [GlobalFrame()]
  {
    e := new Env();
    e.AddBuiltins();
  }
}
