# Lispy interpreter core and list.c, in Dafny

This project models the core of the Lispy interpreter written in C:

- **Values** (`values.dfy`). A value is an error, number, boolean, string, symbol, builtin, lambda, S-expression or Q-expression. The file covers:
  - structural equality (`lval_eq`) and deep copy (`lval_copy`);
  - the cell operations `lval_add`, `lval_pop`, `lval_take` and `lval_join`.
- **Environments** (`environment.dfy`). An environment is a frame of parallel `syms` and `vals` arrays with a parent link.
  - The functions `Lookup`, `FramePut`, `ChainGet`, `PutLocal` and `DefGlobal` give the meaning of a frame and of a chain of frames.
  - The class `Env` is the mutable `struct lenv`. Its methods `Get`, `Put`, `Def`, `Copy` and `AddBuiltins` are `lenv_get`, `lenv_put`, `lenv_def`, `lenv_copy` and `lenv_add_builtins`. Each is proved against those functions.
- **Builtins that only inspect their arguments** (`builtins.dfy`): arithmetic and ordering (`builtin_op`), `head`, `tail`, `join`, `eq`/`ne`, `\` and `error`, plus the argument checks of `if`, `def` and `=`.
  - Where the C code works through a loop, a method runs that loop and is proved equal to the function. These methods are `BuiltinOp`, `BuiltinHead`, `BuiltinJoin` and `Values.Join`.
- **The evaluator** (`eval.dfy`): `lval_eval`, `lval_eval_sexpr`, `lval_call` with its argument-binding loop (`BindArguments`), and `builtin_var`, `builtin_if`, `builtin_eval`, `builtin_list` and `builtin_load`.
- **The doubly linked list of `list.c`** (`list.dfy`): a class over `Node` objects.
  - A ghost sequence `Nodes` is the chain of nodes in order, and `Contents` is the values the chain holds.
  - The methods are push, pop, index, remove, replace, destroy and the `start`/`end`/`iter` cursor.
  - `curr` and `end` are fields here, because `list.c` uses them although `list.h` does not declare them.

## How a program runs

A lambda owns the frame of arguments bound so far. That frame's parent pointer is NULL wherever the lambda can be observed:

- `lval_lambda` creates the frame with `lenv_new`.
- `lval_copy` and `lenv_copy` copy the NULL.
- The assignment `f->env->par = e` (lispy.c:537) is made only on the call's own copy, which is discarded after the body runs.

So the environments visible during evaluation form a stack. A `Chain` lists the frames of the active calls, innermost first, and ends with the global frame.

- A full call pushes the lambda's bound frame on the caller's chain. It then evaluates the body as `eval` of the body Q-expression, and pops the frame again.
- Scope is therefore dynamic: a body sees its caller's bindings (`EvalProperties.BodySeesCaller`).
- `def` writes the last frame of the chain, and `=` writes the first.

Evaluation of user lambdas need not terminate, so `Eval`, `EvalCells`, `EvalSExpr`, `Call`, `Dispatch`, `If` and `Load` take a `fuel` bound. Each S-expression consumes one unit. `OutOfFuel` means only that the bound was reached, and `EvalProperties.EvalMono` proves that more fuel never changes a result that was reached.

Numbers are unbounded integers. `/` is C's truncating division on `long`, written out (`Builtins.CDiv`).

Errors are values of `ErrorKind`, one constructor per distinct message format passed to `lval_err`, carrying the formatted arguments. Two errors of the model are equal exactly when they have the same constructor and the same arguments; lispy.c compares the message text instead, and "## Left out" says where the two part.

## Behaviour worth noting

- lispy.c:606-615 evaluates every child of an S-expression, with its effects, before picking the first error: an error in an early child does not stop a later `def` (`EvalProperties.ErrorsDoNotShortCircuit`).
- tests.c:55-65 expects a float from `(/ 20 4)`, but lispy.c:694-700 divides `long`s, truncating toward zero, so the model gives the integer 5. The model follows lispy.c.

## Model

| member | source | states |
|---|---|---|
| Values.TypeNameInjective | lispy.c:1099-1111 | different type tags have different names |
| Values.TypeName | lispy.c:1099-1111 | the name `ltype_name` gives a tag is never the "Unknown" fallback, since the tag set is closed |
| Values.EqualReflexive | lispy.c:263-291 | every value equals itself |
| Values.Equal | lispy.c:263-291 | `lval_eq`: true only for equal tags; on numbers, booleans, strings, symbols, errors and builtins exactly Dafny equality; equal lists have equal lengths |
| Values.EqualNeedsSameTag | lispy.c:264 | equal values have the same type tag |
| Values.EqualBuiltins | lispy.c:274-276 | two builtins are equal exactly when they are the same native function |
| Values.LambdasAlwaysEqual | lispy.c:277-279 | two lambdas are always equal, whatever their formals and bodies |
| Values.EqualNotSymmetric | lispy.c:274-280 | a lambda equals a builtin, but a builtin does not equal a lambda |
| Values.BoolNegate | lispy.c:293-300 | a boolean is flipped; the number cases mirror the C payload test only, since its one caller (lispy.c:306) passes a boolean |
| Values.BoolNegateTwice | lispy.c:293-300 | negating twice gives back the value |
| Values.Copy | lispy.c:882-919 | the copy is the same value as the original |
| Values.CopyCells | lispy.c:906-915 | copying the cells of a list reproduces them |
| Values.CopyFrame | lispy.c:1077-1090 | copying a lambda's frame reproduces its bindings |
| Values.CopyBinds | lispy.c:1084-1088 | copying the bindings reproduces them one by one |
| Values.CopyEqual | lispy.c:882-919 | a copy is equal to its original under `lval_eq`, for every value |
| Values.Add | lispy.c:546-551 | same tag; one more cell, the new one last, the others unchanged |
| Values.Pop | lispy.c:647-659 | returns the cell at `i`; the rest keep their order, later ones move down by one |
| Values.PopPermutes | lispy.c:647-659 | the popped cell and the remaining cells are, as a multiset, the original cells |
| Values.PopFront | lispy.c:647-659 | popping index 0 leaves the cells after the first |
| Values.Take | lispy.c:661-665 | yields exactly the cell at `i` |
| Values.Joined | lispy.c:871-880 | tag of `x`; length is the sum; `x`'s cells, then `y`'s |
| Values.Join | lispy.c:871-880 | the pop-and-add loop yields `Joined(x, y)` |
| Environment.SymsOf | lispy.c:53-58 | the names of a frame, position by position |
| Environment.IndexOf | lispy.c:992-999 | -1, or the first position holding `k`: nothing before it holds `k` |
| Environment.Lookup | lispy.c:992-999 | none exactly when no binding of the frame has the name |
| Environment.FramePut | lispy.c:1009-1034 | bound name: same size, that binding replaced, others untouched; otherwise one binding appended, old ones unchanged |
| Environment.LookupAfterPut | lispy.c:1009-1034 | after binding `k` in a frame, `k` yields the value bound (with lispy.c:989-999) |
| Environment.LookupOtherAfterPut | lispy.c:1009-1034 | binding `k` leaves every other name's lookup in that frame as it was (with lispy.c:989-999) |
| Environment.PutLocal | lispy.c:861 | `=` changes the first frame by `FramePut` and no other |
| Environment.DefGlobal | lispy.c:1092-1097 | `def` changes the root frame by `FramePut` and no other |
| Environment.GetNearest | lispy.c:989-1006 | lookup returns the binding of the nearest frame that has the name (shadowing) |
| Environment.ChainGet | lispy.c:989-1007 | `lenv_get` over the chain: the first frame that binds the name gives its value, at the root the unbound-symbol error; its properties are `ChainGetSource`, `GetNearest` and `GetUnbound` |
| Environment.ChainGetSource | lispy.c:989-1007 | the value `lenv_get` returns is one some frame binds to the name, or the unbound-symbol error, and it is that error whenever no frame binds the name |
| Environment.GetUnbound | lispy.c:1001-1006 | no frame binds the name: the unbound-symbol error |
| Environment.GetAfterPutLocal | lispy.c:989-999 | after `=`, the name yields the value bound (with lispy.c:861) |
| Environment.GetOtherAfterPutLocal | lispy.c:989-1006 | `=` on one name never changes what another name yields (with lispy.c:861) |
| Environment.GetOtherAfterDef | lispy.c:1092-1097 | `def` on one name never changes what another name yields (with lispy.c:989-1006) |
| Environment.GetAfterDef | lispy.c:1092-1097 | after `def`, the name yields the value when no frame nearer than the root binds it (with lispy.c:989-1006) |
| Environment.GetShadowedAfterDef | lispy.c:1092-1097 | a name bound in a nearer frame yields the same as before `def` (with lispy.c:989-1006) |
| Environment.Pack | lispy.c:53-58 | the parallel `syms`/`vals` arrays read as bindings, position by position |
| Environment.PutAllFresh | lispy.c:1036-1041 | installing distinct new names appends one binding per name, in order |
| Environment.BuiltinNamesDistinct | lispy.c:1043-1075 | no builtin name is installed twice |
| Environment.TableBinds | lispy.c:1036-1041 | a table of distinct names installed in an empty frame binds each name to its function |
| Environment.GlobalBinds | lispy.c:1043-1075 | in the global frame every builtin name yields its builtin |
| Environment.Env.Chain | lispy.c:53-58 | the chain starts with this frame's bindings and has one frame per object on the `par` path |
| Environment.Env.constructor | lispy.c:970-977 | an empty root frame |
| Environment.Env.Get | lispy.c:989-1007 | the frame loop then the parent recursion equals `ChainGet` of the chain |
| Environment.Env.Put | lispy.c:1009-1034 | the search-and-overwrite-or-append loop changes the chain's first frame by `FramePut` only |
| Environment.Env.Find | lispy.c:1011-1023 | the search loop stops at the first position holding `k`, or reports -1: the same position `IndexOf` names |
| Environment.PackOverwrite | lispy.c:1015-1021 | overwriting the value and name at the found position is `FramePut` on the frame |
| Environment.PackAppend | lispy.c:1026-1033 | appending name and value when `k` is absent is `FramePut` on the frame |
| Environment.Env.Def | lispy.c:1092-1097 | the chain becomes `DefGlobal` of the old chain; the spine of frames is unchanged |
| Environment.Env.Root | lispy.c:1094 | the `par` walk ends at the root, the chain's last frame |
| Environment.ParentChanged | lispy.c:1092-1097 | an untouched frame over a parent that stayed valid is valid and sees the parent's new chain behind its own frame |
| Environment.Env.Copy | lispy.c:1077-1090 | a fresh frame with the same bindings and the same parent, seeing the same chain |
| Environment.Env.AddBuiltins | lispy.c:1043-1075 | the first frame becomes that frame with the builtin table installed in order |
| Environment.Env.PutTable | lispy.c:1036-1041 | each table entry `lenv_put` in turn, as `PutAll` |
| Environment.RootChanged | lispy.c:1092-1097 | changing only the root object keeps every descendant valid and changes its chain only at the root |
| Environment.NewGlobal | lispy.c:1043-1075 | a fresh environment whose chain is the global frame (with lispy.c:970-977) |
| Builtins.CDiv | lispy.c:699 | C truncating division: the remainder has the sign of the dividend and is smaller than the divisor |
| Builtins.CDivNegative | lispy.c:699 | `-7 / 2` is -3, not Dafny's -4 |
| Builtins.Step | lispy.c:689-717 | a comparison yields a boolean, arithmetic a number |
| Builtins.FirstNonNum | lispy.c:669-675 | the first argument that is not a number, or -1 when all are |
| Builtins.Fold | lispy.c:685-720 | the only error is division by zero, and only for `/` |
| Builtins.OpFold | lispy.c:667-726 | the first non-number argument is reported; otherwise only `/` can fail, with division by zero |
| Builtins.BuiltinOp | lispy.c:667-726 | the check loop, unary minus and the pop-and-fold loop yield `OpFold` |
| Builtins.FoldAdd | lispy.c:685-691 | the fold of `+` adds the sum of the rest to the accumulator |
| Builtins.FoldSub | lispy.c:685-692 | the fold of `-` subtracts the sum of the rest from the accumulator |
| Builtins.FoldMul | lispy.c:685-693 | the fold of `*` multiplies the accumulator by the product of the rest |
| Builtins.OpAddIsSum | lispy.c:667-726 | `+` of numbers is their sum |
| Builtins.OpMulIsProduct | lispy.c:667-726 | `*` of numbers is their product |
| Builtins.OpSubIsDifference | lispy.c:681-692 | `-` of one number negates it; of more, the first minus the sum of the rest |
| Builtins.FoldDivZero | lispy.c:694-700 | the fold of `/` fails exactly when some divisor is zero, and yields a number otherwise |
| Builtins.OpDivZero | lispy.c:694-700 | `/` fails exactly when an argument after the first is zero |
| Builtins.OpCompareTwo | lispy.c:702-717 | `lt gt le ge` of two numbers are the comparisons they name |
| Builtins.OpFoldTwo | lispy.c:685-720 | two numbers are combined by a single step |
| Builtins.OpCompareQuirks | lispy.c:681-720 | `(lt 3 2 1)` compares the boolean 0 with 1 and is true; `(gt 5)` is the number 5 |
| Builtins.OpExamples | lispy.c:667-726 | `(+ 1 2 3)` is 6, `(- 10 3 2)` is 5, `(* 2 3 4)` is 24, `(- 7)` is -7, `(/ -7 2)` is -3; a zero divisor fails |
| Builtins.OpRefusesBool | lispy.c:669-675 | a boolean argument is refused although it carries a number payload |
| Builtins.ListArgError | lispy.c:730-746 | no error exactly for one non-empty Q-expression |
| Builtins.Head | lispy.c:728-740 | a Q-expression of the first element exactly when it is the only argument, a non-empty Q-expression; otherwise the check's error |
| Builtins.BuiltinHead | lispy.c:728-740 | the pop-until-one-is-left loop yields `Head` |
| Builtins.Tail | lispy.c:742-754 | the first element followed by the result is the argument; otherwise the check's error |
| Builtins.HeadTailSplit | lispy.c:728-754 | `head` and `tail` of a non-empty Q-expression put back together give it |
| Builtins.FirstNonQ | lispy.c:810-812 | the first argument that is not a Q-expression, or -1 |
| Builtins.FlattenSnoc | lispy.c:816-818 | joining one more Q-expression appends its children |
| Builtins.JoinAll | lispy.c:809-822 | an error exactly when some argument is not a Q-expression, naming the first |
| Builtins.BuiltinJoin | lispy.c:809-822 | the check loop and the `lval_join` loop yield `JoinAll` |
| Builtins.JoinTwo | lispy.c:809-822 | `join` of two Q-expressions is the first's children followed by the second's |
| Builtins.JoinLength | lispy.c:809-822 | the joined length is the sum of the lengths |
| Builtins.Cmp | lispy.c:302-309 | exactly two arguments, else a count error; `eq` is `lval_eq`, `ne` its negation |
| Builtins.EqNeOpposite | lispy.c:305-306 | `eq` and `ne` always disagree |
| Builtins.FirstNonSym | lispy.c:831-835 | the first element that is not a symbol, or -1 (with lispy.c:848-852) |
| Builtins.Names | lispy.c:1113-1126 | the names of a run of symbols, in order |
| Builtins.BuildLambda | lispy.c:824-843 | a lambda exactly for two Q-expressions with symbols first; empty frame, those formals, that body; each check's own error (with lispy.c:1113-1126) |
| Builtins.RaiseError | lispy.c:466-474 | always an error: the count error unless one argument, the type error unless a string, and otherwise the error raised by the user carrying that string |
| Builtins.VarError | lispy.c:845-857 | no error exactly for a Q-expression of symbols with one value per symbol |
| Builtins.IfError | lispy.c:762-765 | no error exactly for three arguments whose branches are Q-expressions |
| Evaluator.FirstErr | lispy.c:611-615 | -1, or the first position holding an error: nothing before it is one |
| Evaluator.Eval | lispy.c:639-645 | a symbol yields its lookup; other non-S-expressions are themselves; only the innermost and root frames change |
| Evaluator.EvalCells | lispy.c:606-608 | one value per child; only the innermost and root frames change |
| Evaluator.EvalSExpr | lispy.c:603-637 | only the innermost and root frames change |
| Evaluator.BindRest | lispy.c:518-534 | leftover formals not starting with `&` are returned as they are; `&` not followed by one formal is the format error |
| Evaluator.BindLoop | lispy.c:485-511 | the binding loop of `lval_call`: each argument is bound to the next formal, and at `&` the formal after it takes the rest; its properties are `BindLoopShape` and the `EvalProperties.Bind*` lemmas |
| Evaluator.BindLoopShape | lispy.c:485-511 | a partial result leaves exactly the formals after the first `|args|`; the only failures are "too many arguments" with the given counts and the `&` format error |
| Evaluator.Bind | lispy.c:485-534 | `lval_call`'s binding of the arguments to the formals, from the lambda's frame |
| Evaluator.BindShape | lispy.c:485-534 | the same for a call: the too-many error carries the argument and formal counts |
| Evaluator.BindArguments | lispy.c:480-534 | the pop-and-bind loop yields `Bind` |
| Evaluator.Call | lispy.c:476-543 | only the innermost and root frames of the caller change |
| Evaluator.VarPut | lispy.c:858-862 | `def` is `DefGlobal`, `=` is `PutLocal` |
| Evaluator.VarPutAll | lispy.c:858-862 | binding a list of names keeps the caller frames in between |
| Evaluator.Var | lispy.c:845-869 | an error exactly when the checks fail, with nothing changed; otherwise `()` |
| Evaluator.If | lispy.c:761-798 | only the innermost and root frames change |
| Evaluator.Load | lispy.c:417-454 | `()` or an error; only the innermost and root frames change |
| Evaluator.Dispatch | lispy.c:1043-1075 | only the innermost and root frames change |
| EvalProperties.PutSeqOther | lispy.c:1009-1034 | binding other names leaves a name's lookup unchanged |
| EvalProperties.PutSeqLookup | lispy.c:1009-1034 | with distinct names, each is bound to its own value |
| EvalProperties.PutSeqAppend | lispy.c:485-516 | binding two batches in turn is binding them as one |
| EvalProperties.BindLoopPositional | lispy.c:485-516 | without `&`: equal counts bind all formals in order; fewer arguments leave the remaining formals (with lispy.c:536-542) |
| EvalProperties.BindPositional | lispy.c:476-543 | n = k: all formals bound in order; n < k: the first n bound, k-n formals left |
| EvalProperties.BindLoopTooMany | lispy.c:485-489 | without `&`, more arguments than formals is the too-many error with both counts |
| EvalProperties.BindTooMany | lispy.c:481-489 | n > k: "too many arguments", given n, expected k |
| EvalProperties.BindLoopVariadic | lispy.c:493-505 | `fixed & rest`: the fixed formals take the first arguments, `rest` a Q-expression of the others (with lispy.c:520-534) |
| EvalProperties.BindVariadic | lispy.c:493-505 | `rest` holds the remaining arguments as a Q-expression, `{}` when none remain (with lispy.c:520-534) |
| EvalProperties.BindLoopRestFormat | lispy.c:495-498 | `&` without exactly one following formal is the format error (with lispy.c:522-524) |
| EvalProperties.BindRestFormat | lispy.c:495-498 | the same for `Bind` (with lispy.c:522-524) |
| EvalProperties.CallPartial | lispy.c:536-542 | a partial call returns the lambda with the arguments bound and the remaining formals |
| EvalProperties.PartialHoldsArguments | lispy.c:508-511 | every formal bound by a partial call holds its argument (with lispy.c:540-542) |
| EvalProperties.CallCurry | lispy.c:476-543 | applying to some arguments and then to the rest equals applying to all at once |
| EvalProperties.BindCurry | lispy.c:485-516 | binding in two batches equals binding in one |
| EvalProperties.NoFormalsNeverRuns | lispy.c:486-489 | a lambda without formals never runs its body: any argument is one too many |
| EvalProperties.Quoted | lispy.c:845-852 | the Q-expression of symbols naming a list of names |
| EvalProperties.EvalCellsAtoms | lispy.c:606-608 | children that are not S-expressions evaluate to their lookup or themselves, with no frame changed (with lispy.c:639-645) |
| EvalProperties.DefBindsGlobally | lispy.c:845-869 | `def {k} v` writes the root frame, returns `()`, and then `k` yields `v` unless a nearer frame binds it (with lispy.c:1092-1097) |
| EvalProperties.PutBindsLocally | lispy.c:845-869 | `= {k} v` writes only the current frame, returns `()`, and then `k` yields `v` |
| EvalProperties.VarCountMismatch | lispy.c:854-856 | a symbol count unequal to the value count is an error with both counts, and nothing changes |
| EvalProperties.PutAllOther | lispy.c:858-862 | `=` on other names never changes what a name yields |
| EvalProperties.PutAllBinds | lispy.c:858-862 | `=` with distinct names binds each to its own value |
| EvalProperties.PutManyBinds | lispy.c:845-869 | `= {k1 k2 ...} v1 v2 ...` makes each name yield its value |
| EvalProperties.IfSelects | lispy.c:780-790 | a boolean condition evaluates exactly the selected branch as an S-expression |
| EvalProperties.IfEvaluatesCondition | lispy.c:771-790 | a Q-expression condition is evaluated as an S-expression; a boolean result runs the selected branch in the environment that evaluation left, any other result is the "must be conditional" error |
| EvalProperties.IfNeedsBoolean | lispy.c:771-780 | a condition that is neither a boolean nor a Q-expression is "must be conditional" |
| EvalProperties.IfChecks | lispy.c:762-765 | three arguments, then the two branches must be Q-expressions, checked in that order |
| EvalProperties.CallFull | lispy.c:536-539 | a full call runs the body as an S-expression on the bound frame over the caller's chain, then drops that frame |
| EvalProperties.CallRuns | lispy.c:536-539 | when the body yields a value in some chain, the call yields that value in that chain without the call's frame |
| EvalProperties.GetBehindFrame | lispy.c:989-1007 | a frame that does not bind `k` hands its lookup on to the parent unchanged |
| EvalProperties.DefBehindFrame | lispy.c:1092-1097 | a `def` below an extra frame changes the chain behind that frame as it would have without it |
| EvalProperties.DefInFrame | lispy.c:845-869 | `(def {k} v)` run under a frame that does not bind `def` still reaches the builtin and binds `k` globally (with lispy.c:1001-1002) |
| EvalProperties.CallDefRuns | lispy.c:536-539 | a call whose body defines `y` globally returns `()` and leaves the definition in the caller's chain (with lispy.c:1092-1097) |
| EvalProperties.BodySeesCaller | lispy.c:537 | a body resolves a name it does not bind in its caller's environment (dynamic scope) (with lispy.c:1001-1002) |
| EvalProperties.BodyPutIsLocal | lispy.c:537 | `=` in a body writes the call's own frame, so the caller's environment is unchanged (with lispy.c:861) |
| EvalProperties.BodyDefIsGlobal | lispy.c:537 | `def` in a body writes the global frame, which the caller keeps (with lispy.c:860, 1092-1097) |
| EvalProperties.DefForm | lispy.c:845-869 | `(def {k} v)` binds `k` globally and yields `()` (with lispy.c:603-637) |
| EvalProperties.PutForm | lispy.c:845-869 | `(= {k} v)` binds `k` in the current frame and yields `()` (with lispy.c:603-637) |
| EvalProperties.FirstErrorWins | lispy.c:611-615 | the lowest-indexed error among the evaluated children is the result |
| EvalProperties.BadHeadRejected | lispy.c:623-630 | two or more values led by a non-function give "starts with incorrect type" |
| EvalProperties.ListAndEvalRetag | lispy.c:756-759 | `list` retags its arguments as a Q-expression; `eval` evaluates one Q-expression as an S-expression and reports count and type errors (with lispy.c:800-807) |
| EvalProperties.ErrorsDoNotShortCircuit | lispy.c:605-615 | a later child's `def` takes effect even when an earlier child is an error, which is the result |
| EvalProperties.ErrorBeforeEffect | lispy.c:605-615 | of two children, an error in the first is the result while the second still runs with its effects |
| EvalProperties.EvalCellsTwo | lispy.c:606-608 | two children are evaluated left to right, the second in the chain the first left |
| EvalProperties.LoneChildIsValue | lispy.c:617-621 | `()` is itself, and an S-expression with one child, of any kind, evaluates to that child's result (its value or its error, in the environment it left), never a call |
| EvalProperties.EvalMono | lispy.c:639-645 | more fuel never changes a result that was reached |
| EvalProperties.EvalCellsMono | lispy.c:606-608 | the same for the children |
| EvalProperties.EvalSExprMono | lispy.c:603-637 | the same for an S-expression |
| EvalProperties.CallMono | lispy.c:476-543 | the same for a call |
| EvalProperties.DispatchMono | lispy.c:1043-1075 | the same for a builtin |
| EvalProperties.IfMono | lispy.c:761-798 | the same for `if` |
| EvalProperties.LoadMono | lispy.c:417-454 | the same for `load` |
| LinkedList.Node.constructor | list.c:27-31 | a node with the value, no successor and the given predecessor |
| LinkedList.List.constructor | list.c:5-10 | an empty list: null head, count 0 |
| LinkedList.List.Push | list.c:12-33 | the value is appended; count grows by one; the old nodes stay in order; the new node's `prev` is the old tail |
| LinkedList.List.Link | list.c:27-32 | a fresh node after the tail `p`, linked both ways |
| LinkedList.List.Pop | list.c:35-57 | empty: the pop-from-empty error, list unchanged; otherwise the last value, the rest the original prefix, head null when it was the only one |
| LinkedList.List.Seek | list.c:64-68 | `index` steps from the head reach node `index`, or null just past the end; a negative index takes no step (with list.c:73-77, 111-115) |
| LinkedList.List.IndexAsWritten | list.c:60-70 | the element for 0 <= index < count, the error for index > count, the head for a negative index, and a null dereference at index == count |
| LinkedList.List.IndexChecked | list.c:60-70 | the element for 0 <= index < count, the out-of-bounds error otherwise |
| LinkedList.List.Remove | list.c:72-89 | exactly the element at `index` (the head for a negative index) is gone, the rest in order; count drops by one |
| LinkedList.List.Relink | list.c:78-86 | the neighbours are linked to each other and `head` moves on when the head is removed |
| LinkedList.List.Drop | list.c:87-88 | once node `k` is unlinked, the decremented count and the chain and values without position `k` make a valid list again |
| LinkedList.List.Replace | list.c:110-117 | only the value at `index` changes; nodes, length and head stay |
| LinkedList.List.Destroy | list.c:91-108 | every node is visited once, in order; count 0; the header is valid again only if it was empty |
| LinkedList.List.Start | list.c:120-128 | empty or first value an error: `end` = 0 and nothing; otherwise the first value, `end` = 1, the cursor on the head |
| LinkedList.List.Iter | list.c:134-142 | the next value and the cursor moved on; after the last node `end` = 0 and nothing |
| LinkedList.Traverse | list.c:120-142 | start/end/iter visits every value in order, or none when the first is an error |
| LinkedList.IndexPastEnd | list.c:60-70 | index 1 of a one-element list dereferences null |

## Left out

- The reader (`lval_read*`, lispy.c:553-601), the mpc grammar and the REPL in `main` (lispy.c:162-246): parsing and terminal I/O. `load` takes the result of reading a file as a `Loader` parameter, a function from path to parsed forms or parse error message.
- Printing (`builtin_print`, `lval_print*`, lispy.c:456-464, 922-968): `print` is modelled as returning `()` with no output.
- The text of error messages: the `vsnprintf` into a 512-byte buffer (lispy.c:319-340) is replaced by the structured `ErrorKind`, so truncation of long messages is not modelled.
- Memory management (`lval_del`, `lenv_del`, `malloc`/`realloc`/`free`): values are immutable Dafny data. That immutability is what "bindings store copies" (lispy.c:997, 1017, 1031) guarantees: a later rebinding never changes a value already obtained.
- The in-place rewriting of a `cell` array (`v->cell[i] = lval_eval(...)`, the `memmove` of `lval_pop`, retagging in `builtin_list`, `builtin_eval` and `builtin_if`): these are modelled on values.
- The evaluator's loops: they are written as recursion over the cells, except the binding loop of `lval_call`, `builtin_op`, `builtin_head` and `builtin_join`, which are methods with loops proved equal to those functions.
- Evaluator.Eval: non-termination is not modelled. Evaluation stops with `OutOfFuel` when the fuel bound is reached.
- `long` overflow in `builtin_op`: numbers are unbounded, and C leaves signed overflow undefined.
- The "Bool value somehow wasn't true or false" branch of `builtin_if` (lispy.c:791-797): it cannot be reached, because a boolean's payload is always 0 or 1.
- Values.Equal: `lval_eq` compares errors by their message text (lispy.c:272-273); the model compares `ErrorKind`s, so an error raised by the user whose text equals a built-in message, such as `(error "Division by zero.")` against the result of `(/ 1 0)`, is equal in lispy.c and unequal here.
- Builtins.RaiseError: `builtin_error` passes the user's string to `lval_err` as its printf format (lispy.c:470, 331); the model keeps the string as given, so `%` sequences, such as `%%` or a `%d` with no argument, are not interpreted.
- Values.Equal: comparing a lambda on the left with a builtin on the right reads the builtin's unset `formals` field (lispy.c:278). The model takes the result the comparison gives when that read succeeds, namely true.
- lispy.h and tests.c describe a later revision (floats, fractions, casts, user types, `and`/`or`/`not`, a hash-table environment) whose code is not part of this model.

- LinkedList: values in nodes are Dafny values, so the sharing of `lval` pointers between the caller and the list is not modelled.
- LinkedList.List.constructor: `curr` and `end` are left uninitialised by `list_init`; here they start as null and 0.
- LinkedList.List.Remove and LinkedList.List.Replace require `index < count` on a non-empty list. The C code has no check and dereferences null beyond the end.
- LinkedList.List.Destroy: `head` is left pointing at freed memory, as in the source. Freeing is recorded as the ghost sequence of visited nodes.
- LinkedList.List.End has no contract of its own. Its meaning, that the iteration is over when it returns 0, is what `LinkedList.Traverse` proves.

## Findings

| source | as written | input that shows it | evidently intended | confidence | as-written member | corrected member |
|---|---|---|---|---|---|---|
| list.c:61 | `list_index` rejects only `index > count`, then walks `index` steps and reads `l->val` | index 1 of a one-element list: the walk reaches NULL and dereferences it; a negative index silently reads the head | reject every index outside `0 <= index < count` with "Index out of bounds" | not executed | LinkedList.List.IndexAsWritten (witness LinkedList.IndexPastEnd) | LinkedList.List.IndexChecked |
