/** The evaluator of src/builtins.c as functions over the object store and
    the scope chain.

    Every object the evaluator touches lives in one store (`Core.Store`),
    and a pointer is an index into it. The scope chain is a sequence of
    scope tables, innermost first: `env_init(&inner, env, proc)` pushes a
    fresh table in front of the caller's chain and `env_destroy` pops it
    again. The singletons `tlisp_nil`, `tlisp_true`, `tlisp_false`,
    `tlisp_quote` and `tlisp_backquote` are objects of the store whose
    pointers the evaluator compares by identity; they come in as
    `Globals`.

    A C function of the evaluator that may recurse or loop takes `fuel`: every
    call spends one unit, and a run that exhausts it ends with `OutOfFuel`.
    A fatal error (`proc_fatal`, or `exit(1)` after a message) ends with
    `Fatal(msg)`; a NULL or wrong-variant dereference, signed overflow and
    division by zero end with `Undefined`. */
module Builtins {
  import opened Base
  import opened Core
  import Env
  import Lists
  import Structs
  import Render
  import Dict

  type Chain = seq<Env.Symtab<Ptr>>

  /** The singleton objects genv_init allocates (src/tlisp.c:23-51). */
  datatype Globals = Globals(nil: Ptr, t: Ptr, f: Ptr, quote: Ptr, backquote: Ptr)

  /** What an evaluation changes: the store and the scope chain. */
  datatype World = World(st: Store, chain: Chain)

  /** A chain has at least the global scope, and every table is well formed. */
  predicate Wf(w: World)
  {
    |w.chain| >= 1 && Env.ChainWf(w.chain)
  }

  /** An evaluation returns to a chain of the depth it started from. */
  predicate Keeps(w: World, w2: World)
  {
    Wf(w2) && |w2.chain| == |w.chain|
  }

  /** The object a C evaluator function returns, and the state after it. */
  datatype Done = Done(obj: Ptr, w: World)

  predicate Good(w: World, r: Res<Done>)
  {
    r.Ok? ==> Keeps(w, r.value.w)
  }

  /** `eval` as a loop over arguments calls it: on any well-formed state,
      an object and what evaluating it gives. */
  type Evaluator = (Ptr, World) --> Res<Done>

  ghost predicate Evaluates(ev: Evaluator)
  {
    forall x: Ptr, w: World | Wf(w) :: ev.requires(x, w) && Good(w, ev(x, w))
  }

  /** apply_2arity_fn with its function fixed: two objects and a state. */
  type Combiner = (Ptr, Ptr, World) --> Res<Done>

  ghost predicate Combines(cb: Combiner)
  {
    forall a: Ptr, b: Ptr, w: World | Wf(w) :: cb.requires(a, b, w) && Good(w, cb(a, b, w))
  }

  // ---------------------------------------------------------------------
  // Messages

  const TOO_MANY_ARGS := "ERROR: Too many arguments.\n"
  const TOO_FEW_ARGS := "ERROR: Too few arguments.\n"
  const TOO_MANY_FIELDS := "ERROR: Too many fields to instantiate struct.\n"
  const APPLY_NO_ARGS := "ERROR: apply requires at least one argument.\n"
  const QUOTE_NO_ARGS := "ERROR: quote requires at least one argument.\n"
  const BACKQUOTE_NO_ARGS := "ERROR: backquote requires at least one argument.\n"
  const INVALID_IF := "ERROR: Invalid if expression.\n"
  const LAMBDA_NO_ARGS := "ERROR: lambda requires at least two arguments.\n"

  /** What `snprintf` leaves of `s` in a buffer of `size` bytes. */
  function Bounded(s: string, size: nat): (r: string)
    requires size > 0
    ensures |r| < size && |r| <= |s| && r == s[..|r|]
    ensures |s| < size ==> r == s
  {
    if |s| < size then s else s[..size - 1]
  }

  function UndefinedSymbol(s: string): Fault
  {
    Fatal(Bounded("ERROR: Undefined symbol '" + s + "'.\n", 256))
  }

  function WrongNargs(got: nat, expected: nat): Fault
  {
    Fatal("ERROR: Wrong number of arguments. Got " + Render.Decimal(got) +
          ". Expected " + Render.Decimal(expected) + ".\n")
  }

  /** obj_nstr of `p` into the uninitialised 128-byte buffer the assertion
      helpers hand it, read back as a C string. The text is defined when it
      is the same whatever the buffer held before, which is checked by
      rendering into a buffer of NULs and into one of 'x's; when the two
      differ, the rendering reads bytes it never wrote (it writes nothing
      at all for a STRUCT or a STRUCTDEF) and the message is undefined. */
  function ObjText(st: Store, p: Ptr): (r: Res<string>)
    ensures r.Err? ==> r.fault == Undefined
  {
    var a :- Render.Rendered(st, p, seq(128, _ => Render.NUL), 0, 128);
    var b :- Render.Rendered(st, p, seq(128, _ => 'x'), 0, 128);
    if Render.CStr(a) == Render.CStr(b) then Ok(Render.CStr(a)) else Err(Undefined)
  }

  /** assert_type's message (src/builtins.c:56-65): the object as obj_nstr
      renders it and the names of both tags, cut to 256 bytes; undefined
      when the rendering is, or when a tag is one tag_str has no name for. */
  function WrongType(st: Store, p: Ptr, expected: Tag): Fault
    requires Deref(st, p).Some?
  {
    match (ObjText(st, p), TagStr(TagOf(st[p.index].val)), TagStr(expected))
    case (Ok(s), Some(a), Some(e)) =>
      Fatal(Bounded("ERROR: Wrong type for " + s + " (" + a + "). Expected " + e + ".\n", 256))
    case _ => Undefined
  }

  /** assert_fn's message (src/builtins.c:44-53). */
  function NotAFunction(st: Store, p: Ptr): Fault
  {
    match ObjText(st, p)
    case Ok(s) => Fatal(Bounded("ERROR: Wrong type for " + s + ". Expected function.\n", 256))
    case Err(_) => Undefined
  }

  function DuplicateSymbol(s: string): Fault
  {
    Fatal("ERROR: Duplicate symbol definition " + s + ".\n")
  }

  /** A fatal message that ends with the tag name of `v`; undefined for the
      two tags tag_str has no name for. */
  function TypeNamed(prefix: string, v: Val): (r: Fault)
    ensures r.Undefined? <==> TagStr(TagOf(v)).None?
  {
    match TagStr(TagOf(v))
    case Some(n) => Fatal(prefix + n + ".\n")
    case None => Undefined
  }

  // ---------------------------------------------------------------------
  // Reading and writing objects

  /** `p->car` of a cons cell. */
  function Car(st: Store, p: Ptr): (r: Res<Ptr>)
    ensures r.Ok? <==> Lists.IsCell(st, p)
    ensures r.Ok? ==> r.value == st[p.index].val.car
  {
    if Lists.IsCell(st, p) then Ok(st[p.index].val.car) else Err(Undefined)
  }

  /** `p->cdr` of a cons cell. */
  function Cdr(st: Store, p: Ptr): (r: Res<Ptr>)
    ensures r.Ok? <==> Lists.IsCell(st, p)
    ensures r.Ok? ==> r.value == st[p.index].val.cdr
  {
    if Lists.IsCell(st, p) then Ok(st[p.index].val.cdr) else Err(Undefined)
  }

  /** assert_type (src/builtins.c:56-65): the object, when its tag is `expected`. */
  function Expect(st: Store, p: Ptr, expected: Tag): (r: Res<Val>)
    ensures r.Ok? <==> Deref(st, p).Some? && TagOf(Deref(st, p).value) == expected
    ensures r.Ok? ==> r.value == st[p.index].val
    ensures Deref(st, p).Some? && TagOf(Deref(st, p).value) != expected ==>
      r == Err(WrongType(st, p, expected))
  {
    match Deref(st, p)
    case None => Err(Undefined)
    case Some(v) => if TagOf(v) == expected then Ok(v) else Err(WrongType(st, p, expected))
  }

  /** assert_fn (src/builtins.c:44-53): a native function or a lambda. */
  function ExpectFn(st: Store, p: Ptr): (r: Res<()>)
    ensures r.Ok? <==> Deref(st, p).Some? && (Deref(st, p).value.NFuncV? || Deref(st, p).value.LambdaV?)
  {
    match Deref(st, p)
    case None => Err(Undefined)
    case Some(v) => if v.NFuncV? || v.LambdaV? then Ok(()) else Err(NotAFunction(st, p))
  }

  /** nargs (src/builtins.c:38-41), which is list_len. */
  function Nargs(st: Store, args: Ptr): (r: Res<nat>)
    ensures r.Ok? <==> Lists.Cells(st, args).Ok?
    ensures r.Ok? ==> r.value == |Lists.Cells(st, args).value|
  {
    var cells :- Lists.Cells(st, args);
    Ok(|cells|)
  }

  /** assert_nargs (src/builtins.c:68-77). */
  function ExpectNargs(st: Store, args: Ptr, n: nat): (r: Res<()>)
    ensures r.Ok? <==> Nargs(st, args) == Ok(n)
    ensures Nargs(st, args).Ok? && Nargs(st, args).value != n ==>
      r == Err(WrongNargs(Nargs(st, args).value, n))
  {
    var a :- Nargs(st, args);
    if a != n then Err(WrongNargs(a, n)) else Ok(())
  }

  /** arg_at (src/builtins.c:80-88): `idx` steps along `cdr`, then `car`. */
  function ArgAt(st: Store, args: Ptr, idx: nat): (r: Res<Ptr>)
    decreases idx
  {
    if idx == 0 then Car(st, args)
    else
      var next :- Cdr(st, args);
      ArgAt(st, next, idx - 1)
  }

  /** The fields of a cons cell, read together. */
  function Cell(st: Store, p: Ptr): (r: Res<Val>)
    ensures r.Ok? <==> Lists.IsCell(st, p)
    ensures r.Ok? ==> r.value == st[p.index].val
  {
    if Lists.IsCell(st, p) then Ok(st[p.index].val) else Err(Undefined)
  }

  /** `p->sym` of a SYMBOL object. */
  function SymbolOf(st: Store, p: Ptr): (r: Res<string>)
    ensures r.Ok? <==> Deref(st, p).Some? && Deref(st, p).value.SymV?
  {
    match Deref(st, p)
    case Some(SymV(s)) => Ok(s)
    case _ => Err(Undefined)
  }

  /** A proc_new_* allocation: the object appended to the store. */
  function Alloc(w: World, v: Val): (r: Done)
    ensures r.obj == Ref(|w.st|) && r.w == World(w.st + [Obj(v, 0)], w.chain)
  {
    Done(Ref(|w.st|), World(w.st + [Obj(v, 0)], w.chain))
  }

  /** Replace the value of object `i`, keeping its mark. */
  function Put(w: World, i: nat, v: Val): (r: World)
    requires i < |w.st|
    ensures r.chain == w.chain && |r.st| == |w.st| && r.st[i].val == v
  {
    World(w.st[i := Obj(v, w.st[i].mark)], w.chain)
  }

  /** `p->car = x` on a cons cell. */
  function SetCar(w: World, p: Ptr, x: Ptr): (r: Res<World>)
    ensures r.Ok? <==> Lists.IsCell(w.st, p)
    ensures r.Ok? ==> r.value == Put(w, p.index, ConsV(x, w.st[p.index].val.cdr))
  {
    if Lists.IsCell(w.st, p) then Ok(Put(w, p.index, ConsV(x, w.st[p.index].val.cdr))) else Err(Undefined)
  }

  /** `p->cdr = x` on a cons cell. */
  function SetCdr(w: World, p: Ptr, x: Ptr): (r: Res<World>)
    ensures r.Ok? <==> Lists.IsCell(w.st, p)
    ensures r.Ok? ==> r.value == Put(w, p.index, ConsV(w.st[p.index].val.car, x))
  {
    if Lists.IsCell(w.st, p) then Ok(Put(w, p.index, ConsV(w.st[p.index].val.car, x))) else Err(Undefined)
  }

  /** `p->num = n` on a NUM object. */
  function SetNum(w: World, p: Ptr, n: int): (r: Res<World>)
    ensures r.Ok? <==> Deref(w.st, p).Some? && Deref(w.st, p).value.NumV?
    ensures r.Ok? ==> r.value == Put(w, p.index, NumV(n))
  {
    match Deref(w.st, p)
    case Some(NumV(_)) => Ok(Put(w, p.index, NumV(n)))
    case _ => Err(Undefined)
  }

  // ---------------------------------------------------------------------
  // Scopes

  /** env_init followed by the frame that uses it: a fresh innermost scope. */
  function Push(w: World, t: Env.Symtab<Ptr>): (r: World)
    requires Wf(w) && Env.Wf(t)
    ensures Wf(r) && r.st == w.st && r.chain == [t] + w.chain
  {
    var c := [t] + w.chain;
    assert forall i | 1 <= i < |c| :: c[i] == w.chain[i - 1];
    World(w.st, c)
  }

  /** env_destroy of the innermost scope: the caller's chain again. */
  function Pop(w: World): (r: World)
    requires Wf(w) && |w.chain| >= 2
    ensures Wf(r) && r.st == w.st && r.chain == w.chain[1..]
  {
    var c := w.chain[1..];
    assert forall i | 0 <= i < |c| :: c[i] == w.chain[i + 1];
    World(w.st, c)
  }

  /** env_add into one table; it exits on a duplicate. */
  function AddTo(t: Env.Symtab<Ptr>, sym: string, obj: Ptr): (r: Res<Env.Symtab<Ptr>>)
    requires Env.Wf(t)
    ensures r.Ok? ==> Env.Wf(r.value)
    ensures r.Ok? <==> Env.Add(t, sym, obj).Ends? && Env.Add(t, sym, obj).value.Added?
    ensures r.Ok? ==> r.value == Env.Add(t, sym, obj).value.t
    ensures Env.Add(t, sym, obj) == Ends(Env.Duplicate) ==> r == Err(DuplicateSymbol(sym))
  {
    match Env.Add(t, sym, obj)
    case Diverges => Err(Spins)
    case Ends(added) => if added.Duplicate? then Err(DuplicateSymbol(sym)) else Ok(added.t)
  }

  /** env_add into the innermost scope of the chain. */
  function Define(w: World, sym: string, obj: Ptr): (r: Res<World>)
    requires Wf(w)
    ensures r.Ok? ==> Keeps(w, r.value) && r.value.st == w.st && r.value.chain[1..] == w.chain[1..]
    ensures r.Ok? <==> AddTo(w.chain[0], sym, obj).Ok?
    ensures r.Ok? ==> r.value.chain[0] == AddTo(w.chain[0], sym, obj).value
  {
    var t :- AddTo(w.chain[0], sym, obj);
    var c := [t] + w.chain[1..];
    assert forall i | 1 <= i < |c| :: c[i] == w.chain[i];
    Ok(World(w.st, c))
  }

  /** The SYMBOL case of eval (src/builtins.c:235-243): env_find, and a
      fatal error when it yields NULL. */
  function Lookup(chain: Chain, s: string): (r: Res<Ptr>)
    requires Env.ChainWf(chain)
    ensures r.Ok? <==> exists p :: p != Null && Env.Find(chain, s) == Ends(Some(p))
    ensures r.Ok? ==> Env.Find(chain, s) == Ends(Some(r.value))
    ensures Env.Find(chain, s).Ends? && r.Err? ==> r == Err(UndefinedSymbol(s))
  {
    match Env.Find(chain, s)
    case Diverges => Err(Spins)
    case Ends(None) => Err(UndefinedSymbol(s))
    case Ends(Some(p)) => if p == Null then Err(UndefinedSymbol(s)) else Ok(p)
  }

  // ---------------------------------------------------------------------
  // C integer arithmetic

  datatype ArithOp = Plus | Minus | Times | Quot | BitAnd | BitOr | BitXor

  const TWO32: int := 0x1_0000_0000

  /** The 32 bits of an `int` in two's complement. */
  function Bits(x: int): bv32
  {
    (x % TWO32) as bv32
  }

  function FromBits(b: bv32): (r: int)
    ensures IsInt(r)
  {
    if b as int <= INT_MAX then b as int else b as int - TWO32
  }

  /** C's `/` on `int`: the quotient rounded toward zero. */
  function TruncDiv(a: int, b: int): int
    requires b != 0
  {
    var q := (if a < 0 then -a else a) / (if b < 0 then -b else b);
    if (a < 0) != (b < 0) then -q else q
  }

  /** `a op b` on C `int`s: Undefined on signed overflow and on division by
      zero. */
  function CArith(op: ArithOp, a: int, b: int): (r: Res<int>)
    ensures r.Ok? ==> IsInt(r.value)
  {
    match op
    case Plus => if IsInt(a + b) then Ok(a + b) else Err(Undefined)
    case Minus => if IsInt(a - b) then Ok(a - b) else Err(Undefined)
    case Times => if IsInt(a * b) then Ok(a * b) else Err(Undefined)
    case Quot => if b == 0 || !IsInt(TruncDiv(a, b)) then Err(Undefined) else Ok(TruncDiv(a, b))
    case BitAnd => Ok(FromBits(Bits(a) & Bits(b)))
    case BitOr => Ok(FromBits(Bits(a) | Bits(b)))
    case BitXor => Ok(FromBits(Bits(a) ^ Bits(b)))
  }

  /** The operator a DEF_ARITH_OP instance is made with, as the C macro
      takes it: `res->num op= curr->num`. */
  function Op(op: ArithOp): (step: (int, int) -> Res<int>)
    ensures forall a: int, b: int :: step(a, b) == CArith(op, a, b)
  {
    (a: int, b: int) => CArith(op, a, b)
  }

  datatype CmpOp = Gt | Lt | Geq | Leq

  function Holds(op: CmpOp, a: int, b: int): bool
  {
    match op
    case Gt => a > b
    case Lt => a < b
    case Geq => a >= b
    case Leq => a <= b
  }

  datatype LogicOp = And | Or

  // ---------------------------------------------------------------------
  // Results of the loops

  /** The objects a loop evaluated, in order, and the state after it. */
  datatype Evaluated = Evaluated(objs: seq<Ptr>, w: World)

  /** The two evaluated arguments of a binary builtin. */
  datatype Two = Two(a: Ptr, b: Ptr, w: World)

  /** The table a `let` fills and the state after its bindings. */
  datatype Scoped = Scoped(t: Env.Symtab<Ptr>, w: World)

  // ---------------------------------------------------------------------
  // eval and apply

  /** eval (src/builtins.c:227-251). */
  function Eval(g: Globals, obj: Ptr, w: World, fuel: nat): (r: Res<Done>)
    requires Wf(w)
    ensures Good(w, r)
    decreases fuel
  {
    if fuel == 0 then Err(OutOfFuel)
    else
      match Deref(w.st, obj)
      case None => Err(Undefined)
      case Some(v) =>
        if v.BoolV? || v.NumV? || v.StrV? || v.NilV? then Ok(Done(obj, w))
        else if v.SymV? then
          var p :- Lookup(w.chain, v.sym);
          Ok(Done(p, w))
        else if v.ConsV? then Apply(g, obj, w, fuel - 1)
        else Err(TypeNamed("Internal error. Eval called on inappropriate type ", v))
  }

  /** tlisp_apply (src/builtins.c:264-302): evaluate the head of `form`, then
      dispatch on the tag of what it yields. */
  function Apply(g: Globals, form: Ptr, w: World, fuel: nat): (r: Res<Done>)
    requires Wf(w)
    ensures Good(w, r)
    decreases fuel
  {
    if fuel == 0 then Err(OutOfFuel)
    else if form == Null then Err(Fatal(APPLY_NO_ARGS))
    else
      var head :- Car(w.st, form);
      var f :- Eval(g, head, w, fuel - 1);
      var args :- Cdr(f.w.st, form);
      match Deref(f.w.st, f.obj)
      case None => Err(Undefined)
      case Some(v) =>
        if v.NFuncV? then Native(g, v.fn, args, f.w, fuel - 1)
        else if v.LambdaV? then CallLambda(g, v.car, v.cdr, args, f.w, fuel - 1)
        else if v.MacroV? then CallMacro(g, v.car, v.cdr, args, f.w, fuel - 1)
        else if v.StructDefV? then CreateStruct(g, f.obj, v.fieldNames, args, f.w, fuel - 1)
        else if v.StructV? then
          var p :- StructField(f.w.st, f.obj, v.sdef, v.fields, args);
          Ok(Done(p, f.w))
        else Err(TypeNamed("ERROR: apply cannot be called on object of type ", v))
  }

  /** apply_fn (src/builtins.c:141-154) on an object assert_fn accepted. */
  function CallFn(g: Globals, fn: Ptr, args: Ptr, w: World, fuel: nat): (r: Res<Done>)
    requires Wf(w)
    ensures Good(w, r)
    decreases fuel
  {
    if fuel == 0 then Err(OutOfFuel)
    else
      match Deref(w.st, fn)
      case Some(v) =>
        if v.NFuncV? then Native(g, v.fn, args, w, fuel - 1)
        else if v.LambdaV? then CallLambda(g, v.car, v.cdr, args, w, fuel - 1)
        else Err(Undefined)
      case None => Err(Undefined)
  }

  /** apply_1arity_fn (src/builtins.c:156-164): the argument list is a cons
      cell on the C stack, here an object appended to the store. */
  function Apply1(g: Globals, fn: Ptr, arg: Ptr, w: World, fuel: nat): (r: Res<Done>)
    requires Wf(w)
    ensures Good(w, r)
    decreases fuel
  {
    if fuel == 0 then Err(OutOfFuel)
    else
      var cell := Alloc(w, ConsV(arg, Null));
      CallFn(g, fn, cell.obj, cell.w, fuel - 1)
  }

  /** apply_2arity_fn (src/builtins.c:167-180): a two-cell argument list. */
  function Apply2(g: Globals, fn: Ptr, a: Ptr, b: Ptr, w: World, fuel: nat): (r: Res<Done>)
    requires Wf(w)
    ensures Good(w, r)
    decreases fuel
  {
    if fuel == 0 then Err(OutOfFuel)
    else
      var second := Alloc(w, ConsV(b, Null));
      var first := Alloc(second.w, ConsV(a, second.obj));
      CallFn(g, fn, first.obj, first.w, fuel - 1)
  }

  /** The lambda branch of apply_fn and apply_lambda (src/builtins.c:91-113,
      145-153): a fresh scope in front of the caller's chain, the
      parameters bound in it, the body evaluated in it, and the scope
      dropped again. */
  function CallLambda(g: Globals, params: Ptr, body: Ptr, args: Ptr, w: World, fuel: nat): (r: Res<Done>)
    requires Wf(w)
    ensures Good(w, r)
    decreases fuel
  {
    if fuel == 0 then Err(OutOfFuel)
    else
      var inner :- BindArgs(g, params, args, Push(w, Env.Init()), fuel - 1);
      if body == Null then Err(Undefined)
      else
        var e :- EvalBody(g, body, Null, inner, fuel - 1);
        Ok(Done(e.obj, Pop(e.w)))
  }

  /** The binding loop of apply_lambda (src/builtins.c:96-108): each
      argument is evaluated in the new scope and bound there. */
  function BindArgs(g: Globals, params: Ptr, args: Ptr, w: World, fuel: nat): (r: Res<World>)
    requires Wf(w)
    ensures r.Ok? ==> Keeps(w, r.value)
    decreases fuel
  {
    if fuel == 0 then Err(OutOfFuel)
    else if params == Null && args == Null then Ok(w)
    else if params == Null then Err(Fatal(TOO_MANY_ARGS))
    else if args == Null then Err(Fatal(TOO_FEW_ARGS))
    else
      var p :- Car(w.st, params);
      var sym :- SymbolOf(w.st, p);
      var a :- Car(w.st, args);
      var e :- Eval(g, a, w, fuel - 1);
      var w2 :- Define(e.w, sym, e.obj);
      var params2 :- Cdr(w2.st, params);
      var args2 :- Cdr(w2.st, args);
      BindArgs(g, params2, args2, w2, fuel - 1)
  }

  /** The `while (body)` loops of apply_lambda, apply_macro and tlisp_do:
      evaluate each form in turn, yielding the last value (`last` when
      there is none). */
  function EvalBody(g: Globals, body: Ptr, last: Ptr, w: World, fuel: nat): (r: Res<Done>)
    requires Wf(w)
    ensures Good(w, r)
    decreases fuel
  {
    if fuel == 0 then Err(OutOfFuel)
    else if body == Null then Ok(Done(last, w))
    else
      var x :- Car(w.st, body);
      var e :- Eval(g, x, w, fuel - 1);
      var next :- Cdr(e.w.st, body);
      EvalBody(g, next, e.obj, e.w, fuel - 1)
  }

  /** apply_macro (src/builtins.c:115-139): the arguments, unevaluated, are
      bound in the caller's own innermost scope; the first body form is
      replaced in place by its value; then every body form is evaluated. */
  function CallMacro(g: Globals, params: Ptr, body: Ptr, args: Ptr, w: World, fuel: nat): (r: Res<Done>)
    requires Wf(w)
    ensures Good(w, r)
    decreases fuel
  {
    if fuel == 0 then Err(OutOfFuel)
    else
      var b :- BindQuoted(params, args, w, fuel - 1);
      if body == Null then Err(Undefined)
      else
        var x :- Car(b.st, body);
        var e :- Eval(g, x, b, fuel - 1);
        var w1 :- SetCar(e.w, body, e.obj);
        EvalBody(g, body, Null, w1, fuel - 1)
  }

  /** The binding loop of apply_macro (src/builtins.c:120-131). */
  function BindQuoted(params: Ptr, args: Ptr, w: World, fuel: nat): (r: Res<World>)
    requires Wf(w)
    ensures r.Ok? ==> Keeps(w, r.value) && r.value.st == w.st
    decreases fuel
  {
    if fuel == 0 then Err(OutOfFuel)
    else if params == Null && args == Null then Ok(w)
    else if params == Null then Err(Fatal(TOO_MANY_ARGS))
    else if args == Null then Err(Fatal(TOO_FEW_ARGS))
    else
      var pc :- Cell(w.st, params);
      var sym :- SymbolOf(w.st, pc.car);
      var ac :- Cell(w.st, args);
      var w2 :- Define(w, sym, ac.car);
      BindQuoted(pc.cdr, ac.cdr, w2, fuel - 1)
  }

  /** create_struct (src/builtins.c:183-205): more arguments than fields is
      fatal; field i gets the value of argument i and the remaining fields
      get nil. The C code fills the fields of the new object one by one;
      the object is unreachable until it is returned, so here they are
      written once at the end. */
  function CreateStruct(g: Globals, sdef: Ptr, names: seq<string>, args: Ptr, w: World, fuel: nat): (r: Res<Done>)
    requires Wf(w)
    ensures Good(w, r)
    decreases fuel
  {
    if fuel == 0 then Err(OutOfFuel)
    else
      var n :- Nargs(w.st, args);
      if n > |names| then Err(Fatal(TOO_MANY_FIELDS))
      else
        var s := Alloc(w, StructV(sdef, []));
        var fs :- EvalArgs(g, args, [], s.w, fuel - 1);
        if |fs.objs| > |names| || s.obj.index >= |fs.w.st| then Err(Undefined)
        else
          var fields := fs.objs + seq(|names| - |fs.objs|, _ => g.nil);
          Ok(Done(s.obj, Put(fs.w, s.obj.index, StructV(sdef, fields))))
  }

  /** Evaluate every element of a list in order. */
  function EvalArgs(g: Globals, args: Ptr, acc: seq<Ptr>, w: World, fuel: nat): (r: Res<Evaluated>)
    requires Wf(w)
    ensures r.Ok? ==> Keeps(w, r.value.w) && |r.value.objs| >= |acc|
    decreases fuel
  {
    if fuel == 0 then Err(OutOfFuel)
    else if args == Null then Ok(Evaluated(acc, w))
    else
      var x :- Car(w.st, args);
      var e :- Eval(g, x, w, fuel - 1);
      var next :- Cdr(e.w.st, args);
      EvalArgs(g, next, acc + [e.obj], e.w, fuel - 1)
  }

  /** get_struct_field (src/builtins.c:208-225): one unevaluated SYMBOL
      argument naming a field whose object is not NULL. The message for a
      missing field renders the struct `s` itself. */
  function StructField(st: Store, s: Ptr, sdef: Ptr, fields: seq<Ptr>, args: Ptr): (r: Res<Ptr>)
  {
    var ok :- ExpectNargs(st, args, 1);
    var field :- Car(st, args);
    var fv :- Expect(st, field, SYMBOL);
    match Deref(st, sdef)
    case Some(d) =>
      if !d.StructDefV? || |d.fieldNames| > |fields| then Err(Undefined)
      else
        var p := Structs.FieldOf(d.fieldNames, fields, fv.sym);
        if p == Null then
          match ObjText(st, s)
          case Ok(t) => Err(Fatal(Bounded("ERROR: No field " + fv.sym + " in " + t + ".\n", 256)))
          case Err(_) => Err(Undefined)
        else Ok(p)
    case None => Err(Undefined)
  }

  /** The groups the dispatch of native functions goes through. */
  datatype Family = FormFamily | ListFamily | NumFamily | TestFamily | OtherFamily

  function FamilyOf(b: Builtin): Family
  {
    match b
    case EvalFn | ApplyFn | QuoteFn | BackquoteFn | TypeOfFn | LetFn | DoFn | IfFn
       | WhileFn | DefFn | SetFn | LambdaFn | MacroFn => FormFamily
    case ListFn | ConsFn | AppendFn | CarFn | CdrFn | LenFn | ForEachFn | MapFn | FilterFn | ReduceFn => ListFamily
    case AddFn | SubFn | MulFn | DivFn | AndBitsFn | OrBitsFn | XorFn => NumFamily
    case EqualsFn | GtFn | LtFn | GeqFn | LeqFn | AndFn | OrFn | NotFn => TestFamily
    case DictFn | GetFn | InsFn | RemFn | PrintFn | StrFn => OtherFamily
  }

  /** The name of a builtin this model does not follow. */
  function UnmodelledName(b: Builtin): string
  {
    match b
    case DictFn => "#"
    case GetFn => "get"
    case InsFn => "ins"
    case RemFn => "rem"
    case PrintFn => "print"
    case StrFn => "str"
    case _ => ""
  }

  /** The native functions genv_init registers (src/tlisp.c:53-98). */
  function Native(g: Globals, b: Builtin, args: Ptr, w: World, fuel: nat): (r: Res<Done>)
    requires Wf(w)
    ensures Good(w, r)
    decreases fuel
  {
    if fuel == 0 then Err(OutOfFuel)
    else
      match FamilyOf(b)
      case FormFamily => NativeForm(g, b, args, w, fuel)
      case ListFamily => NativeList(g, b, args, w, fuel)
      case NumFamily => NativeNum(g, b, args, w, fuel)
      case TestFamily => NativeTest(g, b, args, w, fuel)
      case OtherFamily => Err(Unmodelled(UnmodelledName(b)))
  }

  /** The special forms and evaluation builtins. */
  function NativeForm(g: Globals, b: Builtin, args: Ptr, w: World, fuel: nat): (r: Res<Done>)
    requires Wf(w) && fuel > 0 && FamilyOf(b) == FormFamily
    ensures Good(w, r)
    decreases fuel, 0
  {
    var f := fuel - 1;
    match b
    case EvalFn => EvalArg(g, args, w, f)
    case ApplyFn => Apply(g, args, w, f)
    case QuoteFn => Quote(args, w)
    case BackquoteFn => Backquote(g, args, w, f)
    case TypeOfFn => TypeOf(g, args, w, f)
    case LetFn => Let(g, args, w, f)
    case DoFn => Do(g, args, w, f)
    case IfFn => If(g, args, w, f)
    case WhileFn => While(g, EvalAt(g, f), args, w, f)
    case DefFn => Def(g, args, w, f)
    case SetFn => SetBang(g, args, w, f)
    case LambdaFn => Lambda(args, w)
    case MacroFn => Macro(args, w)
    case _ => assert false; Err(Undefined)
  }

  /** The list builtins. */
  function NativeList(g: Globals, b: Builtin, args: Ptr, w: World, fuel: nat): (r: Res<Done>)
    requires Wf(w) && fuel > 0 && FamilyOf(b) == ListFamily
    ensures Good(w, r)
    decreases fuel, 0
  {
    var f := fuel - 1;
    match b
    case ListFn => List(g, EvalAt(g, f), args, w, f)
    case ConsFn => Cons(g, args, w, f)
    case AppendFn => Append(g, args, w, f)
    case CarFn => CarFn(g, args, w, f)
    case CdrFn => CdrFn(g, args, w, f)
    case LenFn => Len(g, args, w, f)
    case ForEachFn => ForEach(g, args, w, f)
    case MapFn => Map(g, args, w, f)
    case FilterFn => Filter(g, args, w, f)
    case ReduceFn => Reduce(g, args, w, f)
    case _ => assert false; Err(Undefined)
  }

  /** The arithmetic builtins. */
  function NativeNum(g: Globals, b: Builtin, args: Ptr, w: World, fuel: nat): (r: Res<Done>)
    requires Wf(w) && fuel > 0 && FamilyOf(b) == NumFamily
    ensures Good(w, r)
    decreases fuel, 0
  {
    var f := fuel - 1;
    match b
    case AddFn => Arith(g, EvalAt(g, f), Op(Plus), args, w, f)
    case SubFn => Sub(g, EvalAt(g, f), args, w, f)
    case MulFn => Arith(g, EvalAt(g, f), Op(Times), args, w, f)
    case DivFn => Arith(g, EvalAt(g, f), Op(Quot), args, w, f)
    case AndBitsFn => Arith(g, EvalAt(g, f), Op(BitAnd), args, w, f)
    case OrBitsFn => Arith(g, EvalAt(g, f), Op(BitOr), args, w, f)
    case XorFn => Arith(g, EvalAt(g, f), Op(BitXor), args, w, f)
    case _ => assert false; Err(Undefined)
  }

  /** The comparisons and the logical builtins. */
  function NativeTest(g: Globals, b: Builtin, args: Ptr, w: World, fuel: nat): (r: Res<Done>)
    requires Wf(w) && fuel > 0 && FamilyOf(b) == TestFamily
    ensures Good(w, r)
    decreases fuel, 0
  {
    var f := fuel - 1;
    match b
    case EqualsFn => Equals(g, args, w, f)
    case GtFn => Compare(g, Gt, args, w, f)
    case LtFn => Compare(g, Lt, args, w, f)
    case GeqFn => Compare(g, Geq, args, w, f)
    case LeqFn => Compare(g, Leq, args, w, f)
    case AndFn => Logic(g, And, args, w, f)
    case OrFn => Logic(g, Or, args, w, f)
    case NotFn => Not(g, args, w, f)
    case _ => assert false; Err(Undefined)
  }

  // ---------------------------------------------------------------------
  // Special forms

  /** tlisp_eval (src/builtins.c:253-262): a quoted argument is evaluated
      without its quote symbol; anything else is evaluated as it is. */
  function EvalArg(g: Globals, args: Ptr, w: World, fuel: nat): (r: Res<Done>)
    requires Wf(w)
    ensures Good(w, r)
    decreases fuel
  {
    if fuel == 0 then Err(OutOfFuel)
    else
      var ok :- ExpectNargs(w.st, args, 1);
      var a :- Car(w.st, args);
      match Deref(w.st, a)
      case None => Err(Undefined)
      case Some(v) =>
        if v.ConsV? && (v.car == g.quote || v.car == g.backquote) then Eval(g, v.cdr, w, fuel - 1)
        else Eval(g, a, w, fuel - 1)
  }

  /** tlisp_quote_fn (src/builtins.c:304-310): the argument list itself. */
  function Quote(args: Ptr, w: World): (r: Res<Done>)
    requires Wf(w)
    ensures Good(w, r)
    ensures args == Null <==> r == Err(Fatal(QUOTE_NO_ARGS))
    ensures args != Null ==> r == Ok(Done(args, w))
  {
    if args == Null then Err(Fatal(QUOTE_NO_ARGS)) else Ok(Done(args, w))
  }

  /** tlisp_backquote_fn (src/builtins.c:312-346): a copy of the argument
      list in which `~sym` elements are replaced by the object `sym` is
      bound to and nested lists are copied the same way. */
  function Backquote(g: Globals, args: Ptr, w: World, fuel: nat): (r: Res<Done>)
    requires Wf(w)
    ensures Good(w, r)
    decreases fuel
  {
    if fuel == 0 then Err(OutOfFuel)
    else if args == Null then Err(Fatal(BACKQUOTE_NO_ARGS))
    else BackquoteLoop(g, args, Null, Null, w, fuel - 1)
  }

  function BackquoteLoop(g: Globals, args: Ptr, head: Ptr, curr: Ptr, w: World, fuel: nat): (r: Res<Done>)
    requires Wf(w)
    ensures Good(w, r)
    decreases fuel
  {
    if fuel == 0 then Err(OutOfFuel)
    else if args == Null then Ok(Done(head, w))
    else
      var v :- Expect(w.st, args, CONS);
      var next := Alloc(w, ConsV(Null, Null));
      var e :- Expand(g, v.car, next.w, fuel - 1);
      var w2 :- SetCar(e.w, next.obj, e.obj);
      var w3 :- if head != Null then SetCdr(w2, curr, next.obj) else Ok(w2);
      var rest :- Cdr(w3.st, args);
      BackquoteLoop(g, rest, if head != Null then head else next.obj, next.obj, w3, fuel - 1)
  }

  /** One element of a backquoted list. The message on an unbound `~sym`
      formats a field of the wrong union variant (`args->sym` of a cons
      cell), so that case is undefined. */
  function Expand(g: Globals, item: Ptr, w: World, fuel: nat): (r: Res<Done>)
    requires Wf(w)
    ensures Good(w, r)
    decreases fuel
  {
    if fuel == 0 then Err(OutOfFuel)
    else
      match Deref(w.st, item)
      case None => Err(Undefined)
      case Some(v) =>
        if v.SymV? && |v.sym| > 0 && v.sym[0] == '~' then
          match Env.Find(w.chain, v.sym[1..])
          case Diverges => Err(Spins)
          case Ends(Some(p)) => if p == Null then Err(Undefined) else Ok(Done(p, w))
          case Ends(None) => Err(Undefined)
        else if v.ConsV? then Backquote(g, item, w, fuel - 1)
        else Ok(Done(item, w))
  }

  /** tlisp_type_of (src/builtins.c:348-359): a new STRING naming the tag,
      or the definition's name for a struct instance. */
  function TypeOf(g: Globals, args: Ptr, w: World, fuel: nat): (r: Res<Done>)
    requires Wf(w)
    ensures Good(w, r)
    decreases fuel
  {
    if fuel == 0 then Err(OutOfFuel)
    else
      var ok :- ExpectNargs(w.st, args, 1);
      var a :- Car(w.st, args);
      var e :- Eval(g, a, w, fuel - 1);
      match Deref(e.w.st, e.obj)
      case None => Err(Undefined)
      case Some(v) =>
        if v.StructV? then
          match Deref(e.w.st, v.sdef)
          case Some(d) => if d.StructDefV? then Ok(Alloc(e.w, StrV(d.name))) else Err(Undefined)
          case None => Err(Undefined)
        else
          match TagStr(TagOf(v))
          case Some(n) => Ok(Alloc(e.w, StrV(n)))
          case None => Err(Undefined)
  }

  /** tlisp_let (src/builtins.c:361-389): bindings evaluated in the outer
      chain into a fresh scope, the body evaluated with that scope in
      front, and nil returned whatever the body yields. */
  function Let(g: Globals, args: Ptr, w: World, fuel: nat): (r: Res<Done>)
    requires Wf(w)
    ensures Good(w, r)
    decreases fuel
  {
    if fuel == 0 then Err(OutOfFuel)
    else
      var ok :- ExpectNargs(w.st, args, 2);
      var bindings :- ArgAt(w.st, args, 0);
      var bv :- Expect(w.st, bindings, CONS);
      var s :- LetBind(g, bindings, Env.Init(), w, fuel - 1);
      var body :- ArgAt(s.w.st, args, 1);
      var e :- Eval(g, body, Push(s.w, s.t), fuel - 1);
      Ok(Done(g.nil, Pop(e.w)))
  }

  /** The binding loop of tlisp_let (src/builtins.c:369-385). */
  function LetBind(g: Globals, bindings: Ptr, t: Env.Symtab<Ptr>, w: World, fuel: nat): (r: Res<Scoped>)
    requires Wf(w) && Env.Wf(t)
    ensures r.Ok? ==> Keeps(w, r.value.w) && Env.Wf(r.value.t)
    decreases fuel
  {
    if fuel == 0 then Err(OutOfFuel)
    else if bindings == Null then Ok(Scoped(t, w))
    else
      var bc :- Cell(w.st, bindings);
      var sv :- Expect(w.st, bc.car, SYMBOL);
      var rest := bc.cdr;
      if rest == Null then Err(Fatal(Bounded("ERROR: No matching binding for " + sv.sym + ".\n", 256)))
      else
        var expr :- Car(w.st, rest);
        var e :- Eval(g, expr, w, fuel - 1);
        var t2 :- AddTo(t, sv.sym, e.obj);
        var next :- Cdr(e.w.st, rest);
        LetBind(g, next, t2, e.w, fuel - 1)
  }

  /** tlisp_do (src/builtins.c:391-400): the last value, nil when there is
      none or it is NULL. */
  function Do(g: Globals, args: Ptr, w: World, fuel: nat): (r: Res<Done>)
    requires Wf(w)
    ensures Good(w, r)
    decreases fuel
  {
    if fuel == 0 then Err(OutOfFuel)
    else
      var e :- EvalBody(g, args, Null, w, fuel - 1);
      Ok(Done(if e.obj == Null then g.nil else e.obj, e.w))
  }

  /** tlisp_if (src/builtins.c:402-416). */
  function If(g: Globals, args: Ptr, w: World, fuel: nat): (r: Res<Done>)
    requires Wf(w)
    ensures Good(w, r)
    decreases fuel
  {
    if fuel == 0 then Err(OutOfFuel)
    else
      var len :- Nargs(w.st, args);
      if len != 2 && len != 3 then Err(Fatal(INVALID_IF))
      else
        var cond :- ArgAt(w.st, args, 0);
        var c :- Eval(g, cond, w, fuel - 1);
        if c.obj == g.t then
          var x :- ArgAt(c.w.st, args, 1);
          Eval(g, x, c.w, fuel - 1)
        else if len == 3 then
          var x :- ArgAt(c.w.st, args, 2);
          Eval(g, x, c.w, fuel - 1)
        else Ok(Done(g.nil, c.w))
  }

  /** tlisp_while (src/builtins.c:418-431). */
  function While(g: Globals, ev: Evaluator, args: Ptr, w: World, fuel: nat): (r: Res<Done>)
    requires Wf(w) && Evaluates(ev)
    ensures Good(w, r)
    decreases fuel
  {
    if fuel == 0 then Err(OutOfFuel)
    else
      var ok :- ExpectNargs(w.st, args, 2);
      var cond :- ArgAt(w.st, args, 0);
      var body :- ArgAt(w.st, args, 1);
      WhileLoop(g, ev, cond, body, w, fuel - 1)
  }

  /** The loop of tlisp_while: `ev` evaluates the condition and the body. */
  function WhileLoop(g: Globals, ev: Evaluator, cond: Ptr, body: Ptr, w: World, fuel: nat): (r: Res<Done>)
    requires Wf(w) && Evaluates(ev)
    ensures Good(w, r)
    decreases fuel
  {
    if fuel == 0 then Err(OutOfFuel)
    else
      var c :- ev(cond, w);
      if c.obj != g.t then Ok(Done(g.nil, c.w))
      else
        var b :- ev(body, c.w);
        WhileLoop(g, ev, cond, body, b.w, fuel - 1)
  }

  /** tlisp_def (src/builtins.c:433-446). */
  function Def(g: Globals, args: Ptr, w: World, fuel: nat): (r: Res<Done>)
    requires Wf(w)
    ensures Good(w, r)
    decreases fuel
  {
    if fuel == 0 then Err(OutOfFuel)
    else
      var ok :- ExpectNargs(w.st, args, 2);
      var sym :- ArgAt(w.st, args, 0);
      var val :- ArgAt(w.st, args, 1);
      var sv :- Expect(w.st, sym, SYMBOL);
      var e :- Eval(g, val, w, fuel - 1);
      var w2 :- Define(e.w, sv.sym, e.obj);
      Ok(Done(e.obj, w2))
  }

  /** tlisp_set (src/builtins.c:448-463): the value is evaluated before the
      target is checked; env_update's "no binding" is fatal. */
  function SetBang(g: Globals, args: Ptr, w: World, fuel: nat): (r: Res<Done>)
    requires Wf(w)
    ensures Good(w, r)
    decreases fuel
  {
    if fuel == 0 then Err(OutOfFuel)
    else
      var ok :- ExpectNargs(w.st, args, 2);
      var sym :- ArgAt(w.st, args, 0);
      var val :- ArgAt(w.st, args, 1);
      var e :- Eval(g, val, w, fuel - 1);
      var sv :- Expect(e.w.st, sym, SYMBOL);
      match Env.Update(e.w.chain, sv.sym, e.obj)
      case Diverges => Err(Spins)
      case Ends(None) => Err(Fatal(Bounded("ERROR: No previous value for symbol " + sv.sym + ".\n", 128)))
      case Ends(Some(c)) => Ok(Done(e.obj, World(e.w.st, c)))
  }

  /** The parameter check of tlisp_lambda and tlisp_macro
      (src/builtins.c:528-532): every element of the list is a SYMBOL. A
      walk that has taken as many steps as the store holds objects is on
      a cycle whose symbols it has all checked, and spins. */
  function ParamsFrom(st: Store, p: Ptr, steps: nat): (r: Res<()>)
    requires steps <= |st|
    decreases |st| - steps
  {
    if p == Null then Ok(())
    else if !Lists.IsCell(st, p) then Err(Undefined)
    else if steps == |st| then Err(Spins)
    else
      var sv :- Expect(st, st[p.index].val.car, SYMBOL);
      ParamsFrom(st, st[p.index].val.cdr, steps + 1)
  }

  /** tlisp_lambda (src/builtins.c:518-534): at least two arguments, the
      first a CONS of SYMBOLs; the new lambda keeps the parameter list in
      `car` and the body forms in `cdr`. */
  function Lambda(args: Ptr, w: World): (r: Res<Done>)
    requires Wf(w)
    ensures Good(w, r)
  {
    var res := Alloc(w, LambdaV(Null, Null));
    if args == Null then Err(Fatal(LAMBDA_NO_ARGS))
    else
      var ac :- Cell(res.w.st, args);
      var body, params := ac.cdr, ac.car;
      if body == Null then Err(Fatal(LAMBDA_NO_ARGS))
      else
        var pv :- Expect(res.w.st, params, CONS);
        var w2 := Put(res.w, res.obj.index, LambdaV(params, body));
        var ok :- ParamsFrom(w2.st, params, 0);
        Ok(Done(res.obj, w2))
  }

  /** tlisp_macro (src/builtins.c:536-550): exactly two arguments, the first
      a CONS of SYMBOLs. */
  function Macro(args: Ptr, w: World): (r: Res<Done>)
    requires Wf(w)
    ensures Good(w, r)
  {
    var res := Alloc(w, MacroV(Null, Null));
    var ok :- ExpectNargs(res.w.st, args, 2);
    var ac :- Cell(res.w.st, args);
    var params, body := ac.car, ac.cdr;
    var pv :- Expect(res.w.st, params, CONS);
    var w2 := Put(res.w, res.obj.index, MacroV(params, body));
    var ok2 :- ParamsFrom(w2.st, params, 0);
    Ok(Done(res.obj, w2))
  }

  // ---------------------------------------------------------------------
  // Lists

  /** tlisp_cons (src/builtins.c:552-566): a new cell; a nil second value
      becomes a NULL `cdr`, any other must be a CONS. */
  function Cons(g: Globals, args: Ptr, w: World, fuel: nat): (r: Res<Done>)
    requires Wf(w)
    ensures Good(w, r)
    decreases fuel
  {
    if fuel == 0 then Err(OutOfFuel)
    else
      var ok :- ExpectNargs(w.st, args, 2);
      var res := Alloc(w, ConsV(Null, Null));
      var a :- Car(res.w.st, args);
      var e1 :- Eval(g, a, res.w, fuel - 1);
      var w1 :- SetCar(e1.w, res.obj, e1.obj);
      var rest :- Cdr(w1.st, args);
      var b :- Car(w1.st, rest);
      var e2 :- Eval(g, b, w1, fuel - 1);
      if e2.obj == g.nil then
        var w2 :- SetCdr(e2.w, res.obj, Null);
        Ok(Done(res.obj, w2))
      else
        var w2 :- SetCdr(e2.w, res.obj, e2.obj);
        var cv :- Expect(w2.st, e2.obj, CONS);
        Ok(Done(res.obj, w2))
  }

  /** The last cell of a spine (src/builtins.c:580-583). */
  function LastCell(st: Store, p: Ptr, steps: nat): (r: Res<Ptr>)
    requires steps <= |st|
    ensures r.Ok? ==> Lists.IsCell(st, r.value) && st[r.value.index].val.cdr == Null
    decreases |st| - steps
  {
    if !Lists.IsCell(st, p) then Err(Undefined)
    else if st[p.index].val.cdr == Null then Ok(p)
    else if steps == |st| then Err(Spins)
    else LastCell(st, st[p.index].val.cdr, steps + 1)
  }

  /** tlisp_append (src/builtins.c:568-586): a new cell holding the first
      value is linked after the last cell of the second, in place; the
      second is returned (the new cell alone when the second is nil). */
  function Append(g: Globals, args: Ptr, w: World, fuel: nat): (r: Res<Done>)
    requires Wf(w)
    ensures Good(w, r)
    decreases fuel
  {
    if fuel == 0 then Err(OutOfFuel)
    else
      var ok :- ExpectNargs(w.st, args, 2);
      var res := Alloc(w, ConsV(Null, Null));
      var a :- Car(res.w.st, args);
      var e1 :- Eval(g, a, res.w, fuel - 1);
      var w1 :- SetCar(e1.w, res.obj, e1.obj);
      var rest :- Cdr(w1.st, args);
      var b :- Car(w1.st, rest);
      var e2 :- Eval(g, b, w1, fuel - 1);
      if e2.obj == g.nil then Ok(Done(res.obj, e2.w))
      else
        var last :- LastCell(e2.w.st, e2.obj, 0);
        Ok(Done(e2.obj, Put(e2.w, last.index, ConsV(e2.w.st[last.index].val.car, res.obj))))
  }

  /** tlisp_car (src/builtins.c:588-599); nil yields nil. */
  function CarFn(g: Globals, args: Ptr, w: World, fuel: nat): (r: Res<Done>)
    requires Wf(w)
    ensures Good(w, r)
    decreases fuel
  {
    if fuel == 0 then Err(OutOfFuel)
    else
      var ok :- ExpectNargs(w.st, args, 1);
      var a :- Car(w.st, args);
      var e :- Eval(g, a, w, fuel - 1);
      if e.obj == g.nil then Ok(Done(g.nil, e.w))
      else
        var v :- Expect(e.w.st, e.obj, CONS);
        Ok(Done(v.car, e.w))
  }

  /** tlisp_cdr (src/builtins.c:601-609): nil is not accepted; a NULL `cdr`
      yields nil. */
  function CdrFn(g: Globals, args: Ptr, w: World, fuel: nat): (r: Res<Done>)
    requires Wf(w)
    ensures Good(w, r)
    decreases fuel
  {
    if fuel == 0 then Err(OutOfFuel)
    else
      var ok :- ExpectNargs(w.st, args, 1);
      var a :- Car(w.st, args);
      var e :- Eval(g, a, w, fuel - 1);
      var v :- Expect(e.w.st, e.obj, CONS);
      Ok(Done(if v.cdr == Null then g.nil else v.cdr, e.w))
  }

  /** tlisp_list (src/builtins.c:647-664): a fresh list of the values `ev`
      gives for the arguments, in order; nil without arguments. */
  function List(g: Globals, ev: Evaluator, args: Ptr, w: World, fuel: nat): (r: Res<Done>)
    requires Wf(w) && Evaluates(ev)
    ensures Good(w, r)
  {
    if fuel == 0 then Err(OutOfFuel)
    else if args == Null then Ok(Done(g.nil, w))
    else
      var head := Alloc(w, ConsV(Null, Null));
      var a :- Car(head.w.st, args);
      var e :- ev(a, head.w);
      var w1 :- SetCar(e.w, head.obj, e.obj);
      ListLoop(ev, args, head.obj, head.obj, w1, fuel - 1)
  }

  /** The `while ((args = args->cdr))` loop of tlisp_list: a new cell is
      linked after `curr` and then receives the next value. */
  function ListLoop(ev: Evaluator, args: Ptr, head: Ptr, curr: Ptr, w: World, fuel: nat): (r: Res<Done>)
    requires Wf(w) && Evaluates(ev)
    ensures Good(w, r)
    decreases fuel
  {
    if fuel == 0 then Err(OutOfFuel)
    else
      var next :- Cdr(w.st, args);
      if next == Null then Ok(Done(head, w))
      else
        var c := Alloc(w, ConsV(Null, Null));
        var w1 :- SetCdr(c.w, curr, c.obj);
        var a :- Car(w1.st, next);
        var e :- ev(a, w1);
        var w2 :- SetCar(e.w, c.obj, e.obj);
        ListLoop(ev, next, head, c.obj, w2, fuel - 1)
  }

  /** tlisp_len (src/builtins.c:905-937): a new NUM counting the cells of a
      list, the pairs of a dict or the elements of a vector; nil has 0. */
  function Len(g: Globals, args: Ptr, w: World, fuel: nat): (r: Res<Done>)
    requires Wf(w)
    ensures Good(w, r)
    decreases fuel
  {
    if fuel == 0 then Err(OutOfFuel)
    else
      var ok :- ExpectNargs(w.st, args, 1);
      var a :- Car(w.st, args);
      var e :- Eval(g, a, w, fuel - 1);
      var n :- Count(e.w.st, e.obj);
      Ok(Alloc(e.w, NumV(n)))
  }

  /** The size tlisp_len reports for one object. */
  function Count(st: Store, p: Ptr): (r: Res<int>)
  {
    match Deref(st, p)
    case None => Err(Undefined)
    case Some(v) =>
      if v.NilV? then Ok(0)
      else if v.ConsV? then
        var cells :- Lists.Cells(st, p);
        Ok(|cells|)
      else if v.DictV? then Ok(Dict.Len(v.dict))
      else if v.VecV? then Ok(|v.elems|)
      else
        match TagStr(TagOf(v))
        case Some(n) => Err(Fatal(Bounded("ERROR: Wrong arg type to len: " + n + ".\n", 128)))
        case None => Err(Undefined)
  }

  /** The list and function arguments of for-each, map, filter and reduce
      (src/builtins.c:945-951 and the like): the list value, then, unless it
      is nil, a check that it is a CONS and the function value, which must
      be a native function or a lambda. Both carry the state after the
      evaluations. */
  datatype Walk = NilList(w: World) | Walk(list: Ptr, fn: Ptr, w: World)

  function ListAndFn(g: Globals, args: Ptr, w: World, fuel: nat): (r: Res<Walk>)
    requires Wf(w)
    ensures r.Ok? ==> Keeps(w, r.value.w)
    ensures r.Ok? && r.value.Walk? ==> r.value.list.Ref?
    decreases fuel
  {
    if fuel == 0 then Err(OutOfFuel)
    else
      var ok :- ExpectNargs(w.st, args, 2);
      var a :- Car(w.st, args);
      var e :- Eval(g, a, w, fuel - 1);
      if e.obj == g.nil then Ok(NilList(e.w))
      else
        var lv :- Expect(e.w.st, e.obj, CONS);
        var rest :- Cdr(e.w.st, args);
        var fx :- Car(e.w.st, rest);
        var f :- Eval(g, fx, e.w, fuel - 1);
        var okf :- ExpectFn(f.w.st, f.obj);
        Ok(Walk(e.obj, f.obj, f.w))
  }

  /** apply_1arity_fn of the function `fn`, as the walkers call it on each
      element. */
  function ApplyAt(g: Globals, fn: Ptr, fuel: nat): (ap: Evaluator)
    ensures Evaluates(ap)
    decreases fuel
  {
    (x: Ptr, w: World) requires Wf(w) => if fuel == 0 then Err(OutOfFuel) else Apply1(g, fn, x, w, fuel - 1)
  }

  /** apply_2arity_fn of the function `fn`, as reduce calls it. */
  function Apply2At(g: Globals, fn: Ptr, fuel: nat): (cb: Combiner)
    ensures Combines(cb)
    decreases fuel
  {
    (a: Ptr, b: Ptr, w: World) requires Wf(w) => if fuel == 0 then Err(OutOfFuel) else Apply2(g, fn, a, b, w, fuel - 1)
  }

  /** tlisp_for_each (src/builtins.c:939-957): NULL for a nil list,
      otherwise nil after applying the function to each element. */
  function ForEach(g: Globals, args: Ptr, w: World, fuel: nat): (r: Res<Done>)
    requires Wf(w)
    ensures Good(w, r)
    decreases fuel
  {
    if fuel == 0 then Err(OutOfFuel)
    else
      var lf :- ListAndFn(g, args, w, fuel - 1);
      match lf
      case NilList(w1) => Ok(Done(Null, w1))
      case Walk(list, fn, w1) => ForEachLoop(g, ApplyAt(g, fn, fuel - 1), list, w1, fuel - 1)
  }

  /** The loop of tlisp_for_each: `ap` applies the function to one element;
      the `cdr` is read after the call. */
  function ForEachLoop(g: Globals, ap: Evaluator, list: Ptr, w: World, fuel: nat): (r: Res<Done>)
    requires Wf(w) && Evaluates(ap)
    ensures Good(w, r)
    decreases fuel
  {
    if fuel == 0 then Err(OutOfFuel)
    else if list == Null then Ok(Done(g.nil, w))
    else
      var x :- Car(w.st, list);
      var e :- ap(x, w);
      var next :- Cdr(e.w.st, list);
      ForEachLoop(g, ap, next, e.w, fuel - 1)
  }

  /** tlisp_map (src/builtins.c:959-983): nil for a nil list, otherwise a
      fresh list of the function's results. */
  function Map(g: Globals, args: Ptr, w: World, fuel: nat): (r: Res<Done>)
    requires Wf(w)
    ensures Good(w, r)
    decreases fuel
  {
    if fuel == 0 then Err(OutOfFuel)
    else
      var lf :- ListAndFn(g, args, w, fuel - 1);
      match lf
      case NilList(w1) => Ok(Done(g.nil, w1))
      case Walk(list, fn, w1) => MapList(ApplyAt(g, fn, fuel - 1), list, w1, fuel - 1)
  }

  /** The part of tlisp_map after the checks: the head cell receives the
      result for the first element, then the loop runs. */
  function MapList(ap: Evaluator, list: Ptr, w: World, fuel: nat): (r: Res<Done>)
    requires Wf(w) && Evaluates(ap)
    ensures Good(w, r)
  {
    if fuel == 0 then Err(OutOfFuel)
    else
      var res := Alloc(w, ConsV(Null, Null));
      var x :- Car(res.w.st, list);
      var e :- ap(x, res.w);
      var w1 :- SetCar(e.w, res.obj, e.obj);
      MapLoop(ap, list, res.obj, res.obj, w1, fuel - 1)
  }

  function MapLoop(ap: Evaluator, list: Ptr, head: Ptr, curr: Ptr, w: World, fuel: nat): (r: Res<Done>)
    requires Wf(w) && Evaluates(ap)
    ensures Good(w, r)
    decreases fuel
  {
    if fuel == 0 then Err(OutOfFuel)
    else
      var next :- Cdr(w.st, list);
      if next == Null then Ok(Done(head, w))
      else
        var c := Alloc(w, ConsV(Null, Null));
        var w1 :- SetCdr(c.w, curr, c.obj);
        var x :- Car(w1.st, next);
        var e :- ap(x, w1);
        var w2 :- SetCar(e.w, c.obj, e.obj);
        MapLoop(ap, next, head, c.obj, w2, fuel - 1)
  }

  /** tlisp_filter (src/builtins.c:985-1016): a fresh list of the elements
      for which the function yields the `true` singleton; nil when none
      does or the list is nil. */
  function Filter(g: Globals, args: Ptr, w: World, fuel: nat): (r: Res<Done>)
    requires Wf(w)
    ensures Good(w, r)
    decreases fuel
  {
    if fuel == 0 then Err(OutOfFuel)
    else
      var lf :- ListAndFn(g, args, w, fuel - 1);
      match lf
      case NilList(w1) => Ok(Done(g.nil, w1))
      case Walk(list, fn, w1) => FilterLoop(g, ApplyAt(g, fn, fuel - 1), list, Null, Null, w1, fuel - 1)
  }

  /** The loop of tlisp_filter: `res` is the head of the kept list so far
      (NULL while nothing is kept) and `curr` its last cell. */
  function FilterLoop(g: Globals, ap: Evaluator, list: Ptr, res: Ptr, curr: Ptr, w: World, fuel: nat): (r: Res<Done>)
    requires Wf(w) && Evaluates(ap)
    ensures Good(w, r)
    decreases fuel
  {
    if fuel == 0 then Err(OutOfFuel)
    else if list == Null then Ok(Done(if res == Null then g.nil else res, w))
    else
      var x :- Car(w.st, list);
      var k :- ap(x, w);
      if k.obj == g.t then
        var c := Alloc(k.w, ConsV(Null, Null));
        var w1 :- if res == Null then Ok(c.w) else SetCdr(c.w, curr, c.obj);
        var y :- Car(w1.st, list);
        var w2 :- SetCar(w1, c.obj, y);
        var next :- Cdr(w2.st, list);
        FilterLoop(g, ap, next, if res == Null then c.obj else res, c.obj, w2, fuel - 1)
      else
        var next :- Cdr(k.w.st, list);
        FilterLoop(g, ap, next, res, curr, k.w, fuel - 1)
  }

  /** tlisp_reduce (src/builtins.c:1018-1042): nil for a nil list; a
      one-element list yields its element unapplied; otherwise the function
      folds the elements from the left. */
  function Reduce(g: Globals, args: Ptr, w: World, fuel: nat): (r: Res<Done>)
    requires Wf(w)
    ensures Good(w, r)
    decreases fuel
  {
    if fuel == 0 then Err(OutOfFuel)
    else
      var lf :- ListAndFn(g, args, w, fuel - 1);
      match lf
      case NilList(w1) => Ok(Done(g.nil, w1))
      case Walk(list, fn, w1) => ReduceList(Apply2At(g, fn, fuel - 1), list, w1, fuel - 1)
  }

  /** The part of tlisp_reduce after the checks. */
  function ReduceList(cb: Combiner, list: Ptr, w: World, fuel: nat): (r: Res<Done>)
    requires Wf(w) && Combines(cb)
    ensures Good(w, r)
  {
    if fuel == 0 then Err(OutOfFuel)
    else
      var lc :- Cell(w.st, list);
      var first, second := lc.car, lc.cdr;
      if second == Null then Ok(Done(first, w))
      else
        var y :- Car(w.st, second);
        var e :- cb(first, y, w);
        var c1 :- Cdr(e.w.st, list);
        var rest :- Cdr(e.w.st, c1);
        ReduceLoop(cb, rest, e.obj, e.w, fuel - 1)
  }

  function ReduceLoop(cb: Combiner, list: Ptr, acc: Ptr, w: World, fuel: nat): (r: Res<Done>)
    requires Wf(w) && Combines(cb)
    ensures Good(w, r)
    decreases fuel
  {
    if fuel == 0 then Err(OutOfFuel)
    else if list == Null then Ok(Done(acc, w))
    else
      var x :- Car(w.st, list);
      var e :- cb(acc, x, w);
      var next :- Cdr(e.w.st, list);
      ReduceLoop(cb, next, e.obj, e.w, fuel - 1)
  }

  // ---------------------------------------------------------------------
  // Numbers and truth values

  /** DEF_ARITH_OP (src/builtins.c:1106-1131): nil without arguments;
      otherwise a fresh copy of the first NUM, updated in place with each
      further NUM in turn. */
  function Arith(g: Globals, ev: Evaluator, op: (int, int) -> Res<int>, args: Ptr, w: World, fuel: nat): (r: Res<Done>)
    requires Wf(w) && Evaluates(ev)
    ensures Good(w, r)
    decreases fuel
  {
    if fuel == 0 then Err(OutOfFuel)
    else if args == Null then Ok(Done(g.nil, w))
    else
      var x :- Car(w.st, args);
      var e :- ev(x, w);
      var v :- Expect(e.w.st, e.obj, NUM);
      var res := Alloc(e.w, NumV(v.num));
      ArithLoop(ev, op, args, res.obj, v.num, res.w, fuel - 1)
  }

  /** `eval` with the given fuel, as the reducers hand it to their loop. */
  function EvalAt(g: Globals, fuel: nat): (ev: Evaluator)
    ensures Evaluates(ev)
    decreases fuel
  {
    (x: Ptr, w: World) requires Wf(w) => if fuel == 0 then Err(OutOfFuel) else Eval(g, x, w, fuel - 1)
  }

  /** The `while ((args = args->cdr))` loop of the reducers: `acc` is the
      current `res->num`, and `ev` evaluates each further argument. */
  function ArithLoop(ev: Evaluator, op: (int, int) -> Res<int>, args: Ptr, res: Ptr, acc: int, w: World, fuel: nat): (r: Res<Done>)
    requires Wf(w) && Evaluates(ev)
    ensures Good(w, r)
    decreases fuel
  {
    if fuel == 0 then Err(OutOfFuel)
    else
      var next :- Cdr(w.st, args);
      if next == Null then Ok(Done(res, w))
      else
        var x :- Car(w.st, next);
        var e :- ev(x, w);
        var v :- Expect(e.w.st, e.obj, NUM);
        var acc2 :- op(acc, v.num);
        var w2 :- SetNum(e.w, res, acc2);
        ArithLoop(ev, op, next, res, acc2, w2, fuel - 1)
  }

  /** tlisp_sub (src/builtins.c:1133-1154): like the other reducers, except
      that a single argument is negated. */
  function Sub(g: Globals, ev: Evaluator, args: Ptr, w: World, fuel: nat): (r: Res<Done>)
    requires Wf(w) && Evaluates(ev)
    ensures Good(w, r)
    decreases fuel
  {
    if fuel == 0 then Err(OutOfFuel)
    else if args == Null then Ok(Done(g.nil, w))
    else
      var x :- Car(w.st, args);
      var e :- ev(x, w);
      var v :- Expect(e.w.st, e.obj, NUM);
      var res := Alloc(e.w, NumV(v.num));
      var rest :- Cdr(res.w.st, args);
      if rest == Null then
        var n :- CArith(Minus, 0, v.num);
        var w2 :- SetNum(res.w, res.obj, n);
        Ok(Done(res.obj, w2))
      else ArithLoop(ev, Op(Minus), args, res.obj, v.num, res.w, fuel - 1)
  }

  /** The two evaluated arguments of a comparison, `eq` or a boolean
      operator: exactly two, evaluated first to last. */
  function EvalTwo(g: Globals, args: Ptr, w: World, fuel: nat): (r: Res<Two>)
    requires Wf(w)
    ensures r.Ok? ==> Keeps(w, r.value.w)
    decreases fuel
  {
    if fuel == 0 then Err(OutOfFuel)
    else
      var ok :- ExpectNargs(w.st, args, 2);
      var x :- ArgAt(w.st, args, 0);
      var e1 :- Eval(g, x, w, fuel - 1);
      var y :- ArgAt(e1.w.st, args, 1);
      var e2 :- Eval(g, y, e1.w, fuel - 1);
      Ok(Two(e1.obj, e2.obj, e2.w))
  }

  /** DEF_CMP_OP (src/builtins.c:1156-1176). */
  function Compare(g: Globals, op: CmpOp, args: Ptr, w: World, fuel: nat): (r: Res<Done>)
    requires Wf(w)
    ensures Good(w, r)
    decreases fuel
  {
    if fuel == 0 then Err(OutOfFuel)
    else
      var p :- EvalTwo(g, args, w, fuel - 1);
      var a :- Expect(p.w.st, p.a, NUM);
      var b :- Expect(p.w.st, p.b, NUM);
      Ok(Done(if Holds(op, a.num, b.num) then g.t else g.f, p.w))
  }

  /** tlisp_equals (src/builtins.c:1178-1186): obj_equals as a truth value. */
  function Equals(g: Globals, args: Ptr, w: World, fuel: nat): (r: Res<Done>)
    requires Wf(w)
    ensures Good(w, r)
    decreases fuel
  {
    if fuel == 0 then Err(OutOfFuel)
    else
      var p :- EvalTwo(g, args, w, fuel - 1);
      match ObjEquals(p.w.st, p.a, p.b)
      case None => Err(Undefined)
      case Some(same) => Ok(Done(if same then g.t else g.f, p.w))
  }

  /** DEF_BOOL_OP (src/builtins.c:1188-1206): BOOL operands, each counting as
      true only when it is the `true` singleton. */
  function Logic(g: Globals, op: LogicOp, args: Ptr, w: World, fuel: nat): (r: Res<Done>)
    requires Wf(w)
    ensures Good(w, r)
    decreases fuel
  {
    if fuel == 0 then Err(OutOfFuel)
    else
      var p :- EvalTwo(g, args, w, fuel - 1);
      var a :- Expect(p.w.st, p.a, BOOL);
      var b :- Expect(p.w.st, p.b, BOOL);
      var x, y := p.a == g.t, p.b == g.t;
      Ok(Done(if (match op case And => x && y case Or => x || y) then g.t else g.f, p.w))
  }

  /** tlisp_not (src/builtins.c:1208-1216). */
  function Not(g: Globals, args: Ptr, w: World, fuel: nat): (r: Res<Done>)
    requires Wf(w)
    ensures Good(w, r)
    decreases fuel
  {
    if fuel == 0 then Err(OutOfFuel)
    else
      var ok :- ExpectNargs(w.st, args, 1);
      var a :- Car(w.st, args);
      var e :- Eval(g, a, w, fuel - 1);
      var v :- Expect(e.w.st, e.obj, BOOL);
      Ok(Done(if e.obj == g.t then g.f else g.t, e.w))
  }
}
