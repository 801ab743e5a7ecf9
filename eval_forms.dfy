/** Properties of the special forms and of call dispatch in src/builtins.c,
    for forms whose arguments are literals or symbols, so that what eval
    does with each argument is known. */
module FormFacts {
  import opened Base
  import opened Core
  import opened Builtins
  import opened EvalFacts
  import Env
  import Lists

  // ---------------------------------------------------------------------
  // Lists of literals as argument lists

  /** A walk along a list of `n` literals that ends visits `n` cells. */
  lemma {:induction false} LiteralsCells(st: Store, p: Ptr, n: nat, k: nat)
    requires k <= |st| && Literals(st, p, n) && Lists.CellsFrom(st, p, k).Ok?
    ensures |Lists.CellsFrom(st, p, k).value| == n
    decreases n
  {
    if n > 0 {
      LiteralsCells(st, st[p.index].val.cdr, n - 1, k + 1);
    }
  }

  /** arg_at below the length of a list of literals yields a literal. */
  lemma {:induction false} ArgAtLiterals(st: Store, p: Ptr, n: nat, i: nat)
    requires Literals(st, p, n) && i < n
    ensures ArgAt(st, p, i).Ok? && Literal(st, ArgAt(st, p, i).value)
    decreases i
  {
    if i > 0 {
      ArgAtLiterals(st, st[p.index].val.cdr, n - 1, i - 1);
    }
  }

  /** Appending an object to the store leaves a list of literals as it was. */
  lemma {:induction false} LiteralsAlloc(st: Store, p: Ptr, n: nat, acc: seq<Ptr>, o: Obj)
    requires Literals(st, p, n)
    ensures Literals(st + [o], p, n)
    ensures Collect(acc, st + [o], p, n) == Collect(acc, st, p, n)
    ensures |Collect(acc, st, p, n)| == |acc| + n
    decreases n
  {
    if n > 0 {
      var c := st[p.index].val;
      assert (st + [o])[p.index] == st[p.index];
      LiteralsAlloc(st, c.cdr, n - 1, acc + [c.car], o);
    }
  }

  // ---------------------------------------------------------------------
  // apply

  /** A call whose head evaluates to anything but a function, a lambda, a
      macro, a struct definition or a struct is "apply cannot be called"
      with the head's tag name. */
  lemma {:induction false} ApplyLiteralHead(g: Globals, form: Ptr, w: World, fuel: nat)
    requires Wf(w) && fuel > 2 && Lists.IsCell(w.st, form) && Literal(w.st, w.st[form.index].val.car)
    ensures var head := w.st[form.index].val.car;
      Apply(g, form, w, fuel) ==
        Err(TypeNamed("ERROR: apply cannot be called on object of type ", w.st[head.index].val))
  {
    EvalLiteral(g, w.st[form.index].val.car, w, fuel - 1);
  }

  /** A lambda binds each parameter in the fresh scope it pushes, to the
      argument evaluated there. */
  lemma {:induction false} LambdaBindsInNewScope(g: Globals, params: Ptr, args: Ptr, w: World, fuel: nat)
    requires Wf(w) && fuel > 2
    requires Lists.IsCell(w.st, params) && w.st[params.index].val.cdr == Null
    requires Deref(w.st, w.st[params.index].val.car).Some? && Deref(w.st, w.st[params.index].val.car).value.SymV?
    requires Lists.IsCell(w.st, args) && w.st[args.index].val.cdr == Null
    requires Literal(w.st, w.st[args.index].val.car)
    ensures var inner := Push(w, Env.Init());
      var sym := Deref(w.st, w.st[params.index].val.car).value.sym;
      BindArgs(g, params, args, inner, fuel) == Define(inner, sym, w.st[args.index].val.car)
  {
    var inner := Push(w, Env.Init());
    EvalLiteral(g, w.st[args.index].val.car, inner, fuel - 1);
  }

  /** A macro binds each parameter, in the caller's own innermost scope, to
      the argument as it is written. */
  lemma {:induction false} MacroBindsInCallerScope(params: Ptr, args: Ptr, w: World, fuel: nat)
    requires Wf(w) && fuel > 1
    requires Lists.IsCell(w.st, params) && w.st[params.index].val.cdr == Null
    requires Deref(w.st, w.st[params.index].val.car).Some? && Deref(w.st, w.st[params.index].val.car).value.SymV?
    requires Lists.IsCell(w.st, args) && w.st[args.index].val.cdr == Null
    ensures var sym := Deref(w.st, w.st[params.index].val.car).value.sym;
      BindQuoted(params, args, w, fuel) == Define(w, sym, w.st[args.index].val.car)
  {
  }

  /** Constructing a struct from more arguments than it has fields is
      fatal. */
  lemma {:induction false} CreateStructTooMany(g: Globals, sdef: Ptr, names: seq<string>, args: Ptr, n: nat, w: World, fuel: nat)
    requires Wf(w) && fuel > 1 && Literals(w.st, args, n) && Lists.Cells(w.st, args).Ok? && n > |names|
    ensures CreateStruct(g, sdef, names, args, w, fuel) == Err(Fatal(TOO_MANY_FIELDS))
  {
    LiteralsCells(w.st, args, n, 0);
  }

  /** create_struct once its arguments are evaluated: the new object gets
      the values and then nils as its fields. */
  lemma {:induction false} CreateStructFill(g: Globals, sdef: Ptr, names: seq<string>, args: Ptr, n: nat, w: World, fuel: nat, fs: Evaluated)
    requires Wf(w) && fuel > 0 && Nargs(w.st, args) == Ok(n) && n <= |names|
    requires EvalArgs(g, args, [], Alloc(w, StructV(sdef, [])).w, fuel - 1) == Ok(fs)
    requires |fs.objs| == n && |w.st| < |fs.w.st|
    ensures var r := CreateStruct(g, sdef, names, args, w, fuel);
      r.Ok? && r.value.obj == Ref(|w.st|) &&
      r.value.w == Put(fs.w, |w.st|, StructV(sdef, fs.objs + seq(|names| - n, _ => g.nil)))
  {
  }

  /** Constructing a struct from literal arguments, no more than it has
      fields: a new STRUCT whose field i is argument i and whose remaining
      fields are nil, appended to the store, which is the only change. */
  lemma {:induction false} CreateStructLiterals(g: Globals, sdef: Ptr, names: seq<string>, args: Ptr, n: nat, w: World, fuel: nat)
    requires Wf(w) && fuel > n + 1 && Literals(w.st, args, n) && Lists.Cells(w.st, args).Ok? && n <= |names|
    ensures var r := CreateStruct(g, sdef, names, args, w, fuel);
      r.Ok? && r.value.obj == Ref(|w.st|) && r.value.w.chain == w.chain &&
      r.value.w.st == w.st + [Obj(StructV(sdef, Collect([], w.st, args, n) + seq(|names| - n, _ => g.nil)), 0)]
  {
    LiteralsCells(w.st, args, n, 0);
    var s := Alloc(w, StructV(sdef, []));
    LiteralsAlloc(w.st, args, n, [], Obj(StructV(sdef, []), 0));
    EvalArgsLiterals(g, args, n, [], s.w, fuel - 1);
    var objs := Collect([], w.st, args, n);
    CreateStructFill(g, sdef, names, args, n, w, fuel, Evaluated(objs, s.w));
    PutAlloc(w, StructV(sdef, []), StructV(sdef, objs + seq(|names| - n, _ => g.nil)));
  }

  // ---------------------------------------------------------------------
  // if

  /** `if` over literal arguments: anything but 2 or 3 arguments is an
      invalid if; otherwise the second argument when the first is the
      `true` singleton, else the third, or nil when there is none. */
  lemma {:induction false} IfLiterals(g: Globals, args: Ptr, n: nat, w: World, fuel: nat)
    requires Wf(w) && fuel > 2 && Literals(w.st, args, n) && Lists.Cells(w.st, args).Ok?
    ensures n != 2 && n != 3 ==> If(g, args, w, fuel) == Err(Fatal(INVALID_IF))
    ensures n == 2 || n == 3 ==>
      && ArgAt(w.st, args, 0).Ok? && ArgAt(w.st, args, 1).Ok? && (n == 3 ==> ArgAt(w.st, args, 2).Ok?)
      && If(g, args, w, fuel) ==
           Ok(Done(if ArgAt(w.st, args, 0).value == g.t then ArgAt(w.st, args, 1).value
                   else if n == 3 then ArgAt(w.st, args, 2).value
                   else g.nil, w))
  {
    LiteralsCells(w.st, args, n, 0);
    if n == 2 || n == 3 {
      ArgAtLiterals(w.st, args, n, 0);
      ArgAtLiterals(w.st, args, n, 1);
      EvalLiteral(g, ArgAt(w.st, args, 0).value, w, fuel - 1);
      EvalLiteral(g, ArgAt(w.st, args, 1).value, w, fuel - 1);
      if n == 3 {
        ArgAtLiterals(w.st, args, n, 2);
        EvalLiteral(g, ArgAt(w.st, args, 2).value, w, fuel - 1);
      }
    }
  }

  // ---------------------------------------------------------------------
  // def and set!

  /** A list of exactly one argument. */
  predicate Single(st: Store, args: Ptr)
  {
    Lists.IsCell(st, args) && st[args.index].val.cdr == Null
  }

  /** A list of exactly two arguments. */
  predicate Pair(st: Store, args: Ptr)
  {
    && Lists.IsCell(st, args)
    && Lists.IsCell(st, st[args.index].val.cdr)
    && st[st[args.index].val.cdr.index].val.cdr == Null
  }

  function First(st: Store, args: Ptr): Ptr
    requires Lists.IsCell(st, args)
  {
    st[args.index].val.car
  }

  function Second(st: Store, args: Ptr): Ptr
    requires Pair(st, args)
  {
    st[st[args.index].val.cdr.index].val.car
  }

  /** A one-argument list counts one argument, its car. */
  lemma {:induction false} SingleArgs(st: Store, args: Ptr)
    requires Single(st, args)
    ensures Nargs(st, args) == Ok(1) && ArgAt(st, args, 0) == Ok(First(st, args))
  {
    assert Lists.CellsFrom(st, args, 0).Ok? && |Lists.CellsFrom(st, args, 0).value| == 1;
  }

  /** A two-argument list counts two arguments, its car and its cadr. */
  lemma {:induction false} PairArgs(st: Store, args: Ptr)
    requires Pair(st, args)
    ensures Nargs(st, args) == Ok(2)
    ensures ArgAt(st, args, 0) == Ok(First(st, args)) && ArgAt(st, args, 1) == Ok(Second(st, args))
  {
    var rest := st[args.index].val.cdr;
    assert rest != args && |st| >= 2;
    assert Lists.CellsFrom(st, st[rest.index].val.cdr, 2).Ok? && Lists.CellsFrom(st, st[rest.index].val.cdr, 2).value == [];
    assert Lists.CellsFrom(st, rest, 1).Ok? && |Lists.CellsFrom(st, rest, 1).value| == 1;
    assert Lists.CellsFrom(st, args, 0).Ok? && |Lists.CellsFrom(st, args, 0).value| == 2;
  }

  /** The symbol this argument is, if it is a SYMBOL. */
  predicate IsSym(st: Store, p: Ptr)
  {
    Deref(st, p).Some? && Deref(st, p).value.SymV?
  }

  /** The two-argument list `(sym v)` with a SYMBOL and a literal. */
  predicate SymAndLiteral(st: Store, args: Ptr)
  {
    Pair(st, args) && IsSym(st, First(st, args)) && Literal(st, Second(st, args))
  }

  function SymOf(st: Store, args: Ptr): string
    requires SymAndLiteral(st, args)
  {
    Deref(st, First(st, args)).value.sym
  }

  function ValOf(st: Store, args: Ptr): Ptr
    requires SymAndLiteral(st, args)
  {
    Second(st, args)
  }

  /** `def` adds the value to the innermost scope and returns it; the
      duplicate-definition exit of env_add is its only failure. */
  lemma {:induction false} DefLiteral(g: Globals, args: Ptr, w: World, fuel: nat)
    requires Wf(w) && fuel > 1 && SymAndLiteral(w.st, args)
    ensures var s, v := SymOf(w.st, args), ValOf(w.st, args);
      Def(g, args, w, fuel).Ok? <==> AddTo(w.chain[0], s, v).Ok?
    ensures var s, v := SymOf(w.st, args), ValOf(w.st, args);
      Def(g, args, w, fuel).Ok? ==>
        Def(g, args, w, fuel).value.obj == v && Def(g, args, w, fuel).value.w.st == w.st &&
        Def(g, args, w, fuel).value.w.chain == [AddTo(w.chain[0], s, v).value] + w.chain[1..]
    ensures var s, v := SymOf(w.st, args), ValOf(w.st, args);
      Env.Add(w.chain[0], s, v) == Ends(Env.Duplicate) ==> Def(g, args, w, fuel) == Err(DuplicateSymbol(s))
  {
    var s, v := SymOf(w.st, args), ValOf(w.st, args);
    PairArgs(w.st, args);
    EvalLiteral(g, v, w, fuel - 1);
  }

  /** Without a growth of the innermost scope pending, the symbol `def`
      binds then finds the value. */
  lemma {:induction false} DefThenFind(g: Globals, args: Ptr, w: World, fuel: nat)
    requires Wf(w) && fuel > 1 && SymAndLiteral(w.st, args)
    requires Env.Inv(w.chain[0]) && w.chain[0].len < (w.chain[0].cap * 3) / 4
    ensures Def(g, args, w, fuel).Ok? ==>
      Env.Find(Def(g, args, w, fuel).value.w.chain, SymOf(w.st, args)) == Ends(Some(ValOf(w.st, args)))
  {
    var s, v := SymOf(w.st, args), ValOf(w.st, args);
    DefLiteral(g, args, w, fuel);
    if Def(g, args, w, fuel).Ok? {
      Env.AddThenFind(w.chain[0], s, v);
      Env.FindHead(AddTo(w.chain[0], s, v).value, w.chain[1..], s);
    }
  }

  /** `set!` replaces, through env_update, the object of the binding the
      symbol finds and returns the value; no binding is "No previous
      value". */
  lemma {:induction false} SetBangLiteral(g: Globals, args: Ptr, w: World, fuel: nat)
    requires Wf(w) && fuel > 1 && SymAndLiteral(w.st, args)
    ensures var s, v := SymOf(w.st, args), ValOf(w.st, args);
      Env.Update(w.chain, s, v) == Ends(None) ==>
        SetBang(g, args, w, fuel) == Err(Fatal(Bounded("ERROR: No previous value for symbol " + s + ".\n", 128)))
    ensures var s, v := SymOf(w.st, args), ValOf(w.st, args);
      SetBang(g, args, w, fuel).Ok? <==> Env.Update(w.chain, s, v).Ends? && Env.Update(w.chain, s, v).value.Some?
    ensures var s, v := SymOf(w.st, args), ValOf(w.st, args);
      SetBang(g, args, w, fuel).Ok? ==>
        SetBang(g, args, w, fuel).value.obj == v && SetBang(g, args, w, fuel).value.w.st == w.st &&
        SetBang(g, args, w, fuel).value.w.chain == Env.Update(w.chain, s, v).value.value
  {
    PairArgs(w.st, args);
    EvalLiteral(g, ValOf(w.st, args), w, fuel - 1);
  }

  /** "No previous value" exactly when no scope binds the symbol (under the
      table invariant); afterwards the symbol finds the new value. */
  lemma {:induction false} SetBangThenFind(g: Globals, args: Ptr, w: World, fuel: nat)
    requires Wf(w) && fuel > 1 && SymAndLiteral(w.st, args)
    ensures Env.Find(w.chain, SymOf(w.st, args)) == Ends(None) ==>
      SetBang(g, args, w, fuel) ==
        Err(Fatal(Bounded("ERROR: No previous value for symbol " + SymOf(w.st, args) + ".\n", 128)))
    ensures SetBang(g, args, w, fuel).Ok? ==>
      Env.Find(SetBang(g, args, w, fuel).value.w.chain, SymOf(w.st, args)) == Ends(Some(ValOf(w.st, args)))
    ensures Env.ChainInv(w.chain) && Env.Find(w.chain, SymOf(w.st, args)).value.Some? ==>
      SetBang(g, args, w, fuel).Ok?
  {
    var s, v := SymOf(w.st, args), ValOf(w.st, args);
    SetBangLiteral(g, args, w, fuel);
    Env.UpdateThenFind(w.chain, s, v);
    if Env.ChainInv(w.chain) {
      Env.UpdateEnds(w.chain, s, v);
    }
  }
}
