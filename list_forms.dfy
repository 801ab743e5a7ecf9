/** Properties of the list builtins, `let`, lambda and macro calls and the
    struct accessor of src/builtins.c, for arguments whose values are known
    without evaluating anything else: literals and bound symbols. */
module ListForms {
  import opened Base
  import opened Core
  import opened Builtins
  import opened EvalFacts
  import opened FormFacts
  import Env
  import Lists

  // ---------------------------------------------------------------------
  // Arguments with a known value

  /** `x` evaluates to the live object `v` and changes nothing: a literal
      that is `v` itself, or a SYMBOL whose innermost binding is `v`. */
  predicate Known(w: World, x: Ptr, v: Ptr)
  {
    || (Literal(w.st, x) && v == x)
    || (Wf(w) && IsSym(w.st, x) && Deref(w.st, v).Some? && Env.Find(w.chain, Deref(w.st, x).value.sym) == Ends(Some(v)))
  }

  lemma {:induction false} EvalKnown(g: Globals, x: Ptr, v: Ptr, w: World, fuel: nat)
    requires Wf(w) && fuel > 0 && Known(w, x, v)
    ensures Eval(g, x, w, fuel) == Ok(Done(v, w))
  {
    if Literal(w.st, x) && v == x {
      EvalLiteral(g, x, w, fuel);
    } else {
      EvalSymbol(g, x, w, fuel);
      assert v != Null && Env.Find(w.chain, Deref(w.st, x).value.sym) == Ends(Some(v));
    }
  }

  /** A known argument stays known when objects are appended to the store or
      objects past the old end are written. */
  lemma KnownGrow(w: World, w2: World, x: Ptr, v: Ptr)
    requires Known(w, x, v) && w2.chain == w.chain && |w.st| <= |w2.st|
    requires forall i | 0 <= i < |w.st| :: w2.st[i] == w.st[i]
    ensures Known(w2, x, v)
    ensures Deref(w2.st, v) == Deref(w.st, v)
  {
  }

  // ---------------------------------------------------------------------
  // cons, car, cdr

  /** cons once both arguments are evaluated, the second to nil: the cell
      allocated first, filled in place with the first value and NULL. */
  lemma {:induction false} ConsFillNil(g: Globals, args: Ptr, a: Ptr, b: Ptr, w: World, fuel: nat)
    requires Wf(w) && fuel > 1 && Pair(w.st, args) && Deref(w.st, b).Some?
    requires var w0 := Alloc(w, ConsV(Null, Null)).w;
      Eval(g, First(w.st, args), w0, fuel - 1) == Ok(Done(a, w0))
    requires var w1 := Alloc(w, ConsV(a, Null)).w;
      Eval(g, Second(w.st, args), w1, fuel - 1) == Ok(Done(b, w1))
    requires b == g.nil
    ensures Cons(g, args, w, fuel) == Ok(Alloc(w, ConsV(a, Null)))
  {
    PairArgs(w.st, args);
    var n, w0, w1 := |w.st|, Alloc(w, ConsV(Null, Null)).w, Alloc(w, ConsV(a, Null)).w;
    var rest := w.st[args.index].val.cdr;
    assert Car(w0.st, args) == Ok(First(w.st, args));
    PutAlloc(w, ConsV(Null, Null), ConsV(a, Null));
    assert Cdr(w1.st, args) == Ok(rest) && Car(w1.st, rest) == Ok(Second(w.st, args));
    PutFacts(w1, n, ConsV(a, Null), ConsV(a, Null));
  }

  /** cons once both arguments are evaluated, the second to anything but
      nil: the cell filled with both values, when the second is a list. */
  lemma {:induction false} ConsFillOnto(g: Globals, args: Ptr, a: Ptr, b: Ptr, w: World, fuel: nat)
    requires Wf(w) && fuel > 1 && Pair(w.st, args) && Deref(w.st, b).Some?
    requires var w0 := Alloc(w, ConsV(Null, Null)).w;
      Eval(g, First(w.st, args), w0, fuel - 1) == Ok(Done(a, w0))
    requires var w1 := Alloc(w, ConsV(a, Null)).w;
      Eval(g, Second(w.st, args), w1, fuel - 1) == Ok(Done(b, w1))
    requires b != g.nil
    ensures Cons(g, args, w, fuel) ==
      if Lists.IsCell(w.st, b) then Ok(Alloc(w, ConsV(a, b))) else Err(WrongType(Alloc(w, ConsV(a, b)).w.st, b, CONS))
  {
    PairArgs(w.st, args);
    var n, w0, w1 := |w.st|, Alloc(w, ConsV(Null, Null)).w, Alloc(w, ConsV(a, Null)).w;
    var rest := w.st[args.index].val.cdr;
    assert Car(w0.st, args) == Ok(First(w.st, args));
    PutAlloc(w, ConsV(Null, Null), ConsV(a, Null));
    assert Cdr(w1.st, args) == Ok(rest) && Car(w1.st, rest) == Ok(Second(w.st, args));
    var w2 := Alloc(w, ConsV(a, b)).w;
    PutAlloc(w, ConsV(a, Null), ConsV(a, b));
    assert SetCdr(w1, Ref(n), b) == Ok(w2);
    assert Deref(w2.st, b) == Deref(w.st, b);
    ConsTag(w.st[b.index].val);
  }

  /** cons of a known value onto nil or a list: a fresh cell holding the value
      and, as its cdr, NULL for nil and the list otherwise, appended to the
      store; onto anything else, a type error after the cell is built. */
  lemma {:induction false} ConsKnown(g: Globals, args: Ptr, a: Ptr, b: Ptr, w: World, fuel: nat)
    requires Wf(w) && fuel > 1 && Pair(w.st, args)
    requires Known(w, First(w.st, args), a) && Known(w, Second(w.st, args), b)
    ensures Cons(g, args, w, fuel) ==
      if b != g.nil && !Lists.IsCell(w.st, b) then Err(WrongType(w.st + [Obj(ConsV(a, b), 0)], b, CONS))
      else Ok(Done(Ref(|w.st|), World(w.st + [Obj(ConsV(a, if b == g.nil then Null else b), 0)], w.chain)))
  {
    var w0 := Alloc(w, ConsV(Null, Null)).w;
    var w1 := Alloc(w, ConsV(a, Null)).w;
    KnownGrow(w, w0, First(w.st, args), a);
    EvalKnown(g, First(w.st, args), a, w0, fuel - 1);
    KnownGrow(w, w1, Second(w.st, args), b);
    EvalKnown(g, Second(w.st, args), b, w1, fuel - 1);
    if b == g.nil {
      ConsFillNil(g, args, a, b, w, fuel);
    } else {
      ConsFillOnto(g, args, a, b, w, fuel);
    }
  }

  /** car of a known value: nil for nil, the car of a list, a type error for
      anything else. */
  lemma {:induction false} CarKnown(g: Globals, args: Ptr, v: Ptr, w: World, fuel: nat)
    requires Wf(w) && fuel > 1 && Single(w.st, args) && Known(w, First(w.st, args), v)
    ensures Builtins.CarFn(g, args, w, fuel) ==
      if v == g.nil then Ok(Done(g.nil, w))
      else if Lists.IsCell(w.st, v) then Ok(Done(w.st[v.index].val.car, w))
      else Err(WrongType(w.st, v, CONS))
  {
    SingleArgs(w.st, args);
    EvalKnown(g, First(w.st, args), v, w, fuel - 1);
    ConsTag(w.st[v.index].val);
  }

  /** cdr of a known value: the cdr of a list, nil when that is NULL; a type
      error for anything else, nil included. */
  lemma {:induction false} CdrKnown(g: Globals, args: Ptr, v: Ptr, w: World, fuel: nat)
    requires Wf(w) && fuel > 1 && Single(w.st, args) && Known(w, First(w.st, args), v)
    ensures Builtins.CdrFn(g, args, w, fuel) ==
      if !Lists.IsCell(w.st, v) then Err(WrongType(w.st, v, CONS))
      else if w.st[v.index].val.cdr == Null then Ok(Done(g.nil, w))
      else Ok(Done(w.st[v.index].val.cdr, w))
  {
    SingleArgs(w.st, args);
    EvalKnown(g, First(w.st, args), v, w, fuel - 1);
    ConsTag(w.st[v.index].val);
  }

  // ---------------------------------------------------------------------
  // append

  /** The walk to the last cell of a list ends at the last of its cells. */
  lemma {:induction false} LastOfCells(st: Store, p: Ptr, steps: nat)
    requires steps <= |st| && Lists.CellsFrom(st, p, steps).Ok? && p != Null
    ensures var cs := Lists.CellsFrom(st, p, steps).value;
      LastCell(st, p, steps) == Ok(Ref(cs[|cs| - 1]))
    decreases |st| - steps
  {
    var next := st[p.index].val.cdr;
    if next != Null {
      LastOfCells(st, next, steps + 1);
      var cs, rest := Lists.CellsFrom(st, p, steps).value, Lists.CellsFrom(st, next, steps + 1).value;
      assert cs == [p.index] + rest && cs[|cs| - 1] == rest[|rest| - 1];
    }
  }

  /** append once both arguments are evaluated: the cell allocated first
      holds the first value; onto nil it is the result, onto anything else
      it is linked after the last cell of the second value. */
  lemma {:induction false} AppendFill(g: Globals, args: Ptr, a: Ptr, b: Ptr, w: World, fuel: nat)
    requires Wf(w) && fuel > 1 && Pair(w.st, args)
    requires var w0 := Alloc(w, ConsV(Null, Null)).w;
      Eval(g, First(w.st, args), w0, fuel - 1) == Ok(Done(a, w0))
    requires var w1 := Alloc(w, ConsV(a, Null)).w;
      Eval(g, Second(w.st, args), w1, fuel - 1) == Ok(Done(b, w1))
    ensures var w1 := Alloc(w, ConsV(a, Null)).w;
      Append(g, args, w, fuel) ==
        if b == g.nil then Ok(Done(Ref(|w.st|), w1))
        else if LastCell(w1.st, b, 0).Err? then Err(LastCell(w1.st, b, 0).fault)
        else
          var last := LastCell(w1.st, b, 0).value.index;
          Ok(Done(b, Put(w1, last, ConsV(w1.st[last].val.car, Ref(|w.st|)))))
  {
    PairArgs(w.st, args);
    var w0, w1 := Alloc(w, ConsV(Null, Null)).w, Alloc(w, ConsV(a, Null)).w;
    var rest := w.st[args.index].val.cdr;
    assert Car(w0.st, args) == Ok(First(w.st, args));
    PutAlloc(w, ConsV(Null, Null), ConsV(a, Null));
    assert Cdr(w1.st, args) == Ok(rest) && Car(w1.st, rest) == Ok(Second(w.st, args));
  }

  /** append of a known value onto nil or a list
      (src/builtins.c:568-586): onto nil, a fresh one-element list; onto a
      list, the list itself, changed in place: its last cell now links to a
      fresh cell holding the value, so its cells and elements are the old
      ones followed by the new. No other object of the store changes. */
  lemma {:induction false} AppendKnown(g: Globals, args: Ptr, a: Ptr, l: Ptr, w: World, fuel: nat)
    requires Wf(w) && fuel > 1 && Pair(w.st, args)
    requires Known(w, First(w.st, args), a) && Known(w, Second(w.st, args), l)
    requires l == g.nil || (l != Null && Lists.Cells(w.st, l).Ok?)
    ensures Append(g, args, w, fuel).Ok?
    ensures var d, cs, xs := Append(g, args, w, fuel).value,
                             if l == g.nil then [] else Lists.Cells(w.st, l).value,
                             if l == g.nil then [] else Lists.Elements(w.st, l).value;
      && d.obj == (if l == g.nil then Ref(|w.st|) else l)
      && d.w.chain == w.chain && |d.w.st| == |w.st| + 1 && d.w.st[|w.st|].val == ConsV(a, Null)
      && Lists.Cells(d.w.st, d.obj) == Ok(cs + [|w.st|])
      && Lists.Elements(d.w.st, d.obj) == Ok(xs + [a])
      && (forall i | 0 <= i < |w.st| && i !in cs :: d.w.st[i] == w.st[i])
  {
    var w0 := Alloc(w, ConsV(Null, Null)).w;
    var w1 := Alloc(w, ConsV(a, Null)).w;
    KnownGrow(w, w0, First(w.st, args), a);
    EvalKnown(g, First(w.st, args), a, w0, fuel - 1);
    KnownGrow(w, w1, Second(w.st, args), l);
    EvalKnown(g, Second(w.st, args), l, w1, fuel - 1);
    AppendFill(g, args, a, l, w, fuel);
    if l == g.nil {
      FreshSingleton(w, a);
    } else {
      LinkAfterLast(w, a, l);
    }
  }

  /** A fresh cell holding `a` and NULL is a one-element list. */
  lemma FreshSingleton(w: World, a: Ptr)
    ensures var st := Alloc(w, ConsV(a, Null)).w.st;
      Lists.Cells(st, Ref(|w.st|)) == Ok([] + [|w.st|]) && Lists.Elements(st, Ref(|w.st|)) == Ok([] + [a])
  {
    var n, st := |w.st|, Alloc(w, ConsV(a, Null)).w.st;
    assert Lists.CellsFrom(st, Null, 1) == Ok([]) && [n] + [] == [n];
    assert Lists.Elements(st, Ref(n)).value == [a];
    assert [] + [n] == [n] && [] + [a] == [a];
  }

  /** A fresh cell holding `a`, linked after the last cell of a list `l`:
      `l` then has one cell and one element more, and only its last cell
      changed. */
  lemma {:induction false} LinkAfterLast(w: World, a: Ptr, l: Ptr)
    requires l != Null && Lists.Cells(w.st, l).Ok?
    ensures var w1, cs := Alloc(w, ConsV(a, Null)).w, Lists.Cells(w.st, l).value;
      && LastCell(w1.st, l, 0) == Ok(Ref(cs[|cs| - 1]))
      && var w2 := Put(w1, cs[|cs| - 1], ConsV(w1.st[cs[|cs| - 1]].val.car, Ref(|w.st|)));
         && Lists.Cells(w2.st, l) == Ok(cs + [|w.st|])
         && Lists.Elements(w2.st, l) == Ok(Lists.Elements(w.st, l).value + [a])
         && (forall i | 0 <= i < |w.st| && i !in cs :: w2.st[i] == w.st[i])
  {
    var n, w1, cs := |w.st|, Alloc(w, ConsV(a, Null)).w, Lists.Cells(w.st, l).value;
    Lists.CellsGrow(w.st, l, 0, Obj(ConsV(a, Null), 0));
    LastOfCells(w1.st, l, 0);
    var last := cs[|cs| - 1];
    var w2 := Put(w1, last, ConsV(w1.st[last].val.car, Ref(n)));
    assert Lists.CellsFrom(w2.st, Ref(n), |cs|) == Ok([n]) by {
      assert Lists.CellsFrom(w2.st, Null, |cs| + 1) == Ok([]) && [n] + [] == [n];
    }
    Lists.CellsRelink(w1.st, w2.st, l, 0, cs, Ref(n));
    var es, xs := Lists.Elements(w2.st, l).value, Lists.Elements(w.st, l).value;
    forall i | 0 <= i < |es|
      ensures es[i] == (xs + [a])[i]
    {
      if i < |cs| {
        assert (cs + [n])[i] == cs[i] && w1.st[cs[i]] == w.st[cs[i]];
      }
    }
    assert es == xs + [a];
  }

  /** append onto a known value that is neither nil nor a cons cell walks
      off its end: undefined. */
  lemma {:induction false} AppendOntoOther(g: Globals, args: Ptr, a: Ptr, l: Ptr, w: World, fuel: nat)
    requires Wf(w) && fuel > 1 && Pair(w.st, args)
    requires Known(w, First(w.st, args), a) && Known(w, Second(w.st, args), l)
    requires l != g.nil && !Lists.IsCell(w.st, l)
    ensures Append(g, args, w, fuel) == Err(Undefined)
  {
    var w0, w1 := Alloc(w, ConsV(Null, Null)).w, Alloc(w, ConsV(a, Null)).w;
    KnownGrow(w, w0, First(w.st, args), a);
    EvalKnown(g, First(w.st, args), a, w0, fuel - 1);
    KnownGrow(w, w1, Second(w.st, args), l);
    EvalKnown(g, Second(w.st, args), l, w1, fuel - 1);
    AppendFill(g, args, a, l, w, fuel);
    assert w1.st[l.index] == w.st[l.index];
  }

  // ---------------------------------------------------------------------
  // for-each, map, filter, reduce

  predicate IsFn(st: Store, f: Ptr)
    requires Deref(st, f).Some?
  {
    st[f.index].val.NFuncV? || st[f.index].val.LambdaV?
  }

  /** The argument check the list walkers share: nil is an empty walk; a
      list must come with a function; anything else is a type error. */
  lemma {:induction false} ListAndFnKnown(g: Globals, args: Ptr, l: Ptr, f: Ptr, w: World, fuel: nat)
    requires Wf(w) && fuel > 1 && Pair(w.st, args)
    requires Known(w, First(w.st, args), l) && Known(w, Second(w.st, args), f)
    ensures ListAndFn(g, args, w, fuel) ==
      if l == g.nil then Ok(NilList(w))
      else if !Lists.IsCell(w.st, l) then Err(WrongType(w.st, l, CONS))
      else if !IsFn(w.st, f) then Err(NotAFunction(w.st, f))
      else Ok(Walk(l, f, w))
  {
    PairArgs(w.st, args);
    EvalKnown(g, First(w.st, args), l, w, fuel - 1);
    EvalKnown(g, Second(w.st, args), f, w, fuel - 1);
    ConsTag(w.st[l.index].val);
  }

  /** When the list argument evaluates to nil, for-each yields NULL and map,
      filter and reduce yield nil, in the world that evaluation left, without
      evaluating the function argument. */
  lemma {:induction false} WalkNil(g: Globals, args: Ptr, w: World, w1: World, fuel: nat)
    requires Wf(w) && fuel > 2 && Pair(w.st, args)
    requires Eval(g, First(w.st, args), w, fuel - 2) == Ok(Done(g.nil, w1))
    ensures ForEach(g, args, w, fuel) == Ok(Done(Null, w1))
    ensures Map(g, args, w, fuel) == Ok(Done(g.nil, w1))
    ensures Filter(g, args, w, fuel) == Ok(Done(g.nil, w1))
    ensures Reduce(g, args, w, fuel) == Ok(Done(g.nil, w1))
  {
    PairArgs(w.st, args);
  }

  /** The walkers fail alike when the list is neither nil nor a list, or the
      function is not one. */
  lemma {:induction false} WalkErrors(g: Globals, args: Ptr, l: Ptr, f: Ptr, w: World, fuel: nat)
    requires Wf(w) && fuel > 2 && Pair(w.st, args)
    requires Known(w, First(w.st, args), l) && Known(w, Second(w.st, args), f)
    requires l != g.nil && (!Lists.IsCell(w.st, l) || !IsFn(w.st, f))
    ensures var e := if !Lists.IsCell(w.st, l) then WrongType(w.st, l, CONS) else NotAFunction(w.st, f);
      && ForEach(g, args, w, fuel) == Err(e) && Map(g, args, w, fuel) == Err(e)
      && Filter(g, args, w, fuel) == Err(e) && Reduce(g, args, w, fuel) == Err(e)
  {
    ListAndFnKnown(g, args, l, f, w, fuel - 1);
  }

  /** reduce over a one-element list yields that element without calling the
      function. */
  lemma {:induction false} ReduceSingle(g: Globals, args: Ptr, l: Ptr, f: Ptr, w: World, fuel: nat)
    requires Wf(w) && fuel > 2 && Pair(w.st, args)
    requires Known(w, First(w.st, args), l) && Known(w, Second(w.st, args), f)
    requires l != g.nil && Single(w.st, l) && IsFn(w.st, f)
    ensures Reduce(g, args, w, fuel) == Ok(Done(w.st[l.index].val.car, w))
  {
    ListAndFnKnown(g, args, l, f, w, fuel - 1);
    assert ReduceList(Apply2At(g, f, fuel - 1), l, w, fuel - 1) == Ok(Done(w.st[l.index].val.car, w));
  }

  // ---------------------------------------------------------------------
  // let

  /** A binding without an expression is fatal. */
  lemma {:induction false} LetUnpaired(g: Globals, bindings: Ptr, t: Env.Symtab<Ptr>, w: World, fuel: nat)
    requires Wf(w) && Env.Wf(t) && fuel > 0 && Single(w.st, bindings) && IsSym(w.st, First(w.st, bindings))
    ensures var s := Deref(w.st, First(w.st, bindings)).value.sym;
      LetBind(g, bindings, t, w, fuel) == Err(Fatal(Bounded("ERROR: No matching binding for " + s + ".\n", 256)))
  {
  }

  /** A binding `(s x)` adds `s`, bound to the value `x` has in the caller's
      scopes, to the let's own table, which is not yet visible; it fails
      only where env_add does. */
  lemma {:induction false} LetBindKnown(g: Globals, bindings: Ptr, t: Env.Symtab<Ptr>, v: Ptr, w: World, fuel: nat)
    requires Wf(w) && Env.Wf(t) && fuel > 2 && Pair(w.st, bindings)
    requires IsSym(w.st, First(w.st, bindings)) && Known(w, Second(w.st, bindings), v)
    ensures var s := Deref(w.st, First(w.st, bindings)).value.sym;
      LetBind(g, bindings, t, w, fuel).Ok? <==> AddTo(t, s, v).Ok?
    ensures var s := Deref(w.st, First(w.st, bindings)).value.sym;
      LetBind(g, bindings, t, w, fuel).Ok? ==>
        LetBind(g, bindings, t, w, fuel).value == Scoped(AddTo(t, s, v).value, w)
  {
    EvalKnown(g, Second(w.st, bindings), v, w, fuel - 1);
  }

  // ---------------------------------------------------------------------
  // Calling lambdas and macros

  /** A call whose head evaluates, without side effects, to a native
      function, a lambda or a macro passes the unevaluated argument list to
      that callee in the caller's world. */
  lemma {:induction false} ApplyCallable(g: Globals, form: Ptr, v: Ptr, w: World, fuel: nat)
    requires Wf(w) && fuel > 1 && Lists.IsCell(w.st, form) && Known(w, First(w.st, form), v)
    ensures var x, args := w.st[v.index].val, w.st[form.index].val.cdr;
      && (x.NFuncV? ==> Apply(g, form, w, fuel) == Native(g, x.fn, args, w, fuel - 1))
      && (x.LambdaV? ==> Apply(g, form, w, fuel) == CallLambda(g, x.car, x.cdr, args, w, fuel - 1))
      && (x.MacroV? ==> Apply(g, form, w, fuel) == CallMacro(g, x.car, x.cdr, args, w, fuel - 1))
  {
    EvalKnown(g, First(w.st, form), v, w, fuel - 1);
  }

  /** A call whose head evaluates to a struct definition constructs a struct
      of it from the unevaluated arguments; one whose head evaluates to a
      struct reads the field the argument names, changing nothing. */
  lemma {:induction false} ApplyStructHead(g: Globals, form: Ptr, v: Ptr, w: World, fuel: nat)
    requires Wf(w) && fuel > 1 && Lists.IsCell(w.st, form) && Known(w, First(w.st, form), v)
    ensures var x, args := w.st[v.index].val, w.st[form.index].val.cdr;
      && (x.StructDefV? ==> Apply(g, form, w, fuel) == CreateStruct(g, v, x.fieldNames, args, w, fuel - 1))
      && (x.StructV? ==>
            var p := StructField(w.st, v, x.sdef, x.fields, args);
            Apply(g, form, w, fuel) == if p.Ok? then Ok(Done(p.value, w)) else Err(p.fault))
  {
    EvalKnown(g, First(w.st, form), v, w, fuel - 1);
  }

  /** A lambda call with more arguments than parameters, or fewer, is
      fatal. */
  lemma {:induction false} LambdaArity(g: Globals, params: Ptr, body: Ptr, args: Ptr, w: World, fuel: nat)
    requires Wf(w) && fuel > 1
    ensures params == Null && args != Null ==> CallLambda(g, params, body, args, w, fuel) == Err(Fatal(TOO_MANY_ARGS))
    ensures params != Null && args == Null ==> CallLambda(g, params, body, args, w, fuel) == Err(Fatal(TOO_FEW_ARGS))
  {
  }

  /** The parameter list `(x)` of one SYMBOL and the argument list `(a)` of
      one literal. */
  predicate OneParam(st: Store, params: Ptr, args: Ptr)
  {
    Single(st, params) && IsSym(st, First(st, params)) && Single(st, args) && Literal(st, First(st, args))
  }

  /** The name of the one parameter. */
  function ParamName(st: Store, params: Ptr): string
    requires Single(st, params) && IsSym(st, First(st, params))
  {
    Deref(st, First(st, params)).value.sym
  }

  /** A body of one form, a SYMBOL named like the one parameter: `x`. */
  predicate ParamBody(st: Store, params: Ptr, body: Ptr)
    requires Single(st, params) && IsSym(st, First(st, params))
  {
    Single(st, body) && IsSym(st, First(st, body)) && Deref(st, First(st, body)).value.sym == ParamName(st, params)
  }

  /** Binding `(x)` to `(a)` in the scope a lambda call pushes: the new
      scope binds `x` to `a` in front of the caller's chain, and the store
      is unchanged. */
  lemma {:induction false} ParamBound(params: Ptr, args: Ptr, w: World)
    requires Wf(w) && OneParam(w.st, params, args)
    ensures var d := Define(Push(w, Env.Init()), ParamName(w.st, params), First(w.st, args));
      && d.Ok? && d.value.st == w.st && d.value.chain[1..] == w.chain
      && Env.Find(d.value.chain, ParamName(w.st, params)) == Ends(Some(First(w.st, args)))
  {
    var sym, a := ParamName(w.st, params), First(w.st, args);
    Env.AddToInit(sym, a);
    var d := Define(Push(w, Env.Init()), sym, a);
    Env.FindHead(d.value.chain[0], w.chain, sym);
    assert d.value.chain == [d.value.chain[0]] + w.chain;
  }

  /** The same binding, without the lookup: the call's scope is the only
      new one and the store is unchanged. */
  lemma {:induction false} LambdaScopeShape(g: Globals, params: Ptr, args: Ptr, w: World, fuel: nat)
    requires Wf(w) && fuel > 2 && OneParam(w.st, params, args)
    ensures var inner := BindArgs(g, params, args, Push(w, Env.Init()), fuel);
      && inner.Ok? && inner.value.st == w.st && inner.value.chain[1..] == w.chain
      && inner == Define(Push(w, Env.Init()), ParamName(w.st, params), First(w.st, args))
  {
    LambdaBindsInNewScope(g, params, args, w, fuel);
    Env.AddToInit(ParamName(w.st, params), First(w.st, args));
  }

  /** A lambda of one parameter, called with one literal argument, whose
      body is `n` literal forms yields the last of them and leaves the
      caller's world as it was: the scope it pushed is gone. */
  lemma {:induction false} LambdaLiteralBody(g: Globals, params: Ptr, body: Ptr, args: Ptr, n: nat, w: World, fuel: nat)
    requires Wf(w) && n > 0 && OneParam(w.st, params, args) && Literals(w.st, body, n) && fuel > n + 3
    ensures CallLambda(g, params, body, args, w, fuel) == Ok(Done(Last(Null, w.st, body, n), w))
  {
    var inner := Define(Push(w, Env.Init()), ParamName(w.st, params), First(w.st, args));
    Env.AddToInit(ParamName(w.st, params), First(w.st, args));
    EvalBodyLiterals(g, body, n, Null, inner.value, fuel - 1);
    LambdaYields(g, params, body, args, w, fuel, Last(Null, w.st, body, n));
  }

  /** A one-parameter lambda call on a body that is there: the body's
      outcome in the scope binding the parameter, with that scope popped
      again afterwards. */
  lemma {:induction false} LambdaCall(g: Globals, params: Ptr, body: Ptr, args: Ptr, w: World, fuel: nat)
    requires Wf(w) && fuel > 3 && OneParam(w.st, params, args) && body != Null
    ensures var d := Define(Push(w, Env.Init()), ParamName(w.st, params), First(w.st, args));
      && d.Ok? && d.value.st == w.st && d.value.chain[1..] == w.chain
      && var e := EvalBody(g, body, Null, d.value, fuel - 1);
         CallLambda(g, params, body, args, w, fuel) == if e.Ok? then Ok(Done(e.value.obj, Pop(e.value.w))) else Err(e.fault)
  {
    LambdaScopeShape(g, params, args, w, fuel - 1);
  }

  /** A body that yields `v` and leaves the call's scope as it found it:
      the call yields `v` and leaves the caller's world as it was. */
  lemma {:induction false} LambdaYields(g: Globals, params: Ptr, body: Ptr, args: Ptr, w: World, fuel: nat, v: Ptr)
    requires Wf(w) && fuel > 3 && OneParam(w.st, params, args) && body != Null
    requires var d := Define(Push(w, Env.Init()), ParamName(w.st, params), First(w.st, args));
      d.Ok? && EvalBody(g, body, Null, d.value, fuel - 1) == Ok(Done(v, d.value))
    ensures CallLambda(g, params, body, args, w, fuel) == Ok(Done(v, w))
  {
    LambdaCall(g, params, body, args, w, fuel);
    var d := Define(Push(w, Env.Init()), ParamName(w.st, params), First(w.st, args)).value;
    assert Pop(d) == w;
  }

  /** `((lambda (x) x) a)`: the body sees the parameter bound to the
      argument's value, the call yields it, and the caller's world is as it
      was. */
  lemma {:induction false} LambdaReturnsArgument(g: Globals, params: Ptr, body: Ptr, args: Ptr, w: World, fuel: nat)
    requires Wf(w) && fuel > 3 && OneParam(w.st, params, args) && ParamBody(w.st, params, body)
    ensures CallLambda(g, params, body, args, w, fuel) == Ok(Done(First(w.st, args), w))
  {
    ParamBound(params, args, w);
    var d := Define(Push(w, Env.Init()), ParamName(w.st, params), First(w.st, args)).value;
    var a := First(w.st, args);
    assert Known(d, First(w.st, body), a);
    EvalKnown(g, First(w.st, body), a, d, fuel - 2);
    assert EvalBody(g, body, Null, d, fuel - 1) == Ok(Done(a, d));
    LambdaYields(g, params, body, args, w, fuel, a);
  }

  /** Binding `(x)` to `(a)` in the caller's innermost scope, when it has
      room without growing: "Duplicate symbol" when that scope already
      binds `x`, and otherwise `x` is bound to `a` there, with the store
      unchanged. */
  lemma {:induction false} MacroParamBound(params: Ptr, args: Ptr, w: World)
    requires Wf(w) && OneParam(w.st, params, args)
    requires Env.Inv(w.chain[0]) && w.chain[0].len < (w.chain[0].cap * 3) / 4
    ensures var t, sym, a := w.chain[0], ParamName(w.st, params), First(w.st, args);
      Env.ProbeFrom(t.entries, sym, Env.Hash(sym) % t.cap, 0).Hit? ==> Define(w, sym, a) == Err(DuplicateSymbol(sym))
    ensures var t, sym, a := w.chain[0], ParamName(w.st, params), First(w.st, args);
      !Env.ProbeFrom(t.entries, sym, Env.Hash(sym) % t.cap, 0).Hit? ==>
        && Define(w, sym, a).Ok? && Define(w, sym, a).value.st == w.st
        && Env.Find(Define(w, sym, a).value.chain, sym) == Ends(Some(a))
  {
    var t, sym, a := w.chain[0], ParamName(w.st, params), First(w.st, args);
    Env.AddThenFind(t, sym, a);
    if !Env.ProbeFrom(t.entries, sym, Env.Hash(sym) % t.cap, 0).Hit? {
      var d := Define(w, sym, a).value;
      Env.FindHead(d.chain[0], d.chain[1..], sym);
      assert d.chain == [d.chain[0]] + d.chain[1..];
    }
  }

  /** `((macro (x) x) a)`: the macro binds `x` to `a` as written in the
      caller's own innermost scope, where a symbol already bound there is a
      "Duplicate symbol" exit; then it overwrites its body form `x`, in the
      body's own cell, with the value `a`, and yields `a`. The binding stays
      behind in the caller's scope. The caller's scope is assumed to have
      room for the binding without growing. */
  lemma {:induction false} MacroRewritesBody(g: Globals, params: Ptr, body: Ptr, args: Ptr, w: World, fuel: nat)
    requires Wf(w) && fuel > 3 && OneParam(w.st, params, args) && ParamBody(w.st, params, body)
    requires Env.Inv(w.chain[0]) && w.chain[0].len < (w.chain[0].cap * 3) / 4
    ensures var t, sym := w.chain[0], ParamName(w.st, params);
      Env.ProbeFrom(t.entries, sym, Env.Hash(sym) % t.cap, 0).Hit? ==>
        CallMacro(g, params, body, args, w, fuel) == Err(DuplicateSymbol(sym))
    ensures var t, sym, a := w.chain[0], ParamName(w.st, params), First(w.st, args);
      !Env.ProbeFrom(t.entries, sym, Env.Hash(sym) % t.cap, 0).Hit? ==>
        var d := Define(w, sym, a);
        && d.Ok? && Env.Find(d.value.chain, sym) == Ends(Some(a))
        && CallMacro(g, params, body, args, w, fuel) == Ok(Done(a, Put(d.value, body.index, ConsV(a, Null))))
  {
    var t, sym, a := w.chain[0], ParamName(w.st, params), First(w.st, args);
    MacroBindsInCallerScope(params, args, w, fuel - 1);
    MacroParamBound(params, args, w);
    if !Env.ProbeFrom(t.entries, sym, Env.Hash(sym) % t.cap, 0).Hit? {
      MacroBound(g, params, body, args, w, fuel, Define(w, sym, a).value);
    }
  }

  /** The rest of `((macro (x) x) a)` once `x` is bound to `a` in `d`. */
  lemma {:induction false} MacroBound(g: Globals, params: Ptr, body: Ptr, args: Ptr, w: World, fuel: nat, d: World)
    requires Wf(w) && fuel > 3 && OneParam(w.st, params, args) && ParamBody(w.st, params, body)
    requires BindQuoted(params, args, w, fuel - 1) == Ok(d) && d.st == w.st
    requires Env.Find(d.chain, ParamName(w.st, params)) == Ends(Some(First(w.st, args)))
    ensures CallMacro(g, params, body, args, w, fuel) == Ok(Done(First(w.st, args), Put(d, body.index, ConsV(First(w.st, args), Null))))
  {
    var a := First(w.st, args);
    assert Known(d, First(w.st, body), a);
    EvalKnown(g, First(w.st, body), a, d, fuel - 1);
    MacroCall(g, params, body, args, w, fuel, d, a);
    var w1 := Put(d, body.index, ConsV(a, Null));
    assert a.index != body.index;
    assert Literal(w1.st, a);
    EvalBodyStep(g, body, Null, w1, fuel - 1);
  }

  /** A macro call whose binding loop succeeds and whose first body form
      evaluates to `v` without other effect: the body, evaluated after its
      first cell has been given `v` as its car. */
  lemma {:induction false} MacroCall(g: Globals, params: Ptr, body: Ptr, args: Ptr, w: World, fuel: nat, d: World, v: Ptr)
    requires Wf(w) && fuel > 1 && Lists.IsCell(w.st, body)
    requires BindQuoted(params, args, w, fuel - 1) == Ok(d)
    requires Eval(g, First(d.st, body), d, fuel - 1) == Ok(Done(v, d))
    ensures CallMacro(g, params, body, args, w, fuel) ==
      EvalBody(g, body, Null, Put(d, body.index, ConsV(v, d.st[body.index].val.cdr)), fuel - 1)
  {
  }

  // ---------------------------------------------------------------------
  // Struct field access

  /** obj_nstr writes nothing for a struct, so the text the "No field"
      message would quote is whatever the uninitialised buffer held. */
  lemma StructTextUndefined(st: Store, s: Ptr)
    requires Deref(st, s).Some? && Deref(st, s).value.StructV?
    ensures ObjText(st, s) == Err(Undefined)
  {
    var a := seq(128, _ => Render.NUL);
    var b := seq(128, _ => 'x');
    assert Render.Rendered(st, s, a, 0, 128) == Ok(a);
    assert Render.Rendered(st, s, b, 0, 128) == Ok(b);
    assert Render.CStr(a) == [];
    assert Render.CStr(b) != [] by {
      assert b[0] != Render.NUL;
    }
  }

  /** `(s field)` on a struct `s`: the field's object when the definition
      has the field and it holds an object; otherwise the "No field" message
      would quote the struct's text, which obj_nstr never writes. */
  lemma StructFieldAccess(st: Store, s: Ptr, sdef: Ptr, fields: seq<Ptr>, args: Ptr)
    requires Single(st, args) && IsSym(st, First(st, args))
    requires Deref(st, s).Some? && Deref(st, s).value.StructV?
    requires Deref(st, sdef).Some? && Deref(st, sdef).value.StructDefV?
    requires |Deref(st, sdef).value.fieldNames| <= |fields|
    ensures var f, names := Deref(st, First(st, args)).value.sym, Deref(st, sdef).value.fieldNames;
      var i := Structs.FieldIndex(names, f);
      (i.None? || fields[i.value] == Null) ==> StructField(st, s, sdef, fields, args) == Err(Undefined)
    ensures var f, names := Deref(st, First(st, args)).value.sym, Deref(st, sdef).value.fieldNames;
      var i := Structs.FieldIndex(names, f);
      i.Some? && fields[i.value] != Null ==> StructField(st, s, sdef, fields, args) == Ok(fields[i.value])
  {
    SingleArgs(st, args);
    StructTextUndefined(st, s);
  }

  /** A struct accessor takes exactly one argument, a SYMBOL. */
  lemma {:induction false} StructFieldErrors(st: Store, s: Ptr, sdef: Ptr, fields: seq<Ptr>, args: Ptr)
    ensures Nargs(st, args).Ok? && Nargs(st, args).value != 1 ==>
      StructField(st, s, sdef, fields, args) == Err(WrongNargs(Nargs(st, args).value, 1))
    ensures Single(st, args) && Deref(st, First(st, args)).Some? && !IsSym(st, First(st, args)) ==>
      StructField(st, s, sdef, fields, args) == Err(WrongType(st, First(st, args), SYMBOL))
  {
    if Single(st, args) && Deref(st, First(st, args)).Some? && !IsSym(st, First(st, args)) {
      StructFieldNotSym(st, s, sdef, fields, args);
    }
  }

  lemma {:induction false} StructFieldNotSym(st: Store, s: Ptr, sdef: Ptr, fields: seq<Ptr>, args: Ptr)
    requires Single(st, args) && Deref(st, First(st, args)).Some? && !IsSym(st, First(st, args))
    ensures StructField(st, s, sdef, fields, args) == Err(WrongType(st, First(st, args), SYMBOL))
  {
    SingleArgs(st, args);
    var field := First(st, args);
    assert ExpectNargs(st, args, 1) == Ok(()) && Car(st, args) == Ok(field);
    assert Expect(st, field, SYMBOL) == Err(WrongType(st, field, SYMBOL));
  }
}
