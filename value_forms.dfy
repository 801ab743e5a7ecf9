/** Properties of the comparison, equality and boolean builtins, `do`,
    `len`, `type-of`, `lambda` and `macro` of src/builtins.c, for arguments
    whose values are known without evaluating anything else. */
module ValueForms {
  import opened Base
  import opened Core
  import opened Builtins
  import opened EvalFacts
  import opened FormFacts
  import opened ListForms
  import Dict
  import Lists

  // ---------------------------------------------------------------------
  // Two evaluated arguments

  /** Two known arguments evaluate, first to last, to their values. */
  lemma {:induction false} EvalTwoKnown(g: Globals, args: Ptr, a: Ptr, b: Ptr, w: World, fuel: nat)
    requires Wf(w) && fuel > 1 && Pair(w.st, args)
    requires Known(w, First(w.st, args), a) && Known(w, Second(w.st, args), b)
    ensures EvalTwo(g, args, w, fuel) == Ok(Two(a, b, w))
  {
    PairArgs(w.st, args);
    EvalKnown(g, First(w.st, args), a, w, fuel - 1);
    EvalKnown(g, Second(w.st, args), b, w, fuel - 1);
  }

  /** Any argument count but two is the assert_nargs error, whatever the
      operator. */
  lemma {:induction false} EvalTwoNargs(g: Globals, args: Ptr, n: nat, w: World, fuel: nat)
    requires Wf(w) && fuel > 0 && Nargs(w.st, args) == Ok(n) && n != 2
    ensures EvalTwo(g, args, w, fuel) == Err(WrongNargs(n, 2))
  {
  }

  predicate IsNum(st: Store, p: Ptr)
  {
    Deref(st, p).Some? && Deref(st, p).value.NumV?
  }

  predicate IsBool(st: Store, p: Ptr)
  {
    Deref(st, p).Some? && Deref(st, p).value.BoolV?
  }

  lemma NumTag(v: Val)
    ensures TagOf(v) == NUM <==> v.NumV?
  {
  }

  lemma BoolTag(v: Val)
    ensures TagOf(v) == BOOL <==> v.BoolV?
  {
  }

  /** A comparison of two known values: the `true` singleton when the C
      comparison of the two numbers holds, `false` otherwise; a value that
      is not a NUM, the first checked first, is a type error. Nothing
      changes. */
  lemma {:induction false} CompareKnown(g: Globals, op: CmpOp, args: Ptr, a: Ptr, b: Ptr, w: World, fuel: nat)
    requires Wf(w) && fuel > 2 && Pair(w.st, args)
    requires Known(w, First(w.st, args), a) && Known(w, Second(w.st, args), b)
    ensures Compare(g, op, args, w, fuel) ==
      if !IsNum(w.st, a) then Err(WrongType(w.st, a, NUM))
      else if !IsNum(w.st, b) then Err(WrongType(w.st, b, NUM))
      else Ok(Done(if Holds(op, Deref(w.st, a).value.num, Deref(w.st, b).value.num) then g.t else g.f, w))
  {
    EvalTwoKnown(g, args, a, b, w, fuel - 1);
    CompareFill(g, op, args, a, b, w, fuel);
  }

  lemma {:induction false} CompareFill(g: Globals, op: CmpOp, args: Ptr, a: Ptr, b: Ptr, w: World, fuel: nat)
    requires Wf(w) && fuel > 0 && EvalTwo(g, args, w, fuel - 1) == Ok(Two(a, b, w))
    requires Deref(w.st, a).Some? && Deref(w.st, b).Some?
    ensures Compare(g, op, args, w, fuel) ==
      if !IsNum(w.st, a) then Err(WrongType(w.st, a, NUM))
      else if !IsNum(w.st, b) then Err(WrongType(w.st, b, NUM))
      else Ok(Done(if Holds(op, Deref(w.st, a).value.num, Deref(w.st, b).value.num) then g.t else g.f, w))
  {
    NumTag(Deref(w.st, a).value);
    NumTag(Deref(w.st, b).value);
  }

  /** `eq` of two known values: obj_equals as the `true` or `false`
      singleton; undefined where obj_equals is (two struct definitions or
      two structs). */
  lemma {:induction false} EqualsKnown(g: Globals, args: Ptr, a: Ptr, b: Ptr, w: World, fuel: nat)
    requires Wf(w) && fuel > 2 && Pair(w.st, args)
    requires Known(w, First(w.st, args), a) && Known(w, Second(w.st, args), b)
    ensures Equals(g, args, w, fuel).Ok? <==> ObjEquals(w.st, a, b).Some?
    ensures ObjEquals(w.st, a, b).Some? ==>
      Equals(g, args, w, fuel) == Ok(Done(if ObjEquals(w.st, a, b).value then g.t else g.f, w))
    ensures ObjEquals(w.st, a, b).None? ==> Equals(g, args, w, fuel) == Err(Undefined)
  {
    EvalTwoKnown(g, args, a, b, w, fuel - 1);
  }

  /** `and` and `or` of two known values: both must be BOOLs, and each
      counts as true only when it is the `true` singleton. */
  lemma {:induction false} LogicKnown(g: Globals, op: LogicOp, args: Ptr, a: Ptr, b: Ptr, w: World, fuel: nat)
    requires Wf(w) && fuel > 2 && Pair(w.st, args)
    requires Known(w, First(w.st, args), a) && Known(w, Second(w.st, args), b)
    ensures Logic(g, op, args, w, fuel) ==
      if !IsBool(w.st, a) then Err(WrongType(w.st, a, BOOL))
      else if !IsBool(w.st, b) then Err(WrongType(w.st, b, BOOL))
      else if op == And then Ok(Done(if a == g.t && b == g.t then g.t else g.f, w))
      else Ok(Done(if a == g.t || b == g.t then g.t else g.f, w))
  {
    EvalTwoKnown(g, args, a, b, w, fuel - 1);
    LogicFill(g, op, args, a, b, w, fuel);
  }

  lemma {:induction false} LogicFill(g: Globals, op: LogicOp, args: Ptr, a: Ptr, b: Ptr, w: World, fuel: nat)
    requires Wf(w) && fuel > 0 && EvalTwo(g, args, w, fuel - 1) == Ok(Two(a, b, w))
    requires Deref(w.st, a).Some? && Deref(w.st, b).Some?
    ensures Logic(g, op, args, w, fuel) ==
      if !IsBool(w.st, a) then Err(WrongType(w.st, a, BOOL))
      else if !IsBool(w.st, b) then Err(WrongType(w.st, b, BOOL))
      else if op == And then Ok(Done(if a == g.t && b == g.t then g.t else g.f, w))
      else Ok(Done(if a == g.t || b == g.t then g.t else g.f, w))
  {
    BoolTag(Deref(w.st, a).value);
    BoolTag(Deref(w.st, b).value);
  }

  /** `not` of a known BOOL: `false` for the `true` singleton and `true` for
      any other BOOL; anything else is a type error. */
  lemma {:induction false} NotKnown(g: Globals, args: Ptr, v: Ptr, w: World, fuel: nat)
    requires Wf(w) && fuel > 1 && Single(w.st, args) && Known(w, First(w.st, args), v)
    ensures !IsBool(w.st, v) ==> Not(g, args, w, fuel) == Err(WrongType(w.st, v, BOOL))
    ensures IsBool(w.st, v) ==> Not(g, args, w, fuel) == Ok(Done(if v == g.t then g.f else g.t, w))
  {
    SingleArgs(w.st, args);
    assert ExpectNargs(w.st, args, 1) == Ok(()) && Car(w.st, args) == Ok(First(w.st, args));
    NotEval(g, args, v, w, fuel);
    ExpectBool(w.st, v);
  }

  /** assert_type of BOOL passes exactly on BOOLs. */
  lemma ExpectBool(st: Store, v: Ptr)
    ensures IsBool(st, v) ==> Expect(st, v, BOOL).Ok?
    ensures !IsBool(st, v) && Deref(st, v).Some? ==> Expect(st, v, BOOL) == Err(WrongType(st, v, BOOL))
  {
  }

  /** tlisp_not once its argument has been evaluated to `v`. */
  lemma {:induction false} NotEval(g: Globals, args: Ptr, v: Ptr, w: World, fuel: nat)
    requires Wf(w) && fuel > 1 && Single(w.st, args) && Known(w, First(w.st, args), v)
    requires ExpectNargs(w.st, args, 1) == Ok(()) && Car(w.st, args) == Ok(First(w.st, args))
    ensures Not(g, args, w, fuel) ==
      match Expect(w.st, v, BOOL)
      case Ok(_) => Ok(Done(if v == g.t then g.f else g.t, w))
      case Err(e) => Err(e)
  {
    EvalKnown(g, First(w.st, args), v, w, fuel - 1);
  }

  // ---------------------------------------------------------------------
  // do

  /** The last of a non-empty list of literals is a literal. */
  lemma {:induction false} LastLiteral(last: Ptr, st: Store, p: Ptr, n: nat)
    requires Literals(st, p, n) && n > 0
    ensures Literal(st, Last(last, st, p, n))
    decreases n
  {
    if n > 1 {
      LastLiteral(st[p.index].val.car, st, st[p.index].val.cdr, n - 1);
    }
  }

  /** `do` over literal forms yields the last one, and nil when there are
      none; nothing changes. */
  lemma {:induction false} DoLiterals(g: Globals, args: Ptr, n: nat, w: World, fuel: nat)
    requires Wf(w) && Literals(w.st, args, n) && fuel > n + 1
    ensures Do(g, args, w, fuel) == Ok(Done(if n == 0 then g.nil else Last(Null, w.st, args, n), w))
  {
    EvalBodyLiterals(g, args, n, Null, w, fuel - 1);
    if n > 0 {
      LastLiteral(Null, w.st, args, n);
    }
  }

  // ---------------------------------------------------------------------
  // len and type-of

  /** `len` of a known value once it is evaluated: a new NUM holding the
      count, or the count's error. */
  lemma {:induction false} LenFill(g: Globals, args: Ptr, v: Ptr, w: World, fuel: nat)
    requires Wf(w) && fuel > 1 && Single(w.st, args) && Known(w, First(w.st, args), v)
    ensures Len(g, args, w, fuel) ==
      if Count(w.st, v).Ok? then Ok(Alloc(w, NumV(Count(w.st, v).value))) else Err(Count(w.st, v).fault)
  {
    SingleArgs(w.st, args);
    EvalKnown(g, First(w.st, args), v, w, fuel - 1);
  }

  /** `len` of a known value: a new NUM holding 0 for nil, the number of
      elements of a list (or the walk's error on a malformed one), the
      dict's counter or the vector's length; any other type is "Wrong arg
      type to len". */
  lemma {:induction false} LenKnown(g: Globals, args: Ptr, v: Ptr, w: World, fuel: nat)
    requires Wf(w) && fuel > 1 && Single(w.st, args) && Known(w, First(w.st, args), v)
    ensures var x := Deref(w.st, v).value;
      x.NilV? ==> Len(g, args, w, fuel) == Ok(Alloc(w, NumV(0)))
    ensures var x := Deref(w.st, v).value;
      x.ConsV? && Lists.Cells(w.st, v).Ok? ==>
        Len(g, args, w, fuel) == Ok(Alloc(w, NumV(|Lists.Elements(w.st, v).value|)))
    ensures var x := Deref(w.st, v).value;
      x.ConsV? && Lists.Cells(w.st, v).Err? ==> Len(g, args, w, fuel) == Err(Lists.Cells(w.st, v).fault)
    ensures var x := Deref(w.st, v).value;
      x.DictV? ==> Len(g, args, w, fuel) == Ok(Alloc(w, NumV(Dict.Len(x.dict))))
    ensures var x := Deref(w.st, v).value;
      x.VecV? ==> Len(g, args, w, fuel) == Ok(Alloc(w, NumV(|x.elems|)))
    ensures var x := Deref(w.st, v).value;
      !(x.NilV? || x.ConsV? || x.DictV? || x.VecV?) && TagStr(TagOf(x)).Some? ==>
        Len(g, args, w, fuel) == Err(Fatal(Bounded("ERROR: Wrong arg type to len: " + TagStr(TagOf(x)).value + ".\n", 128)))
  {
    LenFill(g, args, v, w, fuel);
  }

  /** `type-of` of a known value: a new STRING holding its tag's name, or,
      for a struct instance, its definition's name. */
  lemma {:induction false} TypeOfKnown(g: Globals, args: Ptr, v: Ptr, w: World, fuel: nat)
    requires Wf(w) && fuel > 1 && Single(w.st, args) && Known(w, First(w.st, args), v)
    ensures var x := Deref(w.st, v).value;
      !x.StructV? && TagStr(TagOf(x)).Some? ==>
        TypeOf(g, args, w, fuel) == Ok(Alloc(w, StrV(TagStr(TagOf(x)).value)))
    ensures var x := Deref(w.st, v).value;
      x.StructV? && Deref(w.st, x.sdef).Some? && Deref(w.st, x.sdef).value.StructDefV? ==>
        TypeOf(g, args, w, fuel) == Ok(Alloc(w, StrV(Deref(w.st, x.sdef).value.name)))
  {
    SingleArgs(w.st, args);
    EvalKnown(g, First(w.st, args), v, w, fuel - 1);
  }

  // ---------------------------------------------------------------------
  // lambda and macro

  /** A parameter check that passes passes again once an object is appended
      to the store. */
  lemma {:induction false} ParamsGrow(st: Store, p: Ptr, steps: nat, o: Obj)
    requires steps <= |st| && ParamsFrom(st, p, steps).Ok?
    ensures ParamsFrom(st + [o], p, steps).Ok?
    decreases |st| - steps
  {
    if p != Null {
      var c := st[p.index].val;
      assert (st + [o])[p.index] == st[p.index];
      assert Deref(st + [o], c.car) == Deref(st, c.car);
      ParamsGrow(st, c.cdr, steps + 1, o);
    }
  }

  /** `lambda` with no argument or no body form is an error. */
  lemma LambdaNoBody(args: Ptr, w: World)
    requires Wf(w)
    requires args == Null || (Lists.IsCell(w.st, args) && w.st[args.index].val.cdr == Null)
    ensures Lambda(args, w) == Err(Fatal(LAMBDA_NO_ARGS))
  {
    if args != Null {
      assert Cell(Alloc(w, LambdaV(Null, Null)).w.st, args) == Ok(w.st[args.index].val);
    }
  }

  /** `lambda` whose parameter list is not a CONS is a type error. */
  lemma LambdaBadParams(args: Ptr, w: World)
    requires Wf(w) && Lists.IsCell(w.st, args) && w.st[args.index].val.cdr != Null
    requires Deref(w.st, w.st[args.index].val.car).Some? && !Lists.IsCell(w.st, w.st[args.index].val.car)
    ensures Lambda(args, w) ==
      Err(WrongType(Alloc(w, LambdaV(Null, Null)).w.st, w.st[args.index].val.car, CONS))
  {
    var st2 := Alloc(w, LambdaV(Null, Null)).w.st;
    var params := w.st[args.index].val.car;
    assert Cell(st2, args) == Ok(w.st[args.index].val);
    assert Deref(st2, params) == Deref(w.st, params);
    ConsTag(Deref(w.st, params).value);
  }

  /** `lambda` with a CONS of SYMBOLs and at least one body form: a new
      LAMBDA at the end of the store holding the parameter list and the
      body forms; nothing else changes. */
  lemma LambdaMakes(args: Ptr, w: World)
    requires Wf(w) && Lists.IsCell(w.st, args) && w.st[args.index].val.cdr != Null
    requires Lists.IsCell(w.st, w.st[args.index].val.car) && ParamsFrom(w.st, w.st[args.index].val.car, 0).Ok?
    ensures var c := w.st[args.index].val;
      Lambda(args, w) == Ok(Done(Ref(|w.st|), World(w.st + [Obj(LambdaV(c.car, c.cdr), 0)], w.chain)))
  {
    var c := w.st[args.index].val;
    var res := Alloc(w, LambdaV(Null, Null));
    assert Cell(res.w.st, args) == Ok(c);
    assert Deref(res.w.st, c.car) == Deref(w.st, c.car);
    ConsTag(Deref(w.st, c.car).value);
    PutAlloc(w, LambdaV(Null, Null), LambdaV(c.car, c.cdr));
    ParamsGrow(w.st, c.car, 0, Obj(LambdaV(c.car, c.cdr), 0));
  }

  /** `macro` with exactly two arguments, the first a CONS of SYMBOLs: a new
      MACRO at the end of the store holding the parameter list and the rest
      of the argument list; nothing else changes. */
  lemma MacroMakes(args: Ptr, w: World)
    requires Wf(w) && Pair(w.st, args)
    requires Lists.IsCell(w.st, First(w.st, args)) && ParamsFrom(w.st, First(w.st, args), 0).Ok?
    ensures var c := w.st[args.index].val;
      Macro(args, w) == Ok(Done(Ref(|w.st|), World(w.st + [Obj(MacroV(c.car, c.cdr), 0)], w.chain)))
  {
    var c := w.st[args.index].val;
    var res := Alloc(w, MacroV(Null, Null));
    assert Pair(res.w.st, args);
    PairArgs(res.w.st, args);
    assert Cell(res.w.st, args) == Ok(c);
    assert Deref(res.w.st, c.car) == Deref(w.st, c.car);
    ConsTag(Deref(w.st, c.car).value);
    PutAlloc(w, MacroV(Null, Null), MacroV(c.car, c.cdr));
    ParamsGrow(w.st, c.car, 0, Obj(MacroV(c.car, c.cdr), 0));
  }

  /** `macro` with any other number of arguments is the assert_nargs error. */
  lemma MacroNargs(args: Ptr, n: nat, w: World)
    requires Wf(w) && Nargs(w.st, args) == Ok(n) && n != 2
    ensures Macro(args, w) == Err(WrongNargs(n, 2))
  {
    Lists.CellsGrow(w.st, args, 0, Obj(MacroV(Null, Null), 0));
  }
}
