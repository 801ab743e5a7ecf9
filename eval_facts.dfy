/** Properties of the evaluator of src/builtins.c, stated over the
    functions of module Builtins.

    Most lemmas here are about forms whose arguments are literals: objects
    that eval returns as they are (BOOL, NUM, STRING and NIL). Evaluating a
    literal changes nothing, so what a form does with such arguments can be
    stated exactly. A list of literals is described by its length
    (`Literals`), and what the loops of the evaluator collect from it by
    `Collect` and `Last`. */
module EvalFacts {
  import opened Base
  import opened Core
  import opened Builtins
  import Env
  import Lists

  /** An object eval returns unchanged. */
  predicate Literal(st: Store, p: Ptr)
  {
    p.Ref? && p.index < |st| &&
    (st[p.index].val.BoolV? || st[p.index].val.NumV? ||
     st[p.index].val.StrV? || st[p.index].val.NilV?)
  }

  /** The list at `p` has `n` cells, each holding a literal, and ends in
      NULL. */
  predicate Literals(st: Store, p: Ptr, n: nat)
    decreases n
  {
    if n == 0 then p == Null
    else Lists.IsCell(st, p) && Literal(st, st[p.index].val.car) && Literals(st, st[p.index].val.cdr, n - 1)
  }

  /** `acc` followed by the objects the first `n` cells of the list at `p`
      hold. */
  function Collect(acc: seq<Ptr>, st: Store, p: Ptr, n: nat): (r: seq<Ptr>)
    requires Literals(st, p, n)
    decreases n
  {
    if n == 0 then acc
    else Collect(acc + [st[p.index].val.car], st, st[p.index].val.cdr, n - 1)
  }

  /** The last object of a list of literals, `last` when it is empty. */
  function Last(last: Ptr, st: Store, p: Ptr, n: nat): (r: Ptr)
    requires Literals(st, p, n)
    decreases n
  {
    if n == 0 then last else Last(st[p.index].val.car, st, st[p.index].val.cdr, n - 1)
  }

  // ---------------------------------------------------------------------
  // eval

  /** eval returns a BOOL, NUM, STRING or NIL object itself and changes
      nothing. */
  lemma {:induction false} EvalLiteral(g: Globals, obj: Ptr, w: World, fuel: nat)
    requires Wf(w) && fuel > 0 && Literal(w.st, obj)
    ensures Eval(g, obj, w, fuel) == Ok(Done(obj, w))
  {
  }

  /** A SYMBOL yields the object the innermost binding gives it, and fails
      with "Undefined symbol" when no scope binds it or its object is
      NULL. */
  lemma {:induction false} EvalSymbol(g: Globals, obj: Ptr, w: World, fuel: nat)
    requires Wf(w) && fuel > 0 && Deref(w.st, obj).Some? && Deref(w.st, obj).value.SymV?
    ensures var s := Deref(w.st, obj).value.sym;
      Eval(g, obj, w, fuel).Ok? <==> exists p :: p != Null && Env.Find(w.chain, s) == Ends(Some(p))
    ensures var s := Deref(w.st, obj).value.sym;
      Eval(g, obj, w, fuel).Ok? ==>
        Env.Find(w.chain, s) == Ends(Some(Eval(g, obj, w, fuel).value.obj)) &&
        Eval(g, obj, w, fuel).value.w == w
    ensures var s := Deref(w.st, obj).value.sym;
      Env.Find(w.chain, s).Ends? && !Eval(g, obj, w, fuel).Ok? ==>
        Eval(g, obj, w, fuel) == Err(UndefinedSymbol(s))
  {
  }

  /** A cons cell is a call; eval of any other object (a function, a dict, a
      vector, a struct) is a fatal internal error, or undefined where the
      message would print an unnamed tag. */
  lemma {:induction false} EvalOther(g: Globals, obj: Ptr, w: World, fuel: nat)
    requires Wf(w) && fuel > 0 && Deref(w.st, obj).Some?
    requires !Literal(w.st, obj) && !Deref(w.st, obj).value.SymV?
    ensures Deref(w.st, obj).value.ConsV? ==> Eval(g, obj, w, fuel) == Apply(g, obj, w, fuel - 1)
    ensures var v := Deref(w.st, obj).value;
      !v.ConsV? && TagStr(TagOf(v)).Some? ==>
        Eval(g, obj, w, fuel) ==
          Err(Fatal("Internal error. Eval called on inappropriate type " + TagStr(TagOf(v)).value + ".\n"))
    ensures TagStr(TagOf(Deref(w.st, obj).value)).None? ==> Eval(g, obj, w, fuel) == Err(Undefined)
  {
  }

  // ---------------------------------------------------------------------
  // Evaluating lists of literals

  /** One turn of the loop over a list whose first element is a literal. */
  lemma EvalArgsStep(g: Globals, args: Ptr, acc: seq<Ptr>, w: World, fuel: nat)
    requires Wf(w) && fuel > 1 && Lists.IsCell(w.st, args) && Literal(w.st, w.st[args.index].val.car)
    ensures EvalArgs(g, args, acc, w, fuel) ==
      EvalArgs(g, w.st[args.index].val.cdr, acc + [w.st[args.index].val.car], w, fuel - 1)
  {
    EvalLiteral(g, w.st[args.index].val.car, w, fuel - 1);
  }

  /** Evaluating a list of literals appends them, in order, and changes
      nothing. */
  lemma {:induction false} EvalArgsLiterals(g: Globals, args: Ptr, n: nat, acc: seq<Ptr>, w: World, fuel: nat)
    requires Wf(w) && Literals(w.st, args, n) && fuel > n
    ensures EvalArgs(g, args, acc, w, fuel) == Ok(Evaluated(Collect(acc, w.st, args, n), w))
    decreases n
  {
    if n > 0 {
      EvalArgsStep(g, args, acc, w, fuel);
      var c := w.st[args.index].val;
      EvalArgsLiterals(g, c.cdr, n - 1, acc + [c.car], w, fuel - 1);
    }
  }

  lemma EvalBodyStep(g: Globals, body: Ptr, last: Ptr, w: World, fuel: nat)
    requires Wf(w) && fuel > 1 && Lists.IsCell(w.st, body) && Literal(w.st, w.st[body.index].val.car)
    ensures EvalBody(g, body, last, w, fuel) ==
      EvalBody(g, w.st[body.index].val.cdr, w.st[body.index].val.car, w, fuel - 1)
  {
    EvalLiteral(g, w.st[body.index].val.car, w, fuel - 1);
  }

  /** The body loops of lambdas, macros and `do` over literal forms yield
      the last form (`last` when there is none) and change nothing. */
  lemma {:induction false} EvalBodyLiterals(g: Globals, body: Ptr, n: nat, last: Ptr, w: World, fuel: nat)
    requires Wf(w) && Literals(w.st, body, n) && fuel > n
    ensures EvalBody(g, body, last, w, fuel) == Ok(Done(Last(last, w.st, body, n), w))
    decreases n
  {
    if n > 0 {
      EvalBodyStep(g, body, last, w, fuel);
      var c := w.st[body.index].val;
      EvalBodyLiterals(g, c.cdr, n - 1, c.car, w, fuel - 1);
    }
  }

  // ---------------------------------------------------------------------
  // Special forms

  /** The loop of tlisp_while yields nil whenever it ends, whatever its
      evaluator. */
  lemma {:induction false} WhileLoopNil(g: Globals, ev: Evaluator, cond: Ptr, body: Ptr, w: World, fuel: nat)
    requires Wf(w) && Evaluates(ev)
    ensures WhileLoop(g, ev, cond, body, w, fuel).Ok? ==> WhileLoop(g, ev, cond, body, w, fuel).value.obj == g.nil
    decreases fuel
  {
    if fuel > 0 && ev(cond, w).Ok? && ev(cond, w).value.obj == g.t {
      var c := ev(cond, w).value;
      if ev(body, c.w).Ok? {
        WhileLoopNil(g, ev, cond, body, ev(body, c.w).value.w, fuel - 1);
      }
    }
  }

  /** `while` yields nil whenever it ends. */
  lemma WhileYieldsNil(g: Globals, ev: Evaluator, args: Ptr, w: World, fuel: nat)
    requires Wf(w) && Evaluates(ev)
    ensures While(g, ev, args, w, fuel).Ok? ==> While(g, ev, args, w, fuel).value.obj == g.nil
  {
    if fuel > 0 && ExpectNargs(w.st, args, 2).Ok? && ArgAt(w.st, args, 0).Ok? && ArgAt(w.st, args, 1).Ok? {
      WhileLoopNil(g, ev, ArgAt(w.st, args, 0).value, ArgAt(w.st, args, 1).value, w, fuel - 1);
    }
  }

  /** `let` yields nil whatever its body yields, and drops its scope. */
  lemma {:induction false} LetYieldsNil(g: Globals, args: Ptr, w: World, fuel: nat)
    requires Wf(w)
    ensures Let(g, args, w, fuel).Ok? ==>
      Let(g, args, w, fuel).value.obj == g.nil &&
      |Let(g, args, w, fuel).value.w.chain| == |w.chain|
  {
  }
  // ---------------------------------------------------------------------
  // Arithmetic over lists of numbers

  /** The list at `p` has `n` cells, each holding a NUM, and ends in NULL;
      every cell and every number lies below index `bound` of the store. */
  predicate Nums(st: Store, p: Ptr, n: nat, bound: nat)
    decreases n
  {
    if n == 0 then p == Null
    else
      p.Ref? && p.index < bound && bound <= |st| && st[p.index].val.ConsV? &&
      var x := st[p.index].val.car;
      x.Ref? && x.index < bound && st[x.index].val.NumV? &&
      Nums(st, st[p.index].val.cdr, n - 1, bound)
  }

  /** The numbers the list holds, first to last. */
  function Numbers(st: Store, p: Ptr, n: nat, bound: nat): (r: seq<int>)
    requires Nums(st, p, n, bound)
    ensures |r| == n
    decreases n
  {
    if n == 0 then [] else [st[st[p.index].val.car.index].val.num] + Numbers(st, st[p.index].val.cdr, n - 1, bound)
  }

  /** `xs` folded from the left into `acc` with the C operator `op`: the
      first signed overflow or division by zero is the result. */
  function Fold(step: (int, int) -> Res<int>, acc: int, xs: seq<int>): (r: Res<int>)
    decreases |xs|
  {
    if |xs| == 0 then Ok(acc)
    else
      var a :- step(acc, xs[0]);
      Fold(step, a, xs[1..])
  }

  /** Writing an object at or above the bound leaves the list and its
      numbers as they were. */
  lemma {:induction false} NumsPut(st: Store, p: Ptr, n: nat, bound: nat, i: nat, o: Obj)
    requires Nums(st, p, n, bound) && bound <= i < |st|
    ensures Nums(st[i := o], p, n, bound)
    ensures Numbers(st[i := o], p, n, bound) == Numbers(st, p, n, bound)
    decreases n
  {
    if n > 0 {
      NumsPut(st, st[p.index].val.cdr, n - 1, bound, i, o);
    }
  }

  /** So does allocating a new object. */
  lemma {:induction false} NumsAlloc(st: Store, p: Ptr, n: nat, bound: nat, o: Obj)
    requires Nums(st, p, n, bound)
    ensures Nums(st + [o], p, n, bound)
    ensures Numbers(st + [o], p, n, bound) == Numbers(st, p, n, bound)
    decreases n
  {
    if n > 0 {
      NumsAlloc(st, st[p.index].val.cdr, n - 1, bound, o);
    }
  }

  /** Writing an object's own value back changes nothing; a second write
      to the same object replaces the first. */
  lemma PutFacts(w: World, i: nat, v: Val, v2: Val)
    requires i < |w.st|
    ensures w.st[i].val == v ==> Put(w, i, v) == w
    ensures Put(Put(w, i, v), i, v2) == Put(w, i, v2)
  {
    if w.st[i].val == v {
      assert Put(w, i, v).st == w.st;
    }
    assert Put(Put(w, i, v), i, v2).st == Put(w, i, v2).st;
  }

  /** Writing the object just allocated is allocating the new value. */
  lemma PutAlloc(w: World, v: Val, v2: Val)
    ensures Put(Alloc(w, v).w, |w.st|, v2) == Alloc(w, v2).w
  {
    assert Put(Alloc(w, v).w, |w.st|, v2).st == Alloc(w, v2).w.st;
  }

  /** An evaluator that gives literals back unchanged, as eval does. */
  ghost predicate KeepsLiterals(ev: Evaluator)
    requires Evaluates(ev)
  {
    forall x: Ptr, w: World | Wf(w) && Literal(w.st, x) :: ev(x, w) == Ok(Done(x, w))
  }

  lemma {:induction false} EvalAtLiterals(g: Globals, fuel: nat)
    requires fuel > 1
    ensures KeepsLiterals(EvalAt(g, fuel))
  {
    forall x: Ptr, w: World | Wf(w) && Literal(w.st, x)
      ensures EvalAt(g, fuel)(x, w) == Ok(Done(x, w))
    {
      EvalLiteral(g, x, w, fuel - 1);
    }
  }

  /** Folding a list that starts with `x`. */
  lemma {:induction false} FoldCons(step: (int, int) -> Res<int>, acc: int, x: int, xs: seq<int>)
    ensures Fold(step, acc, [x] + xs) ==
      if step(acc, x).Err? then Err(step(acc, x).fault) else Fold(step, step(acc, x).value, xs)
  {
    assert ([x] + xs)[1..] == xs;
  }

  /** One turn of the loop of DEF_ARITH_OP on a NUM literal: `res->num`
      becomes `acc op x`, or the operation is undefined. */
  lemma ArithStep(ev: Evaluator, step: (int, int) -> Res<int>, args: Ptr, res: Ptr, acc: int, w: World, fuel: nat)
    requires Wf(w) && Evaluates(ev) && KeepsLiterals(ev) && fuel > 0 && Lists.IsCell(w.st, args)
    requires var next := w.st[args.index].val.cdr;
      Lists.IsCell(w.st, next) && Literal(w.st, w.st[next.index].val.car) &&
      w.st[w.st[next.index].val.car.index].val.NumV?
    requires res.Ref? && res.index < |w.st| && w.st[res.index].val.NumV?
    ensures var next := w.st[args.index].val.cdr;
      var a := step(acc, w.st[w.st[next.index].val.car.index].val.num);
      ArithLoop(ev, step, args, res, acc, w, fuel) ==
        if a.Err? then Err(a.fault)
        else ArithLoop(ev, step, next, res, a.value, Put(w, res.index, NumV(a.value)), fuel - 1)
  {
    var next := w.st[args.index].val.cdr;
    assert ev(w.st[next.index].val.car, w) == Ok(Done(w.st[next.index].val.car, w));
  }

  /** The loop of DEF_ARITH_OP over the numbers after `args` leaves their
      fold in `res`, which is the only object it changes, or stops at the
      first undefined operation. */
  lemma {:induction false} ArithLoopNums(ev: Evaluator, step: (int, int) -> Res<int>, args: Ptr, res: Ptr, acc: int, n: nat, w: World, fuel: nat)
    requires Wf(w) && Evaluates(ev) && KeepsLiterals(ev) && fuel > n
    requires res.Ref? && res.index < |w.st| && w.st[res.index].val == NumV(acc)
    requires Lists.IsCell(w.st, args) && args.index < res.index
    requires Nums(w.st, w.st[args.index].val.cdr, n, res.index)
    ensures var f := Fold(step, acc, Numbers(w.st, w.st[args.index].val.cdr, n, res.index));
      ArithLoop(ev, step, args, res, acc, w, fuel) ==
        if f.Err? then Err(f.fault) else Ok(Done(res, Put(w, res.index, NumV(f.value))))
    decreases n
  {
    var next := w.st[args.index].val.cdr;
    if n == 0 {
      PutFacts(w, res.index, NumV(acc), NumV(acc));
    } else {
      var x := w.st[w.st[next.index].val.car.index].val.num;
      var rest := Numbers(w.st, w.st[next.index].val.cdr, n - 1, res.index);
      ArithStep(ev, step, args, res, acc, w, fuel);
      FoldCons(step, acc, x, rest);
      var a := step(acc, x);
      if a.Ok? {
        var w2 := Put(w, res.index, NumV(a.value));
        NumsPut(w.st, w.st[next.index].val.cdr, n - 1, res.index, res.index, w2.st[res.index]);
        ArithLoopNums(ev, step, next, res, a.value, n - 1, w2, fuel - 1);
        var f := Fold(step, a.value, rest);
        if f.Ok? {
          PutFacts(w, res.index, NumV(a.value), NumV(f.value));
        }
      }
    }
  }

  /** The loop of DEF_ARITH_OP started, as the macro starts it, on a fresh
      copy `x` of the first number: the fold ends up in that copy. */
  lemma {:induction false} ArithFrom(ev: Evaluator, step: (int, int) -> Res<int>, args: Ptr, n: nat, w: World, fuel: nat)
    requires Wf(w) && Evaluates(ev) && KeepsLiterals(ev) && fuel >= n && n > 0
    requires Nums(w.st, args, n, |w.st|)
    ensures var c := w.st[args.index].val;
      var x := w.st[c.car.index].val.num;
      var f := Fold(step, x, Numbers(w.st, c.cdr, n - 1, |w.st|));
      ArithLoop(ev, step, args, Ref(|w.st|), x, Alloc(w, NumV(x)).w, fuel) ==
        if f.Err? then Err(f.fault)
        else Ok(Done(Ref(|w.st|), World(w.st + [Obj(NumV(f.value), 0)], w.chain)))
  {
    var c := w.st[args.index].val;
    var x := w.st[c.car.index].val.num;
    NumsAlloc(w.st, c.cdr, n - 1, |w.st|, Obj(NumV(x), 0));
    ArithLoopNums(ev, step, args, Ref(|w.st|), x, n - 1, Alloc(w, NumV(x)).w, fuel);
    var f := Fold(step, x, Numbers(w.st, c.cdr, n - 1, |w.st|));
    if f.Ok? {
      PutAlloc(w, NumV(x), NumV(f.value));
    }
  }

  /** DEF_ARITH_OP over a list of numbers, with an evaluator that gives
      numbers back unchanged: nil without arguments; otherwise a fresh NUM
      holding the left fold of the numbers under `step`, the only change to
      the store, or the first undefined operation. */
  lemma {:induction false} ArithNums(g: Globals, ev: Evaluator, step: (int, int) -> Res<int>, args: Ptr, n: nat, w: World, fuel: nat)
    requires Wf(w) && Evaluates(ev) && KeepsLiterals(ev) && fuel > n && Nums(w.st, args, n, |w.st|)
    ensures n == 0 ==> Arith(g, ev, step, args, w, fuel) == Ok(Done(g.nil, w))
    ensures n > 0 ==>
      var c := w.st[args.index].val;
      var f := Fold(step, w.st[c.car.index].val.num, Numbers(w.st, c.cdr, n - 1, |w.st|));
      Arith(g, ev, step, args, w, fuel) ==
        if f.Err? then Err(f.fault)
        else Ok(Done(Ref(|w.st|), World(w.st + [Obj(NumV(f.value), 0)], w.chain)))
  {
    if n > 0 {
      var x := w.st[args.index].val.car;
      assert ev(x, w) == Ok(Done(x, w));
      ArithFrom(ev, step, args, n, w, fuel - 1);
    }
  }

  /** tlisp_sub over a list of numbers: nil without arguments, the negation
      of a single number (undefined when it overflows, as for INT_MIN), and
      otherwise the left fold of C subtraction, in a fresh NUM. */
  lemma {:induction false} SubNums(g: Globals, ev: Evaluator, args: Ptr, n: nat, w: World, fuel: nat)
    requires Wf(w) && Evaluates(ev) && KeepsLiterals(ev) && fuel > n && Nums(w.st, args, n, |w.st|)
    ensures n == 0 ==> Sub(g, ev, args, w, fuel) == Ok(Done(g.nil, w))
    ensures n == 1 ==>
      var x := w.st[w.st[args.index].val.car.index].val.num;
      Sub(g, ev, args, w, fuel) ==
        if !IsInt(-x) then Err(Undefined) else Ok(Done(Ref(|w.st|), World(w.st + [Obj(NumV(-x), 0)], w.chain)))
    ensures n > 1 ==>
      var c := w.st[args.index].val;
      var f := Fold(Op(Minus), w.st[c.car.index].val.num, Numbers(w.st, c.cdr, n - 1, |w.st|));
      Sub(g, ev, args, w, fuel) ==
        if f.Err? then Err(f.fault)
        else Ok(Done(Ref(|w.st|), World(w.st + [Obj(NumV(f.value), 0)], w.chain)))
  {
    if n > 0 {
      var x := w.st[args.index].val.car;
      assert ev(x, w) == Ok(Done(x, w));
      if n == 1 {
        PutAlloc(w, NumV(w.st[x.index].val.num), NumV(-w.st[x.index].val.num));
      } else {
        ArithFrom(ev, Op(Minus), args, n, w, fuel - 1);
      }
    }
  }
}
