/** What tlisp_map (src/builtins.c:959-983) and tlisp_filter
    (src/builtins.c:985-1016) compute from their arguments: map builds the
    list of the function's results, filter the list of the elements for
    which the function answers with the `true` singleton. Each comes with
    an instance on a native function: `-` for map, `not` for filter, and
    `^` for reduce (module ListFold). */
module ListWalk {
  import opened Base
  import opened Core
  import opened Builtins
  import Lists
  import opened ListSpec
  import opened ListBuild
  import opened ListFold
  import opened ListFilter
  import opened FormFacts
  import opened ListForms
  import opened EvalFacts

  // ---------------------------------------------------------------------
  // map

  /** The argument checks of the walkers, under a non-recursive name. */
  ghost function Checks(g: Globals, args: Ptr, w: World, fuel: nat): Res<Walk>
    requires Wf(w)
  {
    ListAndFn(g, args, w, fuel)
  }

  /** map, under a non-recursive name: the lemmas below are stated through
      it, which keeps the verifier from unfolding the evaluator. */
  ghost function MapCall(g: Globals, args: Ptr, w: World, fuel: nat): Res<Done>
    requires Wf(w)
  {
    Map(g, args, w, fuel)
  }

  /** map once its checks have passed goes on with the list and the
      function they gave. */
  lemma {:induction false} MapAfterWalk(g: Globals, args: Ptr, l: Ptr, fn: Ptr, w: World, w1: World, fuel: nat)
    requires Wf(w) && fuel > 1 && Checks(g, args, w, fuel - 1) == Ok(Walk(l, fn, w1))
    ensures MapCall(g, args, w, fuel) == MapList(ApplyAt(g, fn, fuel - 1), l, w1, fuel - 1)
  {
  }

  /** map (src/builtins.c:959-983) once its checks have passed, on a list
      and a function that maps each element's value `v` to `f(v)`: a list of
      new cells whose element `i` holds `f` of the value of element `i`. */
  lemma {:induction false} MapWalked(g: Globals, args: Ptr, l: Ptr, fn: Ptr, dom: Val -> bool, f: Val -> Val,
                                     w: World, w1: World, fuel: nat)
    requires Wf(w) && fuel > 1 && Checks(g, args, w, fuel - 1) == Ok(Walk(l, fn, w1))
    requires Lists.Cells(w1.st, l).Ok? && AllIn(w1.st, Lists.Elements(w1.st, l).value, dom)
    requires Transforms(ApplyAt(g, fn, fuel - 1), dom, f, w1) && fuel - 1 > |Lists.Cells(w1.st, l).value|
    ensures Yields(w1, Image(w1.st, Lists.Elements(w1.st, l).value, f), MapCall(g, args, w, fuel))
  {
    MapListResult(ApplyAt(g, fn, fuel - 1), dom, f, l, w1, fuel - 1);
    MapAfterWalk(g, args, l, fn, w, w1, fuel);
  }

  /** The checks of the walkers pass on a known list and a known native
      function or lambda, in the state they started from. */
  lemma {:induction false} WalkKnown(g: Globals, args: Ptr, l: Ptr, fn: Ptr, w: World, fuel: nat)
    requires Wf(w) && fuel > 1 && Pair(w.st, args)
    requires Known(w, First(w.st, args), l) && Known(w, Second(w.st, args), fn)
    requires l != g.nil && l != Null && Lists.Cells(w.st, l).Ok?
    requires fn.Ref? && fn.index < |w.st| && (w.st[fn.index].val.NFuncV? || w.st[fn.index].val.LambdaV?)
    ensures Checks(g, args, w, fuel) == Ok(Walk(l, fn, w))
  {
    assert Lists.IsCell(w.st, l) && IsFn(w.st, fn);
    ListAndFnKnown(g, args, l, fn, w, fuel);
  }

  // ---------------------------------------------------------------------
  // An instance of map: the native `-` on one argument

  /** The NUMs that `-` can negate without signed overflow. */
  predicate NegDom(v: Val)
  {
    v.NumV? && IsInt(-v.num)
  }

  /** The value `-` gives for one NUM: its negation. */
  function NegVal(v: Val): Val
  {
    if v.NumV? then NumV(-v.num) else v
  }

  /** Calling the native `-` is tlisp_sub. */
  lemma {:induction false} CallSub(g: Globals, fn: Ptr, args: Ptr, w: World, fuel: nat)
    requires Wf(w) && fn.Ref? && fn.index < |w.st| && w.st[fn.index].val == NFuncV(SubFn)
    ensures CallFn(g, fn, args, w, fuel + 2) == Sub(g, EvalAt(g, fuel), args, w, fuel)
  {
    assert Native(g, SubFn, args, w, fuel + 1) == NativeNum(g, SubFn, args, w, fuel + 1);
  }

  /** tlisp_sub of a single NUM: a fresh NUM holding its negation. */
  lemma {:induction false} SubSingle(g: Globals, args: Ptr, w: World, fuel: nat)
    requires Wf(w) && fuel > 2 && Lists.IsCell(w.st, args) && w.st[args.index].val.cdr == Null
    requires var x := w.st[args.index].val.car; x.Ref? && x.index < |w.st| && NegDom(w.st[x.index].val)
    ensures var x := w.st[args.index].val.car;
      Sub(g, EvalAt(g, fuel - 1), args, w, fuel - 1) ==
        Ok(Done(Ref(|w.st|), World(w.st + [Obj(NegVal(w.st[x.index].val), 0)], w.chain)))
  {
    var x := w.st[args.index].val.car;
    EvalLiteral(g, x, w, fuel - 2);
    var n := w.st[x.index].val.num;
    PutAlloc(w, NumV(n), NumV(-n));
  }

  /** apply_1arity_fn of `-` on a NUM: a fresh NUM holding its negation. */
  lemma {:induction false} NegCall(g: Globals, fn: Ptr, x: Ptr, w0: World, w: World, fuel: nat)
    requires Wf(w) && w0.st <= w.st && w.chain == w0.chain && fuel > 4
    requires fn.Ref? && fn.index < |w0.st| && w0.st[fn.index].val == NFuncV(SubFn)
    requires x.Ref? && x.index < |w.st| && NegDom(w.st[x.index].val)
    ensures Gives(w0, w, Apply1(g, fn, x, w, fuel), NegVal(w.st[x.index].val))
  {
    var c := Alloc(w, ConsV(x, Null));
    assert w.st[fn.index] == w0.st[fn.index];
    assert c.w.st[fn.index] == w.st[fn.index];
    CallSub(g, fn, c.obj, c.w, fuel - 3);
    SubSingle(g, c.obj, c.w, fuel - 2);
    assert w.st <= c.w.st + [Obj(NegVal(w.st[x.index].val), 0)];
  }

  /** map may be given `-`: it maps each NUM to its negation. */
  lemma {:induction false} NegTransforms(g: Globals, fn: Ptr, w0: World, fuel: nat)
    requires Wf(w0) && fuel > 5 && fn.Ref? && fn.index < |w0.st| && w0.st[fn.index].val == NFuncV(SubFn)
    ensures Transforms(ApplyAt(g, fn, fuel), NegDom, NegVal, w0)
  {
    forall x: Ptr, w: World
      | Wf(w) && w0.st <= w.st && w.chain == w0.chain && x.Ref? && x.index < |w0.st| && NegDom(w0.st[x.index].val)
      ensures Gives(w0, w, ApplyAt(g, fn, fuel)(x, w), NegVal(w0.st[x.index].val))
    {
      assert w.st[x.index] == w0.st[x.index];
      NegCall(g, fn, x, w0, w, fuel - 1);
    }
  }

  /** map with `-` once its checks have passed, on a list of NUMs: a fresh
      list of their negations, in order. */
  lemma {:induction false} MapNeg(g: Globals, args: Ptr, l: Ptr, fn: Ptr, w: World, w1: World, fuel: nat)
    requires Wf(w) && fuel > 1 && Checks(g, args, w, fuel - 1) == Ok(Walk(l, fn, w1))
    requires Lists.Cells(w1.st, l).Ok? && AllIn(w1.st, Lists.Elements(w1.st, l).value, NegDom)
    requires fn.Ref? && fn.index < |w1.st| && w1.st[fn.index].val == NFuncV(SubFn)
    requires fuel > |Lists.Cells(w1.st, l).value| + 6
    ensures Yields(w1, Image(w1.st, Lists.Elements(w1.st, l).value, NegVal), MapCall(g, args, w, fuel))
  {
    NegTransforms(g, fn, w1, fuel - 1);
    MapWalked(g, args, l, fn, NegDom, NegVal, w, w1, fuel);
  }

  // ---------------------------------------------------------------------
  // filter

  /** filter, under a non-recursive name: the lemmas below are stated
      through it, which keeps the verifier from unfolding the evaluator. */
  ghost function FilterCall(g: Globals, args: Ptr, w: World, fuel: nat): Res<Done>
    requires Wf(w)
  {
    Filter(g, args, w, fuel)
  }

  /** filter once its checks have passed goes on with the list and the
      function they gave. */
  lemma {:induction false} FilterAfterWalk(g: Globals, args: Ptr, l: Ptr, fn: Ptr, w: World, w1: World, fuel: nat)
    requires Wf(w) && fuel > 1 && Checks(g, args, w, fuel - 1) == Ok(Walk(l, fn, w1))
    ensures FilterCall(g, args, w, fuel) == FilterLoop(g, ApplyAt(g, fn, fuel - 1), l, Null, Null, w1, fuel - 1)
  {
  }

  /** filter (src/builtins.c:985-1016) once its checks have passed, on a
      list and a function that answers `true` on exactly the elements that
      `keep` accepts: those elements, in order, in fresh cells, or nil when
      there are none. */
  lemma {:induction false} FilterWalked(g: Globals, args: Ptr, l: Ptr, fn: Ptr, dom: Val -> bool, keep: Ptr -> bool,
                                        w: World, w1: World, fuel: nat)
    requires Wf(w) && fuel > 1 && Checks(g, args, w, fuel - 1) == Ok(Walk(l, fn, w1))
    requires Lists.Cells(w1.st, l).Ok? && AllIn(w1.st, Lists.Elements(w1.st, l).value, dom)
    requires Decides(ApplyAt(g, fn, fuel - 1), g.t, dom, keep, w1) && fuel - 1 > |Lists.Cells(w1.st, l).value|
    ensures Filtered(w1, g.nil, Kept(Lists.Elements(w1.st, l).value, keep), FilterCall(g, args, w, fuel))
  {
    FilterListResult(g, ApplyAt(g, fn, fuel - 1), dom, keep, l, w1, fuel - 1);
    FilterAfterWalk(g, args, l, fn, w, w1, fuel);
  }

  // ---------------------------------------------------------------------
  // An instance of filter: the native `not`

  /** The objects `not` accepts: BOOLs. */
  predicate NotDom(v: Val)
  {
    v.BoolV?
  }

  /** The elements on which `not` answers `true`: all but the `true`
      singleton. */
  function Untrue(g: Globals): Ptr -> bool
  {
    x => x != g.t
  }

  /** Calling the native `not` is tlisp_not. */
  lemma {:induction false} CallNot(g: Globals, fn: Ptr, args: Ptr, w: World, fuel: nat)
    requires Wf(w) && fn.Ref? && fn.index < |w.st| && w.st[fn.index].val == NFuncV(NotFn)
    ensures CallFn(g, fn, args, w, fuel + 2) == Not(g, args, w, fuel)
  {
    assert Native(g, NotFn, args, w, fuel + 1) == NativeTest(g, NotFn, args, w, fuel + 1);
  }

  /** tlisp_not of a single BOOL: `false` for the `true` singleton and
      `true` for any other. */
  lemma {:induction false} NotSingle(g: Globals, args: Ptr, w: World, fuel: nat)
    requires Wf(w) && fuel > 2 && Lists.IsCell(w.st, args) && w.st[args.index].val.cdr == Null
    requires var x := w.st[args.index].val.car; x.Ref? && x.index < |w.st| && NotDom(w.st[x.index].val)
    ensures var x := w.st[args.index].val.car;
      Not(g, args, w, fuel - 1) == Ok(Done(if x == g.t then g.f else g.t, w))
  {
    EvalLiteral(g, w.st[args.index].val.car, w, fuel - 2);
  }

  /** apply_1arity_fn of `not` on a BOOL answers `true` exactly when the
      BOOL is not the `true` singleton. */
  lemma {:induction false} NotCall(g: Globals, fn: Ptr, x: Ptr, w0: World, w: World, fuel: nat)
    requires g.t != g.f
    requires Wf(w) && w0.st <= w.st && w.chain == w0.chain && fuel > 4
    requires fn.Ref? && fn.index < |w0.st| && w0.st[fn.index].val == NFuncV(NotFn)
    requires x.Ref? && x.index < |w.st| && NotDom(w.st[x.index].val)
    ensures Answers(w, Apply1(g, fn, x, w, fuel), g.t, Untrue(g)(x))
  {
    var c := Alloc(w, ConsV(x, Null));
    assert c.w.st[fn.index] == w0.st[fn.index];
    CallNot(g, fn, c.obj, c.w, fuel - 3);
    NotSingle(g, c.obj, c.w, fuel - 2);
  }

  /** filter may be given `not`: it answers `true` on the BOOLs other than
      the `true` singleton. */
  lemma {:induction false} NotDecides(g: Globals, fn: Ptr, w0: World, fuel: nat)
    requires g.t != g.f
    requires Wf(w0) && fuel > 5 && fn.Ref? && fn.index < |w0.st| && w0.st[fn.index].val == NFuncV(NotFn)
    ensures Decides(ApplyAt(g, fn, fuel), g.t, NotDom, Untrue(g), w0)
  {
    forall x: Ptr, w: World
      | Wf(w) && w0.st <= w.st && w.chain == w0.chain && x.Ref? && x.index < |w0.st| && NotDom(w0.st[x.index].val)
      ensures Answers(w, ApplyAt(g, fn, fuel)(x, w), g.t, Untrue(g)(x))
    {
      assert w.st[x.index] == w0.st[x.index];
      NotCall(g, fn, x, w0, w, fuel - 1);
    }
  }

  /** filter with `not` once its checks have passed, on a list of BOOLs: the
      elements other than the `true` singleton, in order, in fresh cells,
      or nil when every element is `true`. */
  lemma {:induction false} FilterNot(g: Globals, args: Ptr, l: Ptr, fn: Ptr, w: World, w1: World, fuel: nat)
    requires g.t != g.f
    requires Wf(w) && fuel > 1 && Checks(g, args, w, fuel - 1) == Ok(Walk(l, fn, w1))
    requires Lists.Cells(w1.st, l).Ok? && AllIn(w1.st, Lists.Elements(w1.st, l).value, NotDom)
    requires fn.Ref? && fn.index < |w1.st| && w1.st[fn.index].val == NFuncV(NotFn)
    requires fuel > |Lists.Cells(w1.st, l).value| + 6
    ensures Filtered(w1, g.nil, Kept(Lists.Elements(w1.st, l).value, Untrue(g)), FilterCall(g, args, w, fuel))
  {
    NotDecides(g, fn, w1, fuel - 1);
    FilterWalked(g, args, l, fn, NotDom, Untrue(g), w, w1, fuel);
  }
}
