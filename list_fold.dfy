/** What tlisp_reduce (src/builtins.c:1018-1042) computes: for a function
    that combines two values by `h`, the left fold of `h` over the values
    of the list's elements. */
module ListFold {
  import opened Base
  import opened Core
  import opened Builtins
  import Lists
  import opened ListBuild
  import opened FormFacts
  import opened ListForms
  import opened EvalFacts

  /** `h` folded over `vs` from the left, starting from `acc`. */
  ghost function FoldLeft(h: (Val, Val) -> Val, acc: Val, vs: seq<Val>): Val
    decreases |vs|
  {
    if vs == [] then acc else h(FoldLeft(h, acc, vs[..|vs| - 1]), vs[|vs| - 1])
  }

  /** The values of the objects `xs`. */
  ghost function Values(st: Store, xs: seq<Ptr>): (r: seq<Val>)
    requires forall i | 0 <= i < |xs| :: xs[i].Ref? && xs[i].index < |st|
    ensures |r| == |xs| && forall i | 0 <= i < |xs| :: r[i] == st[xs[i].index].val
  {
    seq(|xs|, i requires 0 <= i < |xs| => st[xs[i].index].val)
  }

  /** A call that succeeds with an object holding `v`, in a state that
      extends `w0`'s and has its scope chain. */
  ghost predicate Holding(w0: World, r: Res<Done>, v: Val)
  {
    && r.Ok? && Wf(r.value.w) && w0.st <= r.value.w.st && r.value.w.chain == w0.chain
    && r.value.obj.Ref? && r.value.obj.index < |r.value.w.st| && r.value.w.st[r.value.obj.index].val == v
  }

  /** `h` keeps values in `dom`. */
  ghost predicate Closed(dom: Val -> bool, h: (Val, Val) -> Val)
  {
    forall u: Val, v: Val {:trigger h(u, v)} | dom(u) && dom(v) :: dom(h(u, v))
  }

  /** `cb` combines an object `a` whose value is in `dom` with an object `b`
      of `w0` whose value is in `dom` into an object holding `h` of their
      values, in every state that extends `w0`'s and has its scope chain. */
  ghost predicate Folds(cb: Combiner, dom: Val -> bool, h: (Val, Val) -> Val, w0: World)
  {
    && Closed(dom, h)
    && forall a: Ptr, b: Ptr, w: World {:trigger cb(a, b, w)}
      | && Wf(w) && w0.st <= w.st && w.chain == w0.chain && a.Ref? && a.index < |w.st| && dom(w.st[a.index].val)
        && b.Ref? && b.index < |w0.st| && dom(w0.st[b.index].val) ::
      cb.requires(a, b, w) ==> Holding(w0, cb(a, b, w), h(w.st[a.index].val, w0.st[b.index].val))
  }

  /** The rest of the loop of tlisp_reduce; a non-recursive name for the
      loop lemmas to be stated through. */
  ghost function ReduceRest(cb: Combiner, list: Ptr, acc: Ptr, w: World, fuel: nat): Res<Done>
    requires Wf(w) && Combines(cb)
  {
    ReduceLoop(cb, list, acc, w, fuel)
  }

  /** One turn of the loop of tlisp_reduce. */
  lemma ReduceLoopStep(cb: Combiner, list: Ptr, x: Ptr, acc: Ptr, w: World, fuel: nat)
    requires Wf(w) && Combines(cb) && fuel > 0 && list != Null && Car(w.st, list) == Ok(x)
    requires cb(acc, x, w).Ok? && Cdr(cb(acc, x, w).value.w.st, list).Ok?
    ensures var e := cb(acc, x, w).value;
      ReduceRest(cb, list, acc, w, fuel) == ReduceRest(cb, Cdr(e.w.st, list).value, e.obj, e.w, fuel - 1)
  {
  }

  /** The last turn of the loop of tlisp_reduce. */
  lemma ReduceLoopLast(cb: Combiner, acc: Ptr, w: World, fuel: nat)
    requires Wf(w) && Combines(cb) && fuel > 0
    ensures ReduceRest(cb, Null, acc, w, fuel) == Ok(Done(acc, w))
  {
  }

  /** The loop of tlisp_reduce from element `k` on, with `acc` holding the
      fold of the elements before it, ends holding `total`, the fold of
      them all. */
  lemma {:induction false} ReduceLoopResult(cb: Combiner, dom: Val -> bool, h: (Val, Val) -> Val, w0: World,
                                            ins: seq<nat>, xs: seq<Ptr>, k: nat, list: Ptr, acc: Ptr, w: World, fuel: nat, total: Val)
    requires Combines(cb) && Folds(cb, dom, h, w0)
    requires Chained(w0.st, ins, xs) && AllIn(w0.st, xs, dom) && 1 <= k <= |ins|
    requires Wf(w) && w0.st <= w.st && w.chain == w0.chain
    requires list == (if k < |ins| then Ref(ins[k]) else Null)
    requires acc.Ref? && acc.index < |w.st| && dom(w.st[acc.index].val)
    requires w.st[acc.index].val == FoldLeft(h, Values(w0.st, xs)[0], Values(w0.st, xs)[1..k])
    requires total == FoldLeft(h, Values(w0.st, xs)[0], Values(w0.st, xs)[1..])
    requires fuel > |ins| - k
    ensures Holding(w0, ReduceRest(cb, list, acc, w, fuel), total)
    decreases |ins| - k, 1
  {
    var vs := Values(w0.st, xs);
    if k == |ins| {
      assert vs[1..k] == vs[1..];
      ReduceLoopLast(cb, acc, w, fuel);
    } else {
      ReduceLoopTurn(cb, dom, h, w0, ins, xs, k, list, acc, w, fuel, total);
    }
  }

  /** The inductive step of ReduceLoopResult: one more turn, then the rest. */
  lemma {:induction false} ReduceLoopTurn(cb: Combiner, dom: Val -> bool, h: (Val, Val) -> Val, w0: World,
                                          ins: seq<nat>, xs: seq<Ptr>, k: nat, list: Ptr, acc: Ptr, w: World, fuel: nat, total: Val)
    requires Combines(cb) && Folds(cb, dom, h, w0)
    requires Chained(w0.st, ins, xs) && AllIn(w0.st, xs, dom) && 1 <= k < |ins|
    requires Wf(w) && w0.st <= w.st && w.chain == w0.chain && list == Ref(ins[k])
    requires acc.Ref? && acc.index < |w.st| && dom(w.st[acc.index].val)
    requires w.st[acc.index].val == FoldLeft(h, Values(w0.st, xs)[0], Values(w0.st, xs)[1..k])
    requires total == FoldLeft(h, Values(w0.st, xs)[0], Values(w0.st, xs)[1..])
    requires fuel > |ins| - k
    ensures Holding(w0, ReduceRest(cb, list, acc, w, fuel), total)
    decreases |ins| - k, 0
  {
    var e := ReduceAdvance(cb, dom, h, w0, ins, xs, k, list, acc, w, fuel);
    ReduceLoopResult(cb, dom, h, w0, ins, xs, k + 1, if k + 1 < |ins| then Ref(ins[k + 1]) else Null, e.obj, e.w, fuel - 1, total);
  }

  /** A turn of the loop of tlisp_reduce: the new accumulator holds the fold
      up to element `k`, and the rest of the loop is left to do. */
  lemma ReduceAdvance(cb: Combiner, dom: Val -> bool, h: (Val, Val) -> Val, w0: World,
                      ins: seq<nat>, xs: seq<Ptr>, k: nat, list: Ptr, acc: Ptr, w: World, fuel: nat)
    returns (e: Done)
    requires Combines(cb) && Folds(cb, dom, h, w0)
    requires Chained(w0.st, ins, xs) && AllIn(w0.st, xs, dom) && 1 <= k < |ins|
    requires Wf(w) && w0.st <= w.st && w.chain == w0.chain && list == Ref(ins[k])
    requires acc.Ref? && acc.index < |w.st| && dom(w.st[acc.index].val)
    requires w.st[acc.index].val == FoldLeft(h, Values(w0.st, xs)[0], Values(w0.st, xs)[1..k])
    requires fuel > 0
    ensures Wf(e.w) && w0.st <= e.w.st && e.w.chain == w0.chain && e.obj.Ref? && e.obj.index < |e.w.st|
    ensures dom(e.w.st[e.obj.index].val)
    ensures e.w.st[e.obj.index].val == FoldLeft(h, Values(w0.st, xs)[0], Values(w0.st, xs)[1..k + 1])
    ensures forall total: Val {:trigger Holding(w0, ReduceRest(cb, list, acc, w, fuel), total)} ::
      Holding(w0, ReduceRest(cb, if k + 1 < |ins| then Ref(ins[k + 1]) else Null, e.obj, e.w, fuel - 1), total) ==>
      Holding(w0, ReduceRest(cb, list, acc, w, fuel), total)
  {
    var vs := Values(w0.st, xs);
    Intact(w0.st, w.st, ins, xs, k);
    var x := xs[k];
    assert Holding(w0, cb(acc, x, w), h(w.st[acc.index].val, w0.st[x.index].val));
    e := cb(acc, x, w).value;
    Intact(w0.st, e.w.st, ins, xs, k);
    ReduceLoopStep(cb, list, x, acc, w, fuel);
    assert vs[1..k + 1][..k - 1] == vs[1..k];
  }

  /** tlisp_reduce after its checks (src/builtins.c:1032-1041): for a
      function that combines values by `h`, an object holding the left fold
      of `h` over the values of the elements; a one-element list gives its
      element itself. */
  lemma ReduceListResult(cb: Combiner, dom: Val -> bool, h: (Val, Val) -> Val, list: Ptr, w: World, fuel: nat)
    requires Wf(w) && Combines(cb) && Folds(cb, dom, h, w)
    requires list != Null && Lists.Cells(w.st, list).Ok?
    requires AllIn(w.st, Lists.Elements(w.st, list).value, dom)
    requires fuel > |Lists.Cells(w.st, list).value|
    ensures var xs := Lists.Elements(w.st, list).value;
      Holding(w, ReduceList(cb, list, w, fuel), FoldLeft(h, Values(w.st, xs)[0], Values(w.st, xs)[1..]))
    ensures |Lists.Cells(w.st, list).value| == 1 ==> ReduceList(cb, list, w, fuel) == Ok(Done(w.st[list.index].val.car, w))
  {
    var ins, xs := Lists.Cells(w.st, list).value, Lists.Elements(w.st, list).value;
    var vs := Values(w.st, xs);
    ListChained(w.st, list);
    Intact(w.st, w.st, ins, xs, 0);
    if |ins| == 1 {
      assert vs[1..] == [];
    } else {
      ReduceListMore(cb, dom, h, list, w, fuel);
    }
  }

  /** The case of ReduceListResult with at least two elements: the first
      two are combined and the loop goes on from the third. */
  lemma ReduceListMore(cb: Combiner, dom: Val -> bool, h: (Val, Val) -> Val, list: Ptr, w: World, fuel: nat)
    requires Wf(w) && Combines(cb) && Folds(cb, dom, h, w)
    requires list != Null && Lists.Cells(w.st, list).Ok? && |Lists.Cells(w.st, list).value| > 1
    requires AllIn(w.st, Lists.Elements(w.st, list).value, dom)
    requires fuel > |Lists.Cells(w.st, list).value|
    ensures var xs := Lists.Elements(w.st, list).value;
      Holding(w, ReduceList(cb, list, w, fuel), FoldLeft(h, Values(w.st, xs)[0], Values(w.st, xs)[1..]))
  {
    var ins, xs := Lists.Cells(w.st, list).value, Lists.Elements(w.st, list).value;
    var vs := Values(w.st, xs);
    ListChained(w.st, list);
    Intact(w.st, w.st, ins, xs, 0);
    Intact(w.st, w.st, ins, xs, 1);
    assert Holding(w, cb(xs[0], xs[1], w), h(w.st[xs[0].index].val, w.st[xs[1].index].val));
    var e := cb(xs[0], xs[1], w).value;
    Intact(w.st, e.w.st, ins, xs, 0);
    Intact(w.st, e.w.st, ins, xs, 1);
    assert vs[1..2][..0] == vs[1..1];
    var rest := if 2 < |ins| then Ref(ins[2]) else Null;
    ReduceListOpen(cb, list, Ref(ins[1]), w, fuel);
    ReduceLoopResult(cb, dom, h, w, ins, xs, 2, rest, e.obj, e.w, fuel - 1, FoldLeft(h, vs[0], vs[1..]));
  }

  /** tlisp_reduce on a list of at least two elements combines the first
      two and goes on from the cell after the second. */
  lemma ReduceListOpen(cb: Combiner, list: Ptr, second: Ptr, w: World, fuel: nat)
    requires Wf(w) && Combines(cb) && fuel > 0
    requires Lists.IsCell(w.st, list) && w.st[list.index].val.cdr == second && Lists.IsCell(w.st, second)
    requires cb(w.st[list.index].val.car, w.st[second.index].val.car, w).Ok?
    requires var e := cb(w.st[list.index].val.car, w.st[second.index].val.car, w).value;
      Cdr(e.w.st, list) == Ok(second) && Lists.IsCell(e.w.st, second)
    ensures var e := cb(w.st[list.index].val.car, w.st[second.index].val.car, w).value;
      ReduceList(cb, list, w, fuel) == ReduceRest(cb, e.w.st[second.index].val.cdr, e.obj, e.w, fuel - 1)
  {
  }

  /** reduce, under a non-recursive name: the lemmas below are stated
      through it, which keeps the verifier from unfolding the evaluator
      when it checks them. */
  ghost function ReduceCall(g: Globals, args: Ptr, w: World, fuel: nat): Res<Done>
    requires Wf(w)
  {
    Reduce(g, args, w, fuel)
  }

  /** reduce (src/builtins.c:1018-1042) once its checks have passed, on a
      list and a function that combines values by `h`: the left fold of `h`
      over the values of the elements, in the state the checks left. */
  lemma {:induction false} ReduceWalked(g: Globals, args: Ptr, l: Ptr, fn: Ptr, dom: Val -> bool, h: (Val, Val) -> Val, w: World, w1: World, fuel: nat)
    requires Wf(w) && fuel > 1 && ListAndFn(g, args, w, fuel - 1) == Ok(Walk(l, fn, w1))
    requires Lists.Cells(w1.st, l).Ok? && AllIn(w1.st, Lists.Elements(w1.st, l).value, dom)
    requires Folds(Apply2At(g, fn, fuel - 1), dom, h, w1) && fuel - 1 > |Lists.Cells(w1.st, l).value|
    ensures var xs := Lists.Elements(w1.st, l).value;
      Holding(w1, ReduceCall(g, args, w, fuel), FoldLeft(h, Values(w1.st, xs)[0], Values(w1.st, xs)[1..]))
  {
    ReduceListResult(Apply2At(g, fn, fuel - 1), dom, h, l, w1, fuel - 1);
    ReduceAfterWalk(g, args, l, fn, w, w1, fuel);
  }

  /** reduce once its checks have passed goes on with the list and the
      function they gave. */
  lemma {:induction false} ReduceAfterWalk(g: Globals, args: Ptr, l: Ptr, fn: Ptr, w: World, w1: World, fuel: nat)
    requires Wf(w) && fuel > 1 && ListAndFn(g, args, w, fuel - 1) == Ok(Walk(l, fn, w1))
    ensures ReduceCall(g, args, w, fuel) == ReduceList(Apply2At(g, fn, fuel - 1), l, w1, fuel - 1)
  {
  }

  // ---------------------------------------------------------------------
  // An instance: the native `^`

  predicate IsNumVal(v: Val)
  {
    v.NumV?
  }

  /** The value `^` gives for two NUMs: the bitwise xor of their 32-bit
      `int`s. */
  function XorVal(u: Val, v: Val): Val
  {
    if u.NumV? && v.NumV? then NumV(FromBits(Bits(u.num) ^ Bits(v.num))) else u
  }

  /** The two-cell argument list apply_2arity_fn builds. */
  function ArgCells(w: World, a: Ptr, b: Ptr): (r: Done)
  {
    var second := Alloc(w, ConsV(b, Null));
    Alloc(second.w, ConsV(a, second.obj))
  }

  /** Calling the native `^` is DEF_ARITH_OP with the C operator `^`. */
  lemma {:induction false} CallXor(g: Globals, fn: Ptr, args: Ptr, w: World, fuel: nat)
    requires Wf(w) && fn.Ref? && fn.index < |w.st| && w.st[fn.index].val == NFuncV(XorFn)
    ensures CallFn(g, fn, args, w, fuel + 2) == Arith(g, EvalAt(g, fuel), Op(BitXor), args, w, fuel)
  {
    assert Native(g, XorFn, args, w, fuel + 1) == NativeNum(g, XorFn, args, w, fuel + 1);
  }

  /** The two-cell list of two NUMs holds the two numbers. */
  lemma ArgCellsNums(w: World, a: Ptr, b: Ptr)
    requires a.Ref? && a.index < |w.st| && w.st[a.index].val.NumV?
    requires b.Ref? && b.index < |w.st| && w.st[b.index].val.NumV?
    ensures var c := ArgCells(w, a, b);
      && Nums(c.w.st, c.obj, 2, |c.w.st|)
      && c.w.st[c.obj.index].val.car == a
      && Numbers(c.w.st, c.w.st[c.obj.index].val.cdr, 1, |c.w.st|) == [w.st[b.index].val.num]
  {
    var c := ArgCells(w, a, b);
    assert Nums(c.w.st, Ref(|w.st|), 1, |c.w.st|);
  }

  /** DEF_ARITH_OP for `^` on two NUMs: a fresh NUM holding their xor. */
  lemma {:induction false} XorPair(g: Globals, a: Ptr, b: Ptr, w: World, fuel: nat)
    requires Wf(w) && fuel > 3
    requires a.Ref? && a.index < |w.st| && w.st[a.index].val.NumV?
    requires b.Ref? && b.index < |w.st| && w.st[b.index].val.NumV?
    ensures var c := ArgCells(w, a, b);
      Arith(g, EvalAt(g, fuel), Op(BitXor), c.obj, c.w, fuel) ==
        Ok(Done(Ref(|c.w.st|), World(c.w.st + [Obj(XorVal(w.st[a.index].val, w.st[b.index].val), 0)], w.chain)))
  {
    var c := ArgCells(w, a, b);
    ArgCellsNums(w, a, b);
    EvalAtLiterals(g, fuel);
    ArithNums(g, EvalAt(g, fuel), Op(BitXor), c.obj, 2, c.w, fuel);
    FoldXor(w.st[a.index].val.num, w.st[b.index].val.num);
  }

  lemma {:induction false} FoldXor(x: int, y: int)
    ensures Fold(Op(BitXor), x, [y]) == Ok(FromBits(Bits(x) ^ Bits(y)))
  {
    assert [y][1..] == [];
  }

  /** apply_2arity_fn of `^` on two NUMs: a fresh NUM holding their xor. */
  lemma {:induction false} XorCall(g: Globals, fn: Ptr, a: Ptr, b: Ptr, w0: World, w: World, fuel: nat)
    requires Wf(w) && w0.st <= w.st && w.chain == w0.chain && fuel > 6
    requires fn.Ref? && fn.index < |w0.st| && w0.st[fn.index].val == NFuncV(XorFn)
    requires a.Ref? && a.index < |w.st| && w.st[a.index].val.NumV?
    requires b.Ref? && b.index < |w.st| && w.st[b.index].val.NumV?
    ensures Holding(w0, Apply2(g, fn, a, b, w, fuel), XorVal(w.st[a.index].val, w.st[b.index].val))
  {
    var c := ArgCells(w, a, b);
    assert w.st[fn.index] == w0.st[fn.index];
    assert c.w.st[fn.index] == w.st[fn.index];
    CallXor(g, fn, c.obj, c.w, fuel - 3);
    XorPair(g, a, b, w, fuel - 3);
    assert w0.st <= c.w.st + [Obj(XorVal(w.st[a.index].val, w.st[b.index].val), 0)];
  }

  /** reduce may be given `^`: it folds NUMs into NUMs by xor. */
  lemma {:induction false} XorFolds(g: Globals, fn: Ptr, w0: World, fuel: nat)
    requires Wf(w0) && fuel > 7 && fn.Ref? && fn.index < |w0.st| && w0.st[fn.index].val == NFuncV(XorFn)
    ensures Folds(Apply2At(g, fn, fuel), IsNumVal, XorVal, w0)
  {
    forall a: Ptr, b: Ptr, w: World
      | && Wf(w) && w0.st <= w.st && w.chain == w0.chain && a.Ref? && a.index < |w.st| && IsNumVal(w.st[a.index].val)
        && b.Ref? && b.index < |w0.st| && IsNumVal(w0.st[b.index].val)
      ensures Holding(w0, Apply2At(g, fn, fuel)(a, b, w), XorVal(w.st[a.index].val, w0.st[b.index].val))
    {
      assert w.st[b.index] == w0.st[b.index];
      XorCall(g, fn, a, b, w0, w, fuel - 1);
    }
  }
}
