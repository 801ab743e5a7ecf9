/** What the loop of tlisp_filter (src/builtins.c:985-1016) produces: the
    elements for which the function answers with the `true` singleton, in
    order, in a list of fresh cells; nil when it keeps none. The kept cells
    hold the elements themselves, not copies. */
module ListFilter {
  import opened Base
  import opened Core
  import opened Builtins
  import Lists
  import opened ListBuild

  // ---------------------------------------------------------------------
  // The specification

  /** The elements of `xs` that `keep` accepts, in order. */
  ghost function Kept(xs: seq<Ptr>, keep: Ptr -> bool): (r: seq<Ptr>)
    ensures |r| <= |xs|
    decreases |xs|
  {
    if xs == [] then []
    else
      var last := xs[|xs| - 1];
      Kept(xs[..|xs| - 1], keep) + (if keep(last) then [last] else [])
  }

  /** An object is kept exactly when it is one of `xs` and `keep` accepts it. */
  lemma {:induction false} KeptMembers(xs: seq<Ptr>, keep: Ptr -> bool, x: Ptr)
    ensures x in Kept(xs, keep) <==> x in xs && keep(x)
    decreases |xs|
  {
    if xs != [] {
      var init, last := xs[..|xs| - 1], xs[|xs| - 1];
      assert xs == init + [last];
      KeptMembers(init, keep, x);
    }
  }

  /** Keeping the elements of one more element than before. */
  lemma KeptNext(xs: seq<Ptr>, keep: Ptr -> bool, k: nat)
    requires k < |xs|
    ensures Kept(xs[..k + 1], keep) == Kept(xs[..k], keep) + (if keep(xs[k]) then [xs[k]] else [])
  {
    assert xs[..k + 1][..k] == xs[..k];
  }

  /** A call that succeeds, in a state that extends `w`'s and has its scope
      chain, with the `true` singleton `t` exactly when `b`. */
  ghost predicate Answers(w: World, r: Res<Done>, t: Ptr, b: bool)
  {
    r.Ok? && Wf(r.value.w) && w.st <= r.value.w.st && r.value.w.chain == w.chain && (r.value.obj == t <==> b)
  }

  /** `ap` answers `t` on each object of `w0` whose value is in `dom` exactly
      when `keep` accepts it, in every state that extends `w0`'s and has its
      scope chain. */
  ghost predicate Decides(ap: Evaluator, t: Ptr, dom: Val -> bool, keep: Ptr -> bool, w0: World)
  {
    forall x: Ptr, w: World {:trigger Answers(w, ap(x, w), t, keep(x))}
      | Wf(w) && w0.st <= w.st && w.chain == w0.chain && x.Ref? && x.index < |w0.st| && dom(w0.st[x.index].val) ::
      ap.requires(x, w) ==> Answers(w, ap(x, w), t, keep(x))
  }

  /** The result of a filter: `nil` when it kept nothing, otherwise a list
      of fresh cells whose elements are `ys`; in a state that extends
      `w0`'s and has its scope chain. */
  ghost predicate Sifted(w0: World, nil: Ptr, ys: seq<Ptr>, d: Done)
  {
    && Wf(d.w) && w0.st <= d.w.st && d.w.chain == w0.chain
    && (ys == [] ==> d.obj == nil)
    && (ys != [] ==>
          && Lists.Cells(d.w.st, d.obj).Ok? && (forall c | c in Lists.Cells(d.w.st, d.obj).value :: |w0.st| <= c)
          && Lists.Elements(d.w.st, d.obj) == Ok(ys))
  }

  /** A call that ends by having filtered out the list `ys`. */
  ghost predicate Filtered(w0: World, nil: Ptr, ys: seq<Ptr>, r: Res<Done>)
  {
    r.Ok? && Sifted(w0, nil, ys, r.value)
  }

  // ---------------------------------------------------------------------
  // The loop

  /** The loop of tlisp_filter having looked at the first `k` elements of
      the list `ins` of `w0`: that list is intact, the chain of fresh cells
      `outs` holds those of them that were kept, `res` is its head and
      `curr` its last cell (both NULL while nothing is kept). */
  ghost predicate Sifting(w0: World, ins: seq<nat>, xs: seq<Ptr>, dom: Val -> bool, keep: Ptr -> bool,
                          k: nat, w: World, outs: seq<nat>, res: Ptr, curr: Ptr)
  {
    && Wf(w) && w0.st <= w.st && w.chain == w0.chain
    && Chained(w0.st, ins, xs) && AllIn(w0.st, xs, dom) && k <= |ins|
    && Linked(w.st, outs, Kept(xs[..k], keep))
    && (forall j | 0 <= j < |outs| :: |w0.st| <= outs[j])
    && res == (if outs == [] then Null else Ref(outs[0]))
    && curr == (if outs == [] then Null else Ref(outs[|outs| - 1]))
  }

  /** The rest of the loop of tlisp_filter. Stating the loop lemmas through
      this non-recursive name keeps the verifier from unfolding the loop
      when it checks them. */
  ghost function FilterRest(g: Globals, ap: Evaluator, list: Ptr, res: Ptr, curr: Ptr, w: World, fuel: nat): Res<Done>
    requires Wf(w) && Evaluates(ap)
  {
    FilterLoop(g, ap, list, res, curr, w, fuel)
  }

  /** What a turn that keeps the element does after the call: allocate a
      cell, link it after `curr` (or make it the head), fill it with the
      element. The new cell is `Ref(|w.st|)`. */
  ghost function KeepTurn(w: World, list: Ptr, res: Ptr, curr: Ptr): Res<World>
  {
    var c := Alloc(w, ConsV(Null, Null));
    var w1 :- if res == Null then Ok(c.w) else SetCdr(c.w, curr, c.obj);
    var y :- Car(w1.st, list);
    SetCar(w1, c.obj, y)
  }

  /** A turn of the loop of tlisp_filter that keeps the element. */
  lemma FilterLoopKeep(g: Globals, ap: Evaluator, list: Ptr, x: Ptr, res: Ptr, curr: Ptr, w: World, fuel: nat)
    requires Wf(w) && Evaluates(ap) && fuel > 0 && list != Null && Car(w.st, list) == Ok(x)
    requires ap(x, w).Ok? && ap(x, w).value.obj == g.t
    requires var e := ap(x, w).value; KeepTurn(e.w, list, res, curr).Ok?
    requires var e := ap(x, w).value; Cdr(KeepTurn(e.w, list, res, curr).value.st, list).Ok?
    ensures var e := ap(x, w).value; var w2 := KeepTurn(e.w, list, res, curr).value;
      && Wf(w2)
      && FilterRest(g, ap, list, res, curr, w, fuel) ==
         FilterRest(g, ap, Cdr(w2.st, list).value, if res == Null then Ref(|e.w.st|) else res, Ref(|e.w.st|), w2, fuel - 1)
  {
  }

  /** A turn of the loop of tlisp_filter that skips the element. */
  lemma FilterLoopSkip(g: Globals, ap: Evaluator, list: Ptr, x: Ptr, res: Ptr, curr: Ptr, w: World, fuel: nat)
    requires Wf(w) && Evaluates(ap) && fuel > 0 && list != Null && Car(w.st, list) == Ok(x)
    requires ap(x, w).Ok? && ap(x, w).value.obj != g.t && Cdr(ap(x, w).value.w.st, list).Ok?
    ensures var e := ap(x, w).value;
      FilterRest(g, ap, list, res, curr, w, fuel) == FilterRest(g, ap, Cdr(e.w.st, list).value, res, curr, e.w, fuel - 1)
  {
  }

  /** The end of the loop of tlisp_filter. */
  lemma FilterLoopLast(g: Globals, ap: Evaluator, res: Ptr, curr: Ptr, w: World, fuel: nat)
    requires Wf(w) && Evaluates(ap) && fuel > 0
    ensures FilterRest(g, ap, Null, res, curr, w, fuel) == Ok(Done(if res == Null then g.nil else res, w))
  {
  }

  /** The loop of tlisp_filter from its `k`-th element on ends with the kept
      elements of the whole list. */
  lemma {:induction false} FilterLoopResult(g: Globals, ap: Evaluator, dom: Val -> bool, keep: Ptr -> bool, w0: World,
                                            ins: seq<nat>, xs: seq<Ptr>, k: nat, w: World, outs: seq<nat>,
                                            list: Ptr, res: Ptr, curr: Ptr, fuel: nat, zs: seq<Ptr>)
    requires Evaluates(ap) && Decides(ap, g.t, dom, keep, w0)
    requires Sifting(w0, ins, xs, dom, keep, k, w, outs, res, curr) && fuel > |ins| - k
    requires list == (if k < |ins| then Ref(ins[k]) else Null) && zs == Kept(xs, keep)
    ensures Filtered(w0, g.nil, zs, FilterRest(g, ap, list, res, curr, w, fuel))
    decreases |ins| - k, 1
  {
    if k == |ins| {
      FilterLoopLast(g, ap, res, curr, w, fuel);
      assert xs[..k] == xs;
      if outs != [] {
        LinkedElements(w.st, outs, Kept(xs, keep));
      }
    } else {
      FilterLoopTurn(g, ap, dom, keep, w0, ins, xs, k, w, outs, list, res, curr, fuel, zs);
    }
  }

  /** The inductive step of FilterLoopResult: one more turn, then the rest. */
  lemma {:induction false} FilterLoopTurn(g: Globals, ap: Evaluator, dom: Val -> bool, keep: Ptr -> bool, w0: World,
                                          ins: seq<nat>, xs: seq<Ptr>, k: nat, w: World, outs: seq<nat>,
                                          list: Ptr, res: Ptr, curr: Ptr, fuel: nat, zs: seq<Ptr>)
    requires Evaluates(ap) && Decides(ap, g.t, dom, keep, w0)
    requires Sifting(w0, ins, xs, dom, keep, k, w, outs, res, curr) && k < |ins| && fuel > |ins| - k
    requires list == Ref(ins[k]) && zs == Kept(xs, keep)
    ensures Filtered(w0, g.nil, zs, FilterRest(g, ap, list, res, curr, w, fuel))
    decreases |ins| - k, 0
  {
    var next, w2, outs2, res2, curr2 := SiftAdvance(g, ap, dom, keep, w0, ins, xs, k, w, outs, list, res, curr, fuel, zs);
    FilterLoopResult(g, ap, dom, keep, w0, ins, xs, k + 1, w2, outs2, next, res2, curr2, fuel - 1, zs);
  }

  /** A turn of the loop of tlisp_filter keeps `Sifting`, and leaves the
      rest of the loop to do from the next element on. */
  lemma SiftAdvance(g: Globals, ap: Evaluator, dom: Val -> bool, keep: Ptr -> bool, w0: World,
                    ins: seq<nat>, xs: seq<Ptr>, k: nat, w: World, outs: seq<nat>,
                    list: Ptr, res: Ptr, curr: Ptr, fuel: nat, zs: seq<Ptr>)
    returns (next: Ptr, w2: World, outs2: seq<nat>, res2: Ptr, curr2: Ptr)
    requires Evaluates(ap) && Decides(ap, g.t, dom, keep, w0)
    requires Sifting(w0, ins, xs, dom, keep, k, w, outs, res, curr) && k < |ins| && fuel > 0
    requires list == Ref(ins[k])
    ensures Sifting(w0, ins, xs, dom, keep, k + 1, w2, outs2, res2, curr2)
    ensures next == if k + 1 < |ins| then Ref(ins[k + 1]) else Null
    ensures Filtered(w0, g.nil, zs, FilterRest(g, ap, next, res2, curr2, w2, fuel - 1)) ==>
      Filtered(w0, g.nil, zs, FilterRest(g, ap, list, res, curr, w, fuel))
  {
    next := if k + 1 < |ins| then Ref(ins[k + 1]) else Null;
    Intact(w0.st, w.st, ins, xs, k);
    assert Answers(w, ap(xs[k], w), g.t, keep(xs[k]));
    var e := ap(xs[k], w).value;
    if e.obj == g.t {
      SiftKeep(w0, ins, xs, dom, keep, k, w, e.w, outs, res, curr);
      w2 := KeepTurn(e.w, list, res, curr).value;
      outs2, res2, curr2 := outs + [|e.w.st|], if res == Null then Ref(|e.w.st|) else res, Ref(|e.w.st|);
      FilterLoopKeep(g, ap, list, xs[k], res, curr, w, fuel);
    } else {
      SiftSkip(w0, ins, xs, dom, keep, k, w, e.w, outs, res, curr);
      w2, outs2, res2, curr2 := e.w, outs, res, curr;
      FilterLoopSkip(g, ap, list, xs[k], res, curr, w, fuel);
    }
  }

  /** Keeping element `k` after the call left the state `we`: one more
      fresh cell, linked after the last and holding the element. */
  lemma SiftKeep(w0: World, ins: seq<nat>, xs: seq<Ptr>, dom: Val -> bool, keep: Ptr -> bool,
                 k: nat, w: World, we: World, outs: seq<nat>, res: Ptr, curr: Ptr)
    requires Sifting(w0, ins, xs, dom, keep, k, w, outs, res, curr) && k < |ins| && keep(xs[k])
    requires Wf(we) && w.st <= we.st && we.chain == w.chain
    ensures KeepTurn(we, Ref(ins[k]), res, curr).Ok?
    ensures var w2 := KeepTurn(we, Ref(ins[k]), res, curr).value;
      && Sifting(w0, ins, xs, dom, keep, k + 1, w2, outs + [|we.st|], if res == Null then Ref(|we.st|) else res, Ref(|we.st|))
      && Cdr(w2.st, Ref(ins[k])) == Ok(if k + 1 < |ins| then Ref(ins[k + 1]) else Null)
  {
    KeptNext(xs, keep, k);
    var ys, n := Kept(xs[..k], keep), |we.st|;
    var w1 := SiftLink(w0, ins, xs, dom, keep, k, w, we, outs, res, curr);
    Intact(w0.st, w1.st, ins, xs, k);
    var w2 := SetCar(w1, Ref(n), xs[k]).value;
    LinkedFill(w1, outs + [n], ys + [Null], xs[k], w2);
    assert (ys + [Null])[|ys| := xs[k]] == ys + [xs[k]];
    Extended(w0.st, w1.st, w2.st, n);
    Intact(w0.st, w2.st, ins, xs, k);
    assert KeepTurn(we, Ref(ins[k]), res, curr) == Ok(w2);
    var outs2 := outs + [n];
    assert Kept(xs[..k + 1], keep) == ys + [xs[k]];
    assert outs2[0] == (if outs == [] then n else outs[0]) && outs2[|outs2| - 1] == n;
  }

  /** The first half of keeping element `k`: the new empty cell, made the
      head or linked after the last cell. */
  lemma SiftLink(w0: World, ins: seq<nat>, xs: seq<Ptr>, dom: Val -> bool, keep: Ptr -> bool,
                 k: nat, w: World, we: World, outs: seq<nat>, res: Ptr, curr: Ptr)
    returns (w1: World)
    requires Sifting(w0, ins, xs, dom, keep, k, w, outs, res, curr) && k < |ins|
    requires Wf(we) && w.st <= we.st && we.chain == w.chain
    ensures var c := Alloc(we, ConsV(Null, Null));
      (if res == Null then Ok(c.w) else SetCdr(c.w, curr, c.obj)) == Ok(w1)
    ensures Wf(w1) && w0.st <= w1.st && w1.chain == w0.chain && |w1.st| == |we.st| + 1
    ensures Linked(w1.st, outs + [|we.st|], Kept(xs[..k], keep) + [Null])
    ensures forall j | 0 <= j < |outs| + 1 :: |w0.st| <= (outs + [|we.st|])[j]
  {
    var ys := Kept(xs[..k], keep);
    SiftGrown(w0, ins, xs, dom, keep, k, w, we, outs, res, curr);
    if res == Null {
      w1 := Alloc(we, ConsV(Null, Null)).w;
      LinkedFirst(we);
      assert outs + [|we.st|] == [|we.st|] && ys + [Null] == [Null];
    } else {
      w1 := SiftAfter(w0, we, outs, ys, curr);
    }
  }

  /** The kept cells survive the call, and lie between `w0`'s objects and
      the new one. */
  lemma SiftGrown(w0: World, ins: seq<nat>, xs: seq<Ptr>, dom: Val -> bool, keep: Ptr -> bool,
                  k: nat, w: World, we: World, outs: seq<nat>, res: Ptr, curr: Ptr)
    requires Sifting(w0, ins, xs, dom, keep, k, w, outs, res, curr)
    requires Wf(we) && w.st <= we.st && we.chain == w.chain
    ensures Linked(we.st, outs, Kept(xs[..k], keep)) && w0.st <= we.st && we.chain == w0.chain
    ensures forall j | 0 <= j < |outs| :: |w0.st| <= outs[j] < |we.st|
    ensures res == Null <==> outs == []
    ensures outs == [] ==> Kept(xs[..k], keep) == []
    ensures outs != [] ==> curr == Ref(outs[|outs| - 1])
  {
    var ys := Kept(xs[..k], keep);
    LinkedGrows(w.st, we.st, outs, ys);
    forall j | 0 <= j < |outs| ensures outs[j] < |w.st| {
      LinkedAt(w.st, outs, ys, j);
    }
  }

  /** A new empty cell linked after the last of the kept cells `outs`. */
  lemma SiftAfter(w0: World, we: World, outs: seq<nat>, ys: seq<Ptr>, curr: Ptr) returns (w1: World)
    requires Wf(we) && w0.st <= we.st && we.chain == w0.chain
    requires Linked(we.st, outs, ys) && outs != [] && curr == Ref(outs[|outs| - 1])
    requires forall j | 0 <= j < |outs| :: |w0.st| <= outs[j] < |we.st|
    ensures var c := Alloc(we, ConsV(Null, Null)); SetCdr(c.w, curr, c.obj) == Ok(w1)
    ensures Wf(w1) && w0.st <= w1.st && w1.chain == w0.chain && |w1.st| == |we.st| + 1
    ensures Linked(w1.st, outs + [|we.st|], ys + [Null])
  {
    var c := Alloc(we, ConsV(Null, Null));
    w1 := SetCdr(c.w, curr, c.obj).value;
    LinkedLink(we, outs, ys, w1);
    Extended(w0.st, we.st, w1.st, outs[|outs| - 1]);
  }

  /** Skipping element `k` after the call left the state `we`. */
  lemma SiftSkip(w0: World, ins: seq<nat>, xs: seq<Ptr>, dom: Val -> bool, keep: Ptr -> bool,
                 k: nat, w: World, we: World, outs: seq<nat>, res: Ptr, curr: Ptr)
    requires Sifting(w0, ins, xs, dom, keep, k, w, outs, res, curr) && k < |ins| && !keep(xs[k])
    requires Wf(we) && w.st <= we.st && we.chain == w.chain
    ensures Sifting(w0, ins, xs, dom, keep, k + 1, we, outs, res, curr)
    ensures Cdr(we.st, Ref(ins[k])) == Ok(if k + 1 < |ins| then Ref(ins[k + 1]) else Null)
  {
    KeptNext(xs, keep, k);
    LinkedGrows(w.st, we.st, outs, Kept(xs[..k], keep));
    Intact(w0.st, we.st, ins, xs, k);
  }

  /** tlisp_filter after its checks (src/builtins.c:1000-1015): for a
      function that answers `true` on exactly the elements `keep` accepts,
      a list of fresh cells holding those elements in order, or nil when
      there are none. */
  lemma FilterListResult(g: Globals, ap: Evaluator, dom: Val -> bool, keep: Ptr -> bool, list: Ptr, w: World, fuel: nat)
    requires Wf(w) && Evaluates(ap) && Decides(ap, g.t, dom, keep, w)
    requires Lists.Cells(w.st, list).Ok? && AllIn(w.st, Lists.Elements(w.st, list).value, dom)
    requires fuel > |Lists.Cells(w.st, list).value|
    ensures Filtered(w, g.nil, Kept(Lists.Elements(w.st, list).value, keep), FilterLoop(g, ap, list, Null, Null, w, fuel))
  {
    var ins, xs := Lists.Cells(w.st, list).value, Lists.Elements(w.st, list).value;
    ListChained(w.st, list);
    assert xs[..0] == [];
    assert list == (if 0 < |ins| then Ref(ins[0]) else Null);
    FilterLoopResult(g, ap, dom, keep, w, ins, xs, 0, w, [], list, Null, Null, fuel, Kept(xs, keep));
  }
}
