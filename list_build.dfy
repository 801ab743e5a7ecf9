/** What the list-building loops of src/builtins.c produce: tlisp_list,
    tlisp_map, tlisp_filter, tlisp_reduce and tlisp_for_each, stated for
    any function that behaves as a function of the element's value.

    A loop builds its result as a chain of fresh cells (`Linked`): each new
    cell is allocated, linked after the previous one and only then filled.
    The function applied to the elements may allocate, but must leave the
    objects that exist untouched (`w.st <= w'.st`: the old store is a
    prefix of the new one) and the scope chain as it was. */
module ListBuild {
  import opened Base
  import opened Core
  import opened Builtins
  import Lists
  import opened ListSpec

  // ---------------------------------------------------------------------
  // Chains of cells

  /** `cells` are cons cells of `st`, each holding the matching element of
      `cars` and linked to the next; the last ends the list. */
  ghost predicate Chained(st: Store, cells: seq<nat>, cars: seq<Ptr>)
  {
    && |cells| == |cars|
    && (forall i | 0 <= i < |cells| ::
          && cells[i] < |st| && st[cells[i]].val.ConsV? && st[cells[i]].val.car == cars[i]
          && st[cells[i]].val.cdr == if i + 1 < |cells| then Ref(cells[i + 1]) else Null)
  }

  /** A chain of cells in increasing order, as the loops allocate them. */
  ghost predicate Linked(st: Store, cells: seq<nat>, cars: seq<Ptr>)
  {
    && Chained(st, cells, cars)
    && (forall i | 0 <= i < |cells| - 1 :: cells[i] < cells[i + 1])
  }

  /** The `car`s of the cells `cs`. */
  ghost function Cars(st: Store, cs: seq<nat>): (r: seq<Ptr>)
    requires forall i | 0 <= i < |cs| :: cs[i] < |st| && st[cs[i]].val.ConsV?
    ensures |r| == |cs| && forall i | 0 <= i < |cs| :: r[i] == st[cs[i]].val.car
  {
    seq(|cs|, i requires 0 <= i < |cs| => st[cs[i]].val.car)
  }

  /** Cell `i` of a chain. */
  lemma ChainedAt(st: Store, cells: seq<nat>, cars: seq<Ptr>, i: int)
    requires Chained(st, cells, cars) && 0 <= i < |cells|
    ensures cells[i] < |st| && st[cells[i]].val.ConsV? && st[cells[i]].val.car == cars[i]
    ensures st[cells[i]].val.cdr == if i + 1 < |cells| then Ref(cells[i + 1]) else Null
  {
  }

  /** Every list is a chain of its cells and elements. */
  lemma {:induction false} WalkChained(st: Store, p: Ptr, steps: nat)
    requires steps <= |st| && Lists.CellsFrom(st, p, steps).Ok?
    ensures var cs := Lists.CellsFrom(st, p, steps).value;
      Chained(st, cs, Cars(st, cs))
    decreases |st| - steps
  {
    if p != Null {
      var next := st[p.index].val.cdr;
      WalkChained(st, next, steps + 1);
      var cs := Lists.CellsFrom(st, p, steps).value;
      assert forall i | 0 <= i < |cs| :: Lists.IsCell(st, Ref(cs[i]));
      var rest := Lists.CellsFrom(st, next, steps + 1).value;
      assert cs == [p.index] + rest;
      assert rest == [] <==> next == Null;
      var cars := Cars(st, cs);
      forall i | 0 <= i < |cs|
        ensures && cs[i] < |st| && st[cs[i]].val.ConsV? && st[cs[i]].val.car == cars[i]
                && st[cs[i]].val.cdr == if i + 1 < |cs| then Ref(cs[i + 1]) else Null
      {
        assert Lists.IsCell(st, Ref(cs[i]));
        if i > 0 {
          ChainedAt(st, rest, Cars(st, rest), i - 1);
          assert cs[i] == rest[i - 1];
        } else if rest != [] {
          assert rest[0] == next.index;
        }
      }
      assert |cars| == |cs|;
      assert Chained(st, cs, cars);
    }
  }

  lemma ListChained(st: Store, p: Ptr)
    requires Lists.Cells(st, p).Ok?
    ensures Chained(st, Lists.Cells(st, p).value, Lists.Elements(st, p).value)
  {
    WalkChained(st, p, 0);
    var cs := Lists.Cells(st, p).value;
    assert Lists.Elements(st, p).value == Cars(st, cs);
  }

  /** Cell `i` of a chain. */
  lemma LinkedAt(st: Store, cells: seq<nat>, cars: seq<Ptr>, i: int)
    requires Linked(st, cells, cars) && 0 <= i < |cells|
    ensures cells[i] < |st| && st[cells[i]].val == ConsV(cars[i], if i + 1 < |cells| then Ref(cells[i + 1]) else Null)
  {
  }

  lemma {:induction false} LinkedAbove(st: Store, cells: seq<nat>, cars: seq<Ptr>, k: nat)
    requires Linked(st, cells, cars) && k < |cells|
    ensures cells[k] >= k
  {
    if k > 0 {
      LinkedAbove(st, cells, cars, k - 1);
    }
  }

  lemma {:induction false} LinkedWalk(st: Store, cells: seq<nat>, cars: seq<Ptr>, k: nat)
    requires Linked(st, cells, cars) && k < |cells|
    ensures k <= |st| && Lists.CellsFrom(st, Ref(cells[k]), k) == Ok(cells[k..])
    decreases |cells| - k
  {
    LinkedAbove(st, cells, cars, k);
    LinkedAt(st, cells, cars, k);
    if k + 1 < |cells| {
      LinkedWalk(st, cells, cars, k + 1);
      assert cells[k..] == [cells[k]] + cells[k + 1..];
    } else {
      assert Lists.CellsFrom(st, st[cells[k]].val.cdr, k + 1) == Ok([]);
      assert [cells[k]] + [] == [cells[k]] == cells[k..];
    }
  }

  /** A chain is the list of its cells, and its elements are its `car`s. */
  lemma LinkedElements(st: Store, cells: seq<nat>, cars: seq<Ptr>)
    requires Linked(st, cells, cars) && |cells| > 0
    ensures Lists.Cells(st, Ref(cells[0])) == Ok(cells)
    ensures Lists.Elements(st, Ref(cells[0])) == Ok(cars)
  {
    LinkedWalk(st, cells, cars, 0);
    assert cells[0..] == cells;
    var es := Lists.Elements(st, Ref(cells[0])).value;
    forall i | 0 <= i < |es|
      ensures es[i] == cars[i]
    {
      LinkedAt(st, cells, cars, i);
    }
    assert es == cars;
  }

  /** A chain survives anything that only adds objects. */
  lemma LinkedGrows(st: Store, st2: Store, cells: seq<nat>, cars: seq<Ptr>)
    requires Linked(st, cells, cars) && st <= st2
    ensures Linked(st2, cells, cars)
  {
    assert forall i | 0 <= i < |cells| :: st2[cells[i]] == st[cells[i]];
  }

  /** The first cell of a chain: allocated empty. */
  lemma LinkedFirst(w: World)
    ensures Linked(Alloc(w, ConsV(Null, Null)).w.st, [|w.st|], [Null])
  {
  }

  /** A new empty cell allocated and linked after the last cell of a
      chain extends the chain. */
  lemma LinkedLink(w: World, cells: seq<nat>, cars: seq<Ptr>, w1: World)
    requires Linked(w.st, cells, cars) && |cells| > 0
    requires var c := Alloc(w, ConsV(Null, Null));
      SetCdr(c.w, Ref(cells[|cells| - 1]), c.obj) == Ok(w1)
    ensures Linked(w1.st, cells + [|w.st|], cars + [Null])
    ensures w1.chain == w.chain && |w1.st| == |w.st| + 1
    ensures forall i | 0 <= i < |w.st| && i != cells[|cells| - 1] :: w1.st[i] == w.st[i]
  {
    var cells2, cars2 := cells + [|w.st|], cars + [Null];
    forall i | 0 <= i < |cells2|
      ensures && cells2[i] < |w1.st| && w1.st[cells2[i]].val.ConsV? && w1.st[cells2[i]].val.car == cars2[i]
              && w1.st[cells2[i]].val.cdr == if i + 1 < |cells2| then Ref(cells2[i + 1]) else Null
    {
      if i < |cells| - 1 {
        assert cells[i] < cells[|cells| - 1] by {
          LinkedOrdered(w.st, cells, cars, i, |cells| - 1);
        }
      }
    }
  }

  lemma {:induction false} LinkedOrdered(st: Store, cells: seq<nat>, cars: seq<Ptr>, i: nat, j: nat)
    requires Linked(st, cells, cars) && i < j < |cells|
    ensures cells[i] < cells[j]
    decreases j - i
  {
    if i + 1 < j {
      LinkedOrdered(st, cells, cars, i + 1, j);
    }
  }

  /** Filling the last cell of a chain. */
  lemma LinkedFill(w: World, cells: seq<nat>, cars: seq<Ptr>, y: Ptr, w1: World)
    requires Linked(w.st, cells, cars) && |cells| > 0
    requires SetCar(w, Ref(cells[|cells| - 1]), y) == Ok(w1)
    ensures Linked(w1.st, cells, cars[|cars| - 1 := y])
    ensures w1.chain == w.chain && |w1.st| == |w.st|
    ensures forall i | 0 <= i < |w.st| && i != cells[|cells| - 1] :: w1.st[i] == w.st[i]
  {
    var cars2 := cars[|cars| - 1 := y];
    forall i | 0 <= i < |cells|
      ensures && cells[i] < |w1.st| && w1.st[cells[i]].val.ConsV? && w1.st[cells[i]].val.car == cars2[i]
              && w1.st[cells[i]].val.cdr == if i + 1 < |cells| then Ref(cells[i + 1]) else Null
    {
      LinkedAt(w.st, cells, cars, i);
      if i < |cells| - 1 {
        LinkedOrdered(w.st, cells, cars, i, |cells| - 1);
      }
    }
  }

  /** A list's cells survive anything that only adds objects. */
  lemma Intact(st0: Store, st: Store, ins: seq<nat>, xs: seq<Ptr>, j: int)
    requires Chained(st0, ins, xs) && st0 <= st && 0 <= j < |ins|
    ensures Car(st, Ref(ins[j])) == Ok(xs[j])
    ensures Cdr(st, Ref(ins[j])) == Ok(if j + 1 < |ins| then Ref(ins[j + 1]) else Null)
  {
    assert st[ins[j]] == st0[ins[j]];
  }

  /** A store that differs from `st` only in object `c`, which is not one of
      `st0`'s, and may be longer, still extends `st0`. */
  lemma Extended(st0: Store, st: Store, st1: Store, c: nat)
    requires st0 <= st && |st| <= |st1| && |st0| <= c
    requires forall i | 0 <= i < |st| && i != c :: st1[i] == st[i]
    ensures st0 <= st1
  {
    assert st1[..|st0|] == st0 by {
      forall i | 0 <= i < |st0|
        ensures st1[i] == st0[i]
      {
        assert st0[i] == st[i];
      }
    }
  }

  // ---------------------------------------------------------------------
  // Functions of the element's value

  /** Objects of `st` whose values are in `dom`. */
  ghost predicate AllIn(st: Store, xs: seq<Ptr>, dom: Val -> bool)
  {
    forall i | 0 <= i < |xs| :: xs[i].Ref? && xs[i].index < |st| && dom(st[xs[i].index].val)
  }

  /** `f` of the values of the objects `xs`. */
  ghost function Image(st: Store, xs: seq<Ptr>, f: Val -> Val): (r: seq<Val>)
    requires forall i | 0 <= i < |xs| :: xs[i].Ref? && xs[i].index < |st|
    ensures |r| == |xs| && forall i | 0 <= i < |xs| :: r[i] == f(st[xs[i].index].val)
  {
    seq(|xs|, i requires 0 <= i < |xs| => f(st[xs[i].index].val))
  }

  /** A call that succeeds with an object holding `v`, one that existed
      before `w0` or is new, in a state that extends `w`'s and has its
      scope chain. */
  ghost predicate Gives(w0: World, w: World, r: Res<Done>, v: Val)
  {
    && r.Ok? && w.st <= r.value.w.st && r.value.w.chain == w.chain
    && r.value.obj.Ref? && r.value.obj.index < |r.value.w.st| && r.value.w.st[r.value.obj.index].val == v
    && (r.value.obj.index < |w0.st| || |w.st| <= r.value.obj.index)
  }

  /** `ap` computes `f` of the value of each object of `w0` whose value is in
      `dom`, in every state that extends `w0`'s and has its scope chain
      (where `ap` is defined, which `Evaluates` makes everywhere). */
  ghost predicate Transforms(ap: Evaluator, dom: Val -> bool, f: Val -> Val, w0: World)
  {
    forall x: Ptr, w: World {:trigger Gives(w0, w, ap(x, w), f(w0.st[x.index].val))}
      | Wf(w) && w0.st <= w.st && w.chain == w0.chain && x.Ref? && x.index < |w0.st| && dom(w0.st[x.index].val) ::
      ap.requires(x, w) ==> Gives(w0, w, ap(x, w), f(w0.st[x.index].val))
  }

  /** A mapping loop that has filled the cells `outs`: the list `ins` of
      `w0` is intact, and the new cells hold, in order, objects holding `f`
      of the values of the first `|outs|` elements. */
  ghost predicate Building(w0: World, ins: seq<nat>, xs: seq<Ptr>, dom: Val -> bool, f: Val -> Val,
                           w: World, outs: seq<nat>, ys: seq<Ptr>)
  {
    && Wf(w) && w0.st <= w.st && w.chain == w0.chain
    && Chained(w0.st, ins, xs) && AllIn(w0.st, xs, dom) && 0 < |outs| <= |ins|
    && Linked(w.st, outs, ys)
    && (forall j | 0 <= j < |outs| :: |w0.st| <= outs[j])
    && (forall j | 0 <= j < |ys| ::
          && ys[j].Ref? && ys[j].index < |w.st| && ys[j].index !in outs
          && w.st[ys[j].index].val == f(w0.st[xs[j].index].val))
  }

  /** The first cell: allocated, then filled with the result for the first
      element. */
  lemma BuildFirst(ap: Evaluator, dom: Val -> bool, f: Val -> Val, w0: World, ins: seq<nat>, xs: seq<Ptr>)
    requires Wf(w0) && Evaluates(ap) && Transforms(ap, dom, f, w0)
    requires Chained(w0.st, ins, xs) && AllIn(w0.st, xs, dom) && |ins| > 0
    ensures var res := Alloc(w0, ConsV(Null, Null));
      && Car(res.w.st, Ref(ins[0])) == Ok(xs[0]) && Wf(res.w) && ap(xs[0], res.w).Ok?
      && var e := ap(xs[0], res.w).value;
         SetCar(e.w, res.obj, e.obj).Ok?
         && Building(w0, ins, xs, dom, f, SetCar(e.w, res.obj, e.obj).value, [|w0.st|], [e.obj])
  {
    var res := Alloc(w0, ConsV(Null, Null));
    Intact(w0.st, res.w.st, ins, xs, 0);
    assert Gives(w0, res.w, ap(xs[0], res.w), f(w0.st[xs[0].index].val));
    var e := ap(xs[0], res.w).value;
    LinkedFirst(w0);
    LinkedGrows(res.w.st, e.w.st, [|w0.st|], [Null]);
    var w2 := SetCar(e.w, res.obj, e.obj).value;
    LinkedFill(e.w, [|w0.st|], [Null], e.obj, w2);
    Extended(w0.st, e.w.st, w2.st, |w0.st|);
    assert [Null][0 := e.obj] == [e.obj];
  }

  /** One turn of the loops of tlisp_list and tlisp_map after the end test:
      a new empty cell is linked after `curr`, the function is applied to the
      `car` of `next`, and the result goes into the new cell. The new cell is
      always `Ref(|w.st|)`; the object is the function's result. */
  ghost function Turn(ap: Evaluator, w: World, curr: Ptr, next: Ptr): (r: Res<Done>)
    requires Wf(w) && Evaluates(ap)
    ensures r.Ok? ==> Wf(r.value.w)
  {
    var c := Alloc(w, ConsV(Null, Null));
    var w1 :- SetCdr(c.w, curr, c.obj);
    var x :- Car(w1.st, next);
    var e :- ap(x, w1);
    var w2 :- SetCar(e.w, c.obj, e.obj);
    Ok(Done(e.obj, w2))
  }

  /** One more cell: allocated, linked after the last, then filled with the
      result for the next element. */
  lemma BuildStep(ap: Evaluator, dom: Val -> bool, f: Val -> Val, w0: World, ins: seq<nat>, xs: seq<Ptr>,
                  w: World, outs: seq<nat>, ys: seq<Ptr>)
    requires Evaluates(ap) && Transforms(ap, dom, f, w0)
    requires Building(w0, ins, xs, dom, f, w, outs, ys) && |outs| < |ins|
    ensures var t := Turn(ap, w, Ref(outs[|outs| - 1]), Ref(ins[|outs|]));
      t.Ok? && Building(w0, ins, xs, dom, f, t.value.w, outs + [|w.st|], ys + [t.value.obj])
  {
    var c, k := Alloc(w, ConsV(Null, Null)), |outs|;
    LinkedAt(w.st, outs, ys, k - 1);
    var w1 := SetCdr(c.w, Ref(outs[k - 1]), c.obj).value;
    LinkedLink(w, outs, ys, w1);
    Extended(w0.st, w.st, w1.st, outs[k - 1]);
    Intact(w0.st, w1.st, ins, xs, k);
    assert Gives(w0, w1, ap(xs[k], w1), f(w0.st[xs[k].index].val));
    var e := ap(xs[k], w1).value;
    var outs2, ys2 := outs + [|w.st|], ys + [e.obj];
    LinkedGrows(w1.st, e.w.st, outs2, ys + [Null]);
    var w2 := SetCar(e.w, c.obj, e.obj).value;
    LinkedFill(e.w, outs2, ys + [Null], e.obj, w2);
    assert (ys + [Null])[|ys| := e.obj] == ys2;
    Extended(w0.st, e.w.st, w2.st, |w.st|);
    BuildValues(w0, xs, f, w, outs, ys, w1, e, w2, outs2, ys2);
    assert Turn(ap, w, Ref(outs[k - 1]), Ref(ins[k])) == Ok(Done(e.obj, w2));
  }

  /** The objects of the cells after BuildStep: those of the earlier cells
      are untouched, and the new one holds the function's result, which is
      neither one of the cells nor in the part of the store they replace. */
  lemma BuildValues(w0: World, xs: seq<Ptr>, f: Val -> Val, w: World, outs: seq<nat>, ys: seq<Ptr>,
                    w1: World, e: Done, w2: World, outs2: seq<nat>, ys2: seq<Ptr>)
    requires 0 < |outs| == |ys| < |xs| && outs2 == outs + [|w.st|] && ys2 == ys + [e.obj]
    requires Linked(w.st, outs, ys) && forall j | 0 <= j < |outs| :: |w0.st| <= outs[j]
    requires forall j | 0 <= j < |xs| :: xs[j].Ref? && xs[j].index < |w0.st|
    requires forall j | 0 <= j < |ys| ::
      && ys[j].Ref? && ys[j].index < |w.st| && ys[j].index !in outs
      && w.st[ys[j].index].val == f(w0.st[xs[j].index].val)
    requires |w1.st| == |w.st| + 1 && forall i | 0 <= i < |w.st| && i != outs[|outs| - 1] :: w1.st[i] == w.st[i]
    requires Gives(w0, w1, Ok(e), f(w0.st[xs[|ys|].index].val))
    requires |w2.st| == |e.w.st| && forall i | 0 <= i < |e.w.st| && i != |w.st| :: w2.st[i] == e.w.st[i]
    ensures forall j | 0 <= j < |ys2| ::
      && ys2[j].Ref? && ys2[j].index < |w2.st| && ys2[j].index !in outs2
      && w2.st[ys2[j].index].val == f(w0.st[xs[j].index].val)
  {
    forall j | 0 <= j < |ys2|
      ensures && ys2[j].Ref? && ys2[j].index < |w2.st| && ys2[j].index !in outs2
              && w2.st[ys2[j].index].val == f(w0.st[xs[j].index].val)
    {
      if j < |ys| {
        assert ys[j].index < |w.st| && ys[j].index != outs[|outs| - 1];
        assert w2.st[ys[j].index] == e.w.st[ys[j].index] == w1.st[ys[j].index] == w.st[ys[j].index];
      } else {
        forall m | 0 <= m < |outs| ensures outs[m] < |w.st| {
          LinkedAt(w.st, outs, ys, m);
        }
      }
    }
  }

  /** A loop that has filled a cell for every element has built the list of
      their images. */
  lemma BuildDone(w0: World, ins: seq<nat>, xs: seq<Ptr>, dom: Val -> bool, f: Val -> Val,
                  w: World, outs: seq<nat>, ys: seq<Ptr>)
    requires Building(w0, ins, xs, dom, f, w, outs, ys) && |outs| == |ins|
    ensures Built(w0, Image(w0.st, xs, f), Done(Ref(outs[0]), w))
  {
    LinkedElements(w.st, outs, ys);
  }

  // ---------------------------------------------------------------------
  // tlisp_map and tlisp_list

  /** The rest of the loop of tlisp_map, from the cell `curr` on. Stating
      the loop lemmas of this section through this non-recursive name keeps
      the verifier from unfolding the loop when it checks them. */
  ghost function MapRest(ap: Evaluator, list: Ptr, head: Ptr, curr: Ptr, w: World, fuel: nat): Res<Done>
    requires Wf(w) && Evaluates(ap)
  {
    MapLoop(ap, list, head, curr, w, fuel)
  }

  /** One turn of the loop of tlisp_map. */
  lemma MapLoopStep(ap: Evaluator, list: Ptr, next: Ptr, head: Ptr, curr: Ptr, w: World, fuel: nat)
    requires Wf(w) && Evaluates(ap) && fuel > 0
    requires Cdr(w.st, list) == Ok(next) && next != Null && Turn(ap, w, curr, next).Ok?
    ensures MapRest(ap, list, head, curr, w, fuel) ==
      MapRest(ap, next, head, Ref(|w.st|), Turn(ap, w, curr, next).value.w, fuel - 1)
  {
  }

  /** The last turn of the loop of tlisp_map. */
  lemma {:induction false} MapLoopLast(ap: Evaluator, list: Ptr, head: Ptr, curr: Ptr, w: World, fuel: nat)
    requires Wf(w) && Evaluates(ap) && fuel > 0 && Cdr(w.st, list) == Ok(Null)
    ensures MapLoop(ap, list, head, curr, w, fuel) == Ok(Done(head, w))
  {
  }

  lemma {:induction false} MapLoopResult(ap: Evaluator, dom: Val -> bool, f: Val -> Val, w0: World, ins: seq<nat>, xs: seq<Ptr>,
                                       w: World, outs: seq<nat>, ys: seq<Ptr>, list: Ptr, head: Ptr, curr: Ptr, fuel: nat)
    requires Evaluates(ap) && Transforms(ap, dom, f, w0)
    requires Building(w0, ins, xs, dom, f, w, outs, ys) && fuel > |ins| - |outs|
    requires list == Ref(ins[|outs| - 1]) && head == Ref(outs[0]) && curr == Ref(outs[|outs| - 1])
    ensures Yields(w0, Image(w0.st, xs, f), MapRest(ap, list, head, curr, w, fuel))
    decreases |ins| - |outs|, 1
  {
    if |outs| == |ins| {
      Intact(w0.st, w.st, ins, xs, |outs| - 1);
      MapLoopLast(ap, list, head, curr, w, fuel);
      BuildDone(w0, ins, xs, dom, f, w, outs, ys);
    } else {
      MapLoopTurn(ap, dom, f, w0, ins, xs, w, outs, ys, list, head, curr, fuel);
    }
  }

  /** The inductive step of MapLoopResult: one more turn, then the rest. */
  lemma {:induction false} MapLoopTurn(ap: Evaluator, dom: Val -> bool, f: Val -> Val, w0: World, ins: seq<nat>, xs: seq<Ptr>,
                                     w: World, outs: seq<nat>, ys: seq<Ptr>, list: Ptr, head: Ptr, curr: Ptr, fuel: nat)
    requires Evaluates(ap) && Transforms(ap, dom, f, w0)
    requires Building(w0, ins, xs, dom, f, w, outs, ys) && |outs| < |ins| && fuel > |ins| - |outs|
    requires list == Ref(ins[|outs| - 1]) && head == Ref(outs[0]) && curr == Ref(outs[|outs| - 1])
    ensures Yields(w0, Image(w0.st, xs, f), MapRest(ap, list, head, curr, w, fuel))
    decreases |ins| - |outs|, 0
  {
    var k := |outs|;
    var t := MapAdvance(ap, dom, f, w0, ins, xs, w, outs, ys, list, head, curr, fuel);
    var outs2 := outs + [|w.st|];
    assert outs2[0] == outs[0] && outs2[k] == |w.st| && |outs2| - 1 == k;
    MapLoopResult(ap, dom, f, w0, ins, xs, t.w, outs2, ys + [t.obj], Ref(ins[k]), head, Ref(|w.st|), fuel - 1);
  }

  /** A turn of the loop of tlisp_map keeps `Building`, and leaves the rest of
      the loop to do from the next element on. */
  lemma MapAdvance(ap: Evaluator, dom: Val -> bool, f: Val -> Val, w0: World, ins: seq<nat>, xs: seq<Ptr>,
                    w: World, outs: seq<nat>, ys: seq<Ptr>, list: Ptr, head: Ptr, curr: Ptr, fuel: nat)
    returns (t: Done)
    requires Evaluates(ap) && Transforms(ap, dom, f, w0)
    requires Building(w0, ins, xs, dom, f, w, outs, ys) && |outs| < |ins| && fuel > 0
    requires list == Ref(ins[|outs| - 1]) && curr == Ref(outs[|outs| - 1])
    ensures Building(w0, ins, xs, dom, f, t.w, outs + [|w.st|], ys + [t.obj])
    ensures Yields(w0, Image(w0.st, xs, f), MapRest(ap, Ref(ins[|outs|]), head, Ref(|w.st|), t.w, fuel - 1)) ==>
            Yields(w0, Image(w0.st, xs, f), MapRest(ap, list, head, curr, w, fuel))
  {
    Intact(w0.st, w.st, ins, xs, |outs| - 1);
    BuildStep(ap, dom, f, w0, ins, xs, w, outs, ys);
    t := Turn(ap, w, curr, Ref(ins[|outs|])).value;
    MapLoopStep(ap, list, Ref(ins[|outs|]), head, curr, w, fuel);
  }

  /** tlisp_map after its checks (src/builtins.c:974-982): for a function
      that maps the value of each element to `f` of it, a list of new cells
      whose element `i` holds `f` of the value of element `i`. */
  lemma MapListResult(ap: Evaluator, dom: Val -> bool, f: Val -> Val, list: Ptr, w: World, fuel: nat)
    requires Wf(w) && Evaluates(ap) && Transforms(ap, dom, f, w)
    requires list != Null && Lists.Cells(w.st, list).Ok?
    requires AllIn(w.st, Lists.Elements(w.st, list).value, dom)
    requires fuel > |Lists.Cells(w.st, list).value|
    ensures MapList(ap, list, w, fuel).Ok?
    ensures Built(w, Image(w.st, Lists.Elements(w.st, list).value, f), MapList(ap, list, w, fuel).value)
  {
    var ins, xs := Lists.Cells(w.st, list).value, Lists.Elements(w.st, list).value;
    ListChained(w.st, list);
    BuildFirst(ap, dom, f, w, ins, xs);
    var res := Alloc(w, ConsV(Null, Null));
    var e := ap(xs[0], res.w).value;
    var w1 := SetCar(e.w, res.obj, e.obj).value;
    MapLoopResult(ap, dom, f, w, ins, xs, w1, [|w.st|], [e.obj], list, res.obj, res.obj, fuel - 1);
  }

  /** The rest of the loop of tlisp_list, from the cell `curr` on. Stating
      the loop lemmas of this section through this non-recursive name keeps
      the verifier from unfolding the loop when it checks them. */
  ghost function ListRest(ev: Evaluator, list: Ptr, head: Ptr, curr: Ptr, w: World, fuel: nat): Res<Done>
    requires Wf(w) && Evaluates(ev)
  {
    ListLoop(ev, list, head, curr, w, fuel)
  }

  /** One turn of the loop of tlisp_list. */
  lemma ListLoopStep(ev: Evaluator, list: Ptr, next: Ptr, head: Ptr, curr: Ptr, w: World, fuel: nat)
    requires Wf(w) && Evaluates(ev) && fuel > 0
    requires Cdr(w.st, list) == Ok(next) && next != Null && Turn(ev, w, curr, next).Ok?
    ensures ListRest(ev, list, head, curr, w, fuel) ==
      ListRest(ev, next, head, Ref(|w.st|), Turn(ev, w, curr, next).value.w, fuel - 1)
  {
  }

  /** The last turn of the loop of tlisp_list. */
  lemma {:induction false} ListLoopLast(ev: Evaluator, list: Ptr, head: Ptr, curr: Ptr, w: World, fuel: nat)
    requires Wf(w) && Evaluates(ev) && fuel > 0 && Cdr(w.st, list) == Ok(Null)
    ensures ListLoop(ev, list, head, curr, w, fuel) == Ok(Done(head, w))
  {
  }

  lemma {:induction false} ListLoopResult(ev: Evaluator, dom: Val -> bool, f: Val -> Val, w0: World, ins: seq<nat>, xs: seq<Ptr>,
                                       w: World, outs: seq<nat>, ys: seq<Ptr>, list: Ptr, head: Ptr, curr: Ptr, fuel: nat)
    requires Evaluates(ev) && Transforms(ev, dom, f, w0)
    requires Building(w0, ins, xs, dom, f, w, outs, ys) && fuel > |ins| - |outs|
    requires list == Ref(ins[|outs| - 1]) && head == Ref(outs[0]) && curr == Ref(outs[|outs| - 1])
    ensures Yields(w0, Image(w0.st, xs, f), ListRest(ev, list, head, curr, w, fuel))
    decreases |ins| - |outs|, 1
  {
    if |outs| == |ins| {
      Intact(w0.st, w.st, ins, xs, |outs| - 1);
      ListLoopLast(ev, list, head, curr, w, fuel);
      BuildDone(w0, ins, xs, dom, f, w, outs, ys);
    } else {
      ListLoopTurn(ev, dom, f, w0, ins, xs, w, outs, ys, list, head, curr, fuel);
    }
  }

  /** The inductive step of ListLoopResult: one more turn, then the rest. */
  lemma {:induction false} ListLoopTurn(ev: Evaluator, dom: Val -> bool, f: Val -> Val, w0: World, ins: seq<nat>, xs: seq<Ptr>,
                                     w: World, outs: seq<nat>, ys: seq<Ptr>, list: Ptr, head: Ptr, curr: Ptr, fuel: nat)
    requires Evaluates(ev) && Transforms(ev, dom, f, w0)
    requires Building(w0, ins, xs, dom, f, w, outs, ys) && |outs| < |ins| && fuel > |ins| - |outs|
    requires list == Ref(ins[|outs| - 1]) && head == Ref(outs[0]) && curr == Ref(outs[|outs| - 1])
    ensures Yields(w0, Image(w0.st, xs, f), ListRest(ev, list, head, curr, w, fuel))
    decreases |ins| - |outs|, 0
  {
    var k := |outs|;
    var t := ListAdvance(ev, dom, f, w0, ins, xs, w, outs, ys, list, head, curr, fuel);
    var outs2 := outs + [|w.st|];
    assert outs2[0] == outs[0] && outs2[k] == |w.st| && |outs2| - 1 == k;
    ListLoopResult(ev, dom, f, w0, ins, xs, t.w, outs2, ys + [t.obj], Ref(ins[k]), head, Ref(|w.st|), fuel - 1);
  }

  /** A turn of the loop of tlisp_list keeps `Building`, and leaves the rest of
      the loop to do from the next element on. */
  lemma ListAdvance(ev: Evaluator, dom: Val -> bool, f: Val -> Val, w0: World, ins: seq<nat>, xs: seq<Ptr>,
                    w: World, outs: seq<nat>, ys: seq<Ptr>, list: Ptr, head: Ptr, curr: Ptr, fuel: nat)
    returns (t: Done)
    requires Evaluates(ev) && Transforms(ev, dom, f, w0)
    requires Building(w0, ins, xs, dom, f, w, outs, ys) && |outs| < |ins| && fuel > 0
    requires list == Ref(ins[|outs| - 1]) && curr == Ref(outs[|outs| - 1])
    ensures Building(w0, ins, xs, dom, f, t.w, outs + [|w.st|], ys + [t.obj])
    ensures Yields(w0, Image(w0.st, xs, f), ListRest(ev, Ref(ins[|outs|]), head, Ref(|w.st|), t.w, fuel - 1)) ==>
            Yields(w0, Image(w0.st, xs, f), ListRest(ev, list, head, curr, w, fuel))
  {
    Intact(w0.st, w.st, ins, xs, |outs| - 1);
    BuildStep(ev, dom, f, w0, ins, xs, w, outs, ys);
    t := Turn(ev, w, curr, Ref(ins[|outs|])).value;
    ListLoopStep(ev, list, Ref(ins[|outs|]), head, curr, w, fuel);
  }

  /** tlisp_list (src/builtins.c:647-664): for arguments whose evaluation
      gives `f` of their value, a list of new cells whose element `i` holds
      `f` of the value of argument `i`; nil without arguments. */
  lemma ListResult(g: Globals, ev: Evaluator, dom: Val -> bool, f: Val -> Val, args: Ptr, w: World, fuel: nat)
    requires Wf(w) && Evaluates(ev) && Transforms(ev, dom, f, w)
    requires Lists.Cells(w.st, args).Ok? && AllIn(w.st, Lists.Elements(w.st, args).value, dom)
    requires fuel > |Lists.Cells(w.st, args).value|
    ensures args == Null ==> List(g, ev, args, w, fuel) == Ok(Done(g.nil, w))
    ensures args != Null ==> List(g, ev, args, w, fuel).Ok?
    ensures args != Null ==> Built(w, Image(w.st, Lists.Elements(w.st, args).value, f), List(g, ev, args, w, fuel).value)
  {
    if args != Null {
      var ins, xs := Lists.Cells(w.st, args).value, Lists.Elements(w.st, args).value;
      ListChained(w.st, args);
      BuildFirst(ev, dom, f, w, ins, xs);
      var res := Alloc(w, ConsV(Null, Null));
      var e := ev(xs[0], res.w).value;
      var w1 := SetCar(e.w, res.obj, e.obj).value;
      ListLoopResult(ev, dom, f, w, ins, xs, w1, [|w.st|], [e.obj], args, res.obj, res.obj, fuel - 1);
    }
  }
}
