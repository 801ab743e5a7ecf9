/** What tlisp_backquote_fn (src/builtins.c:312-346) builds from a list
    whose elements are not themselves lists: a list of fresh cells, one per
    element, holding the element itself, or, for a SYMBOL `~name`, the
    object `name` is bound to. The argument list and every other object of
    the store are left as they were. */
module ListQuote {
  import opened Base
  import opened Core
  import opened Builtins
  import Env
  import Lists
  import opened ListBuild

  // ---------------------------------------------------------------------
  // The specification

  /** A SYMBOL whose name starts with `~`. */
  predicate Tilde(v: Val)
  {
    v.SymV? && |v.sym| > 0 && v.sym[0] == '~'
  }

  /** The scope chain of `w` binds `name` to an object. */
  ghost predicate BoundTo(w: World, name: string)
  {
    Wf(w) && Env.Find(w.chain, name).Ends? && Env.Find(w.chain, name).value.Some?
    && Env.Find(w.chain, name).value.value != Null
  }

  /** An element backquote copies without recursing: a live object that is
      not a cons cell and that, when it is a `~name` SYMBOL, names a bound
      object. */
  ghost predicate Flat(w: World, x: Ptr)
  {
    && Deref(w.st, x).Some? && !w.st[x.index].val.ConsV?
    && (Tilde(w.st[x.index].val) ==> BoundTo(w, w.st[x.index].val.sym[1..]))
  }

  /** What backquote puts in the cell for the flat element `x`. */
  ghost function Unquoted(w: World, x: Ptr): Ptr
    requires Flat(w, x)
  {
    var v := w.st[x.index].val;
    if Tilde(v) then Env.Find(w.chain, v.sym[1..]).value.value else x
  }

  ghost predicate AllFlat(w: World, xs: seq<Ptr>)
  {
    forall i | 0 <= i < |xs| :: Flat(w, xs[i])
  }

  /** What backquote puts in the cells for the flat elements `xs`. */
  ghost function Unquote(w: World, xs: seq<Ptr>): (r: seq<Ptr>)
    requires AllFlat(w, xs)
    ensures |r| == |xs| && forall i | 0 <= i < |xs| :: r[i] == Unquoted(w, xs[i])
  {
    seq(|xs|, i requires 0 <= i < |xs| => Unquoted(w, xs[i]))
  }

  /** Unquoting one element more than before. */
  lemma UnquoteNext(w: World, xs: seq<Ptr>, k: nat)
    requires AllFlat(w, xs) && k < |xs|
    ensures Unquote(w, xs[..k + 1]) == Unquote(w, xs[..k]) + [Unquoted(w, xs[k])]
  {
    assert Unquote(w, xs[..k + 1])[k] == Unquoted(w, xs[k]);
  }

  /** A call that ends with a list of fresh cells whose elements are `ys`,
      in a state whose store extends `w0`'s and whose chain is `w0`'s. */
  ghost predicate Copied(w0: World, ys: seq<Ptr>, r: Res<Done>)
  {
    && r.Ok? && Wf(r.value.w) && w0.st <= r.value.w.st && r.value.w.chain == w0.chain
    && Lists.Cells(r.value.w.st, r.value.obj).Ok?
    && (forall c | c in Lists.Cells(r.value.w.st, r.value.obj).value :: |w0.st| <= c)
    && Lists.Elements(r.value.w.st, r.value.obj) == Ok(ys)
  }

  // ---------------------------------------------------------------------
  // One element

  /** A flat element expands to what `Unquoted` says, in any state that
      keeps `w0`'s objects and its scope chain, and changes nothing. */
  lemma ExpandFlat(g: Globals, x: Ptr, w0: World, w: World, fuel: nat)
    requires Flat(w0, x) && Wf(w) && w0.st <= w.st && w.chain == w0.chain && fuel > 0
    ensures Expand(g, x, w, fuel) == Ok(Done(Unquoted(w0, x), w))
  {
    assert w.st[x.index] == w0.st[x.index];
  }

  /** An element `~name` whose name is unbound: the message formats a field
      of the wrong union variant, so the run is undefined. */
  lemma ExpandUnbound(g: Globals, x: Ptr, w: World, fuel: nat)
    requires Wf(w) && fuel > 0 && Deref(w.st, x).Some? && Tilde(w.st[x.index].val)
    requires Env.Find(w.chain, w.st[x.index].val.sym[1..]) == Ends(None)
    ensures Expand(g, x, w, fuel) == Err(Undefined)
  {
  }

  // ---------------------------------------------------------------------
  // The loop

  /** The loop of tlisp_backquote_fn having copied the first `k` elements of
      the list `ins` of `w0`: that list is intact, the chain of fresh cells
      `outs` holds their expansions, `head` is its first cell and `curr` its
      last (both NULL before the first turn). */
  ghost predicate Quoting(w0: World, ins: seq<nat>, xs: seq<Ptr>, k: nat, w: World, outs: seq<nat>,
                          head: Ptr, curr: Ptr)
  {
    && Wf(w) && w0.st <= w.st && w.chain == w0.chain
    && Chained(w0.st, ins, xs) && AllFlat(w0, xs) && k <= |ins| && |outs| == k
    && Linked(w.st, outs, Unquote(w0, xs[..k]))
    && (forall j | 0 <= j < |outs| :: |w0.st| <= outs[j])
    && head == (if outs == [] then Null else Ref(outs[0]))
    && curr == (if outs == [] then Null else Ref(outs[|outs| - 1]))
  }

  /** The rest of the loop of tlisp_backquote_fn. Stating the loop lemmas
      through this non-recursive name keeps the verifier from unfolding the
      loop when it checks them. */
  ghost function QuoteRest(g: Globals, list: Ptr, head: Ptr, curr: Ptr, w: World, fuel: nat): Res<Done>
    requires Wf(w)
  {
    BackquoteLoop(g, list, head, curr, w, fuel)
  }

  /** What a turn does once the element has expanded to `y`: a new cell
      holding `y`, made the head or linked after `curr`. The new cell is
      `Ref(|w.st|)`. */
  ghost function QuoteTurn(w: World, y: Ptr, head: Ptr, curr: Ptr): Res<World>
  {
    var c := Alloc(w, ConsV(Null, Null));
    var w2 :- SetCar(c.w, c.obj, y);
    if head != Null then SetCdr(w2, curr, c.obj) else Ok(w2)
  }

  /** One turn of the loop of tlisp_backquote_fn. */
  lemma QuoteLoopStep(g: Globals, list: Ptr, y: Ptr, head: Ptr, curr: Ptr, w: World, fuel: nat)
    requires Wf(w) && fuel > 1 && Lists.IsCell(w.st, list)
    requires var c := Alloc(w, ConsV(Null, Null));
      Expand(g, w.st[list.index].val.car, c.w, fuel - 1) == Ok(Done(y, c.w))
    requires QuoteTurn(w, y, head, curr).Ok? && Cdr(QuoteTurn(w, y, head, curr).value.st, list).Ok?
    ensures var w3 := QuoteTurn(w, y, head, curr).value;
      && Wf(w3)
      && QuoteRest(g, list, head, curr, w, fuel) ==
         QuoteRest(g, Cdr(w3.st, list).value, if head != Null then head else Ref(|w.st|), Ref(|w.st|), w3, fuel - 1)
  {
  }

  /** The end of the loop of tlisp_backquote_fn. */
  lemma QuoteLoopLast(g: Globals, head: Ptr, curr: Ptr, w: World, fuel: nat)
    requires Wf(w) && fuel > 0
    ensures QuoteRest(g, Null, head, curr, w, fuel) == Ok(Done(head, w))
  {
  }

  /** The loop of tlisp_backquote_fn from its `k`-th element on ends with the
      copy of the whole list. */
  lemma {:induction false} QuoteLoopResult(g: Globals, w0: World, ins: seq<nat>, xs: seq<Ptr>, k: nat, w: World,
                                           outs: seq<nat>, list: Ptr, head: Ptr, curr: Ptr, fuel: nat, zs: seq<Ptr>)
    requires Quoting(w0, ins, xs, k, w, outs, head, curr) && 0 < |ins| && fuel > |ins| - k
    requires list == (if k < |ins| then Ref(ins[k]) else Null) && zs == Unquote(w0, xs)
    ensures Copied(w0, zs, QuoteRest(g, list, head, curr, w, fuel))
    decreases |ins| - k, 1
  {
    if k == |ins| {
      QuoteLoopLast(g, head, curr, w, fuel);
      assert xs[..k] == xs;
      LinkedElements(w.st, outs, Unquote(w0, xs));
    } else {
      QuoteLoopTurn(g, w0, ins, xs, k, w, outs, list, head, curr, fuel, zs);
    }
  }

  /** The inductive step of QuoteLoopResult: one more turn, then the rest. */
  lemma {:induction false} QuoteLoopTurn(g: Globals, w0: World, ins: seq<nat>, xs: seq<Ptr>, k: nat, w: World,
                                         outs: seq<nat>, list: Ptr, head: Ptr, curr: Ptr, fuel: nat, zs: seq<Ptr>)
    requires Quoting(w0, ins, xs, k, w, outs, head, curr) && k < |ins| && fuel > |ins| - k
    requires list == Ref(ins[k]) && zs == Unquote(w0, xs)
    ensures Copied(w0, zs, QuoteRest(g, list, head, curr, w, fuel))
    decreases |ins| - k, 0
  {
    var next, w3, outs2, head2, curr2 := QuoteAdvance(g, w0, ins, xs, k, w, outs, list, head, curr, fuel);
    QuoteLoopResult(g, w0, ins, xs, k + 1, w3, outs2, next, head2, curr2, fuel - 1, zs);
  }

  /** A turn of the loop of tlisp_backquote_fn keeps `Quoting`, and the
      loop goes on from the next element with the same outcome. */
  lemma QuoteAdvance(g: Globals, w0: World, ins: seq<nat>, xs: seq<Ptr>, k: nat, w: World,
                     outs: seq<nat>, list: Ptr, head: Ptr, curr: Ptr, fuel: nat)
    returns (next: Ptr, w3: World, outs2: seq<nat>, head2: Ptr, curr2: Ptr)
    requires Quoting(w0, ins, xs, k, w, outs, head, curr) && k < |ins| && fuel > 1
    requires list == Ref(ins[k])
    ensures Quoting(w0, ins, xs, k + 1, w3, outs2, head2, curr2)
    ensures next == if k + 1 < |ins| then Ref(ins[k + 1]) else Null
    ensures QuoteRest(g, list, head, curr, w, fuel) == QuoteRest(g, next, head2, curr2, w3, fuel - 1)
  {
    next := if k + 1 < |ins| then Ref(ins[k + 1]) else Null;
    Intact(w0.st, w.st, ins, xs, k);
    var y := Unquoted(w0, xs[k]);
    ExpandFlat(g, xs[k], w0, Alloc(w, ConsV(Null, Null)).w, fuel - 1);
    QuoteGrow(w0, ins, xs, k, w, outs, head, curr);
    w3 := QuoteTurn(w, y, head, curr).value;
    outs2, head2, curr2 := outs + [|w.st|], if head != Null then head else Ref(|w.st|), Ref(|w.st|);
    QuoteLoopStep(g, list, y, head, curr, w, fuel);
  }

  /** A turn after the element `k` expanded: one more fresh cell, holding
      the expansion, at the end of the chain. */
  lemma QuoteGrow(w0: World, ins: seq<nat>, xs: seq<Ptr>, k: nat, w: World, outs: seq<nat>, head: Ptr, curr: Ptr)
    requires Quoting(w0, ins, xs, k, w, outs, head, curr) && k < |ins|
    ensures var w3 := QuoteTurn(w, Unquoted(w0, xs[k]), head, curr);
      && w3.Ok?
      && Quoting(w0, ins, xs, k + 1, w3.value, outs + [|w.st|], if head != Null then head else Ref(|w.st|), Ref(|w.st|))
      && Cdr(w3.value.st, Ref(ins[k])) == Ok(if k + 1 < |ins| then Ref(ins[k + 1]) else Null)
  {
    var y, n, ys := Unquoted(w0, xs[k]), |w.st|, Unquote(w0, xs[..k]);
    UnquoteNext(w0, xs, k);
    var w2 := QuoteFill(w, y);
    var w3 := QuoteLink(w0, w, outs, ys, y, head, curr);
    assert QuoteTurn(w, y, head, curr) == Ok(w3);
    Intact(w0.st, w3.st, ins, xs, k);
  }

  /** Filling the fresh empty cell is allocating it full. */
  lemma QuoteFill(w: World, y: Ptr) returns (w2: World)
    ensures var c := Alloc(w, ConsV(Null, Null)); SetCar(c.w, c.obj, y) == Ok(w2)
    ensures w2 == Alloc(w, ConsV(y, Null)).w
  {
    w2 := Alloc(w, ConsV(y, Null)).w;
    var c := Alloc(w, ConsV(Null, Null));
    assert c.w.st[|w.st| := Obj(ConsV(y, Null), 0)] == w2.st;
  }

  /** The full new cell made the head, or linked after the last cell: the
      chain of cells grows by it. */
  lemma QuoteLink(w0: World, w: World, outs: seq<nat>, ys: seq<Ptr>, y: Ptr, head: Ptr, curr: Ptr) returns (w3: World)
    requires Wf(w) && w0.st <= w.st && w.chain == w0.chain && |outs| == |ys|
    requires Linked(w.st, outs, ys) && (forall j | 0 <= j < |outs| :: |w0.st| <= outs[j])
    requires head == (if outs == [] then Null else Ref(outs[0]))
    requires curr == (if outs == [] then Null else Ref(outs[|outs| - 1]))
    ensures var w2 := Alloc(w, ConsV(y, Null)).w;
      (if head != Null then SetCdr(w2, curr, Ref(|w.st|)) else Ok(w2)) == Ok(w3)
    ensures Wf(w3) && w0.st <= w3.st && w3.chain == w0.chain && |w3.st| == |w.st| + 1
    ensures Linked(w3.st, outs + [|w.st|], ys + [y])
  {
    var w2 := Alloc(w, ConsV(y, Null)).w;
    if head == Null {
      w3 := w2;
      assert outs + [|w.st|] == [|w.st|] && ys == [];
      assert ys + [y] == [y];
    } else {
      w3 := SetCdr(w2, curr, Ref(|w.st|)).value;
      QuoteLinkAfter(w, outs, ys, y, w3);
      Extended(w0.st, w.st, w3.st, outs[|outs| - 1]);
    }
  }

  /** A full cell allocated and linked after the last cell of a chain
      extends the chain. */
  lemma QuoteLinkAfter(w: World, cells: seq<nat>, cars: seq<Ptr>, y: Ptr, w3: World)
    requires Linked(w.st, cells, cars) && |cells| > 0
    requires SetCdr(Alloc(w, ConsV(y, Null)).w, Ref(cells[|cells| - 1]), Ref(|w.st|)) == Ok(w3)
    ensures Linked(w3.st, cells + [|w.st|], cars + [y])
    ensures w3.chain == w.chain && |w3.st| == |w.st| + 1
    ensures forall i | 0 <= i < |w.st| && i != cells[|cells| - 1] :: w3.st[i] == w.st[i]
  {
    var cells2, cars2 := cells + [|w.st|], cars + [y];
    forall i | 0 <= i < |cells2|
      ensures && cells2[i] < |w3.st| && w3.st[cells2[i]].val.ConsV? && w3.st[cells2[i]].val.car == cars2[i]
              && w3.st[cells2[i]].val.cdr == if i + 1 < |cells2| then Ref(cells2[i + 1]) else Null
    {
      if i < |cells| - 1 {
        assert cells[i] < cells[|cells| - 1] by {
          LinkedOrdered(w.st, cells, cars, i, |cells| - 1);
        }
      }
    }
  }

  // ---------------------------------------------------------------------
  // tlisp_backquote_fn

  /** tlisp_backquote_fn on a list of flat elements: a list of fresh cells
      whose element `i` is element `i` of the argument list, or the object
      it names when it is `~name`; the store only grows, so the argument
      list and every other old object are unchanged. */
  lemma BackquoteFlat(g: Globals, args: Ptr, w: World, fuel: nat)
    requires Wf(w) && args != Null && Lists.Cells(w.st, args).Ok?
    requires AllFlat(w, Lists.Elements(w.st, args).value)
    requires fuel > |Lists.Cells(w.st, args).value| + 1
    ensures Copied(w, Unquote(w, Lists.Elements(w.st, args).value), Backquote(g, args, w, fuel))
  {
    var ins, xs := Lists.Cells(w.st, args).value, Lists.Elements(w.st, args).value;
    ListChained(w.st, args);
    assert xs[..0] == [];
    assert args == Ref(ins[0]);
    QuoteLoopResult(g, w, ins, xs, 0, w, [], args, Null, Null, fuel - 1, Unquote(w, xs));
  }

  /** tlisp_backquote_fn whose first element is `~name` with `name`
      unbound: undefined, as ExpandUnbound says. */
  lemma BackquoteUnbound(g: Globals, args: Ptr, w: World, fuel: nat)
    requires Wf(w) && fuel > 2 && Lists.IsCell(w.st, args)
    requires var x := w.st[args.index].val.car;
      Deref(w.st, x).Some? && Tilde(w.st[x.index].val) && Env.Find(w.chain, w.st[x.index].val.sym[1..]) == Ends(None)
    ensures Backquote(g, args, w, fuel) == Err(Undefined)
  {
    var x, c := w.st[args.index].val.car, Alloc(w, ConsV(Null, Null));
    assert c.w.st[x.index] == w.st[x.index];
    ExpandUnbound(g, x, c.w, fuel - 2);
  }
}
