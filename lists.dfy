/** Lists of cons cells in the store: src/list.c (list_len, list_get) and
    the spine walks that the evaluator and the collector share.

    A C walk along `cdr` can meet a NULL pointer (the end), an object that
    is not a cons cell (reading its `cdr` is undefined: `Undefined`), or a
    cell it has already visited (a cyclic spine, on which the C loop never
    ends: `Spins`). A walk that has visited as many cells as the store
    holds and still has a cell in hand has met a repeat, so the walks below
    report `Spins` at that point. */
module Lists {
  import opened Base
  import opened Core

  /** The cell `p` designates, when it is a cons cell of the store. */
  predicate IsCell(st: Store, p: Ptr)
  {
    p.Ref? && p.index < |st| && st[p.index].val.ConsV?
  }

  /** The indices of the cells of the spine that starts at `p`, of which
      `steps` have already been visited. */
  function CellsFrom(st: Store, p: Ptr, steps: nat): (r: Res<seq<nat>>)
    requires steps <= |st|
    ensures r.Ok? ==> |r.value| <= |st| - steps
    ensures r.Ok? ==> forall i | 0 <= i < |r.value| :: IsCell(st, Ref(r.value[i]))
    ensures r.Ok? && p != Null ==> r.value != [] && r.value[0] == p.index
    ensures p == Null <==> r == Ok([])
    ensures r.Err? ==> r.fault in {Undefined, Spins}
    decreases |st| - steps
  {
    if p == Null then Ok([])
    else if !IsCell(st, p) then Err(Undefined)
    else if steps == |st| then Err(Spins)
    else
      var rest :- CellsFrom(st, st[p.index].val.cdr, steps + 1);
      Ok([p.index] + rest)
  }

  /** The cells of the list `p`. */
  function Cells(st: Store, p: Ptr): (r: Res<seq<nat>>)
    ensures r.Ok? ==> forall i | 0 <= i < |r.value| :: IsCell(st, Ref(r.value[i]))
  {
    CellsFrom(st, p, 0)
  }

  /** The `car`s of the cells of the list `p`, in order: the elements. */
  function Elements(st: Store, p: Ptr): (r: Res<seq<Ptr>>)
    ensures r.Ok? <==> Cells(st, p).Ok?
    ensures r.Ok? ==> |r.value| == |Cells(st, p).value|
    ensures r.Ok? ==> forall i | 0 <= i < |r.value| :: r.value[i] == st[Cells(st, p).value[i]].val.car
  {
    var cells :- Cells(st, p);
    Ok(seq(|cells|, i requires 0 <= i < |cells| => st[cells[i]].val.car))
  }

  /** list_len (src/list.c:14-23): the number of cells along `cdr` up to
      NULL. The C counter is an `int`; the model counts without a bound. */
  method ListLen(st: Store, list: Ptr) returns (r: Res<nat>)
    ensures r.Ok? <==> Cells(st, list).Ok?
    ensures r.Ok? ==> r.value == |Cells(st, list).value|
    ensures r.Err? ==> r == Err(Cells(st, list).fault)
  {
    var len := 0;
    var p := list;
    ghost var seen: seq<nat> := [];
    assert CellsFrom(st, p, 0).Ok? ==> seen + CellsFrom(st, p, 0).value == CellsFrom(st, p, 0).value;
    while p != Null
      invariant len == |seen| <= |st|
      invariant CellsFrom(st, p, len).Ok? ==> Cells(st, list) == Ok(seen + CellsFrom(st, p, len).value)
      invariant CellsFrom(st, p, len).Err? ==> Cells(st, list) == CellsFrom(st, p, len)
      decreases |st| - len
    {
      if !IsCell(st, p) {
        return Err(Undefined);
      }
      if len == |st| {
        return Err(Spins);
      }
      ghost var rest := CellsFrom(st, st[p.index].val.cdr, len + 1);
      assert rest.Ok? ==> seen + CellsFrom(st, p, len).value == (seen + [p.index]) + rest.value;
      seen := seen + [p.index];
      len := len + 1;
      p := st[p.index].val.cdr;
    }
    assert seen + [] == seen;
    return Ok(len);
  }

  /** A new cell at the end of the store whose `cdr` is a list: its list has
      one cell more, the new one first. This is how `cons` and `list`
      extend a list. */
  lemma {:induction false} CellsPrepend(st: Store, car: Ptr, p: Ptr, mark: int)
    requires Cells(st, p).Ok?
    ensures var st2 := st + [Obj(ConsV(car, p), mark)];
      Cells(st2, Ref(|st|)) == Ok([|st|] + Cells(st, p).value)
  {
    var st2 := st + [Obj(ConsV(car, p), mark)];
    CellsExtend(st, st2, p, 0);
    assert CellsFrom(st2, Ref(|st|), 0) == Ok([|st|] + CellsFrom(st2, p, 1).value);
  }

  /** A walk that ends in `st` ends the same way in a store that extends it,
      with the one step more the larger store allows. */
  lemma {:induction false} CellsExtend(st: Store, st2: Store, p: Ptr, steps: nat)
    requires steps <= |st| && |st| < |st2| && st2[..|st|] == st
    requires CellsFrom(st, p, steps).Ok?
    ensures CellsFrom(st2, p, steps + |st2| - |st|) == CellsFrom(st, p, steps)
    decreases |st| - steps
  {
    if p != Null {
      assert st2[p.index] == st[p.index];
      CellsExtend(st, st2, st[p.index].val.cdr, steps + 1);
    }
  }

  /** A walk along `cdr` that ends ends the same way once an object is
      appended to the store. */
  lemma {:induction false} CellsGrow(st: Store, p: Ptr, steps: nat, o: Obj)
    requires steps <= |st| && CellsFrom(st, p, steps).Ok?
    ensures CellsFrom(st + [o], p, steps) == CellsFrom(st, p, steps)
    decreases |st| - steps
  {
    if p != Null {
      assert (st + [o])[p.index] == st[p.index];
      CellsGrow(st, st[p.index].val.cdr, steps + 1, o);
    }
  }

  /** A walk over cells `cs` of `st` in a store `st'` that keeps them, except
      that the last cell's `cdr` now points to `q`, goes on along `q`. */
  lemma {:induction false} CellsRelink(st: Store, st': Store, p: Ptr, k: nat, cs: seq<nat>, q: Ptr)
    requires k <= |st| <= |st'| && CellsFrom(st, p, k) == Ok(cs) && cs != []
    requires st[cs[|cs| - 1]].val.cdr == Null
    requires forall i | 0 <= i < |st| && i != cs[|cs| - 1] :: st'[i] == st[i]
    requires st'[cs[|cs| - 1]].val == ConsV(st[cs[|cs| - 1]].val.car, q)
    requires k + |cs| <= |st'| && CellsFrom(st', q, k + |cs|).Ok?
    ensures CellsFrom(st', p, k) == Ok(cs + CellsFrom(st', q, k + |cs|).value)
    decreases |cs|
  {
    var rest := CellsFrom(st, st[p.index].val.cdr, k + 1).value;
    assert cs == [p.index] + rest;
    if rest == [] {
      assert |cs| == 1 && cs == [p.index] && cs[|cs| - 1] == p.index;
      assert st'[p.index].val.cdr == q;
      assert CellsFrom(st', p, k) == Ok([p.index] + CellsFrom(st', q, k + 1).value);
    } else {
      assert rest[|rest| - 1] == cs[|cs| - 1];
      assert p.index != cs[|cs| - 1] by {
        assert st[p.index].val.cdr != Null;
      }
      assert st'[p.index] == st[p.index];
      CellsRelink(st, st', st[p.index].val.cdr, k + 1, rest, q);
      assert cs + CellsFrom(st', q, k + |cs|).value
        == [p.index] + (rest + CellsFrom(st', q, k + 1 + |rest|).value);
    }
  }

  /** Walk of list_get from cell `p` of the list whose head has index
      `head`: it stops at the first cell whose index lies at least `idx`
      above the head's. */
  function GetFrom(st: Store, head: nat, p: Ptr, idx: int, steps: nat): (r: Res<Ptr>)
    requires steps <= |st|
    ensures r.Err? ==> r.fault in {Undefined, Spins}
    decreases |st| - steps
  {
    if p == Null then Ok(Null)
    else if !IsCell(st, p) then Err(Undefined)
    else if p.index - head >= idx then Ok(st[p.index].val.car)
    else if steps == |st| then Err(Spins)
    else GetFrom(st, head, st[p.index].val.cdr, idx, steps + 1)
  }

  /** list_get (src/list.c:4-12) as specified by its walk. */
  function Get(st: Store, list: Ptr, idx: int): (r: Res<Ptr>)
    ensures list == Null ==> r == Ok(Null)
  {
    if list == Null then Ok(Null) else GetFrom(st, list.index, list, idx, 0)
  }

  /** list_get (src/list.c:4-12). `curr - list` is pointer arithmetic on the
      arena: the difference of the two cells' indices, not a position in
      the list. */
  method ListGet(st: Store, list: Ptr, idx: int) returns (r: Res<Ptr>)
    ensures r == Get(st, list, idx)
  {
    if list == Null {
      return Ok(Null);
    }
    var curr := list;
    var steps := 0;
    while curr != Null && curr.index - list.index < idx
      invariant steps <= |st|
      invariant Get(st, list, idx) == GetFrom(st, list.index, curr, idx, steps)
      decreases |st| - steps
    {
      if !IsCell(st, curr) {
        return Err(Undefined);
      }
      if steps == |st| {
        return Err(Spins);
      }
      curr := st[curr.index].val.cdr;
      steps := steps + 1;
    }
    if curr == Null {
      return Ok(Null);
    }
    if !IsCell(st, curr) {
      return Err(Undefined);
    }
    return Ok(st[curr.index].val.car);
  }

  /** With `idx <= 0`, list_get returns the head's `car`. */
  lemma GetHead(st: Store, list: Ptr, idx: int)
    requires IsCell(st, list) && idx <= 0
    ensures Get(st, list, idx) == Ok(st[list.index].val.car)
  {
  }

  /** The element at position `idx` of a list, counting cells: what list_get
      is evidently meant to return. */
  function Nth(st: Store, list: Ptr, idx: int): (r: Res<Ptr>)
    requires Elements(st, list).Ok?
    ensures 0 <= idx < |Elements(st, list).value| ==> r == Ok(Elements(st, list).value[idx])
    ensures (idx < 0 || idx >= |Elements(st, list).value|) ==> r == Ok(Null)
  {
    var es := Elements(st, list).value;
    if 0 <= idx < |es| then Ok(es[idx]) else Ok(Null)
  }

  /** A list whose cells lie at consecutive indices, starting at `head`. */
  predicate Contiguous(st: Store, list: Ptr)
  {
    Cells(st, list).Ok? && list.Ref? &&
    forall i | 0 <= i < |Cells(st, list).value| :: Cells(st, list).value[i] == list.index + i
  }

  /** Where the cells are consecutive in the arena, index distance and
      position coincide and list_get returns the element at `idx`. */
  lemma GetContiguous(st: Store, list: Ptr, idx: int)
    requires Contiguous(st, list) && 0 <= idx
    ensures Get(st, list, idx) == Nth(st, list, idx)
  {
    var cells := Cells(st, list).value;
    GetContiguousFrom(st, list, idx, 0, cells);
  }

  lemma {:induction false} GetContiguousFrom(st: Store, list: Ptr, idx: int, k: nat, cells: seq<nat>)
    requires Contiguous(st, list) && cells == Cells(st, list).value && 0 <= idx
    requires k <= |cells| && k <= idx
    ensures var p := if k < |cells| then Ref(cells[k]) else Null;
      CellsFrom(st, p, k) == Ok(cells[k..]) &&
      GetFrom(st, list.index, p, idx, k) == Nth(st, list, idx)
    decreases |cells| - k
  {
    var p := if k < |cells| then Ref(cells[k]) else Null;
    CellsSuffix(st, list, k, cells);
    if k < |cells| {
      if k < idx {
        var next := if k + 1 < |cells| then Ref(cells[k + 1]) else Null;
        assert st[cells[k]].val.cdr == next by {
          var cdr := st[cells[k]].val.cdr;
          assert cells[k..] == [cells[k]] + cells[k + 1..];
          var r := CellsFrom(st, cdr, k + 1);
          assert r.Ok? && CellsFrom(st, p, k) == Ok([cells[k]] + r.value);
          assert ([cells[k]] + r.value)[1..] == r.value;
          assert r == Ok(cells[k + 1..]);
          if k + 1 < |cells| {
            assert cells[k + 1..][0] == cells[k + 1];
          }
        }
        GetContiguousFrom(st, list, idx, k + 1, cells);
      }
    }
  }

  /** The walk from the `k`th cell of a list lists the remaining cells. */
  lemma {:induction false} CellsSuffix(st: Store, list: Ptr, k: nat, cells: seq<nat>)
    requires Cells(st, list).Ok? && cells == Cells(st, list).value && k <= |cells|
    ensures CellsFrom(st, if k < |cells| then Ref(cells[k]) else Null, k) == Ok(cells[k..])
  {
    if k > 0 {
      CellsSuffix(st, list, k - 1, cells);
      var p := Ref(cells[k - 1]);
      var rest := CellsFrom(st, st[p.index].val.cdr, k).value;
      assert cells[k - 1..] == [cells[k - 1]] + rest;
      assert rest == cells[k..];
    } else {
      assert cells[0..] == cells;
    }
  }

  /** The store after `(list (list 1 2) 3 4)` is evaluated: tlisp_list
      (src/builtins.c:647-664) allocates each cell before it evaluates the
      element, and the first element allocates a list of its own, so the
      outer list's cells lie at 4, 7 and 8. The numbers 1 to 4 are the
      reader's objects at 0 to 3. */
  function NestedListStore(): Store
  {
    [Obj(NumV(1), 0), Obj(NumV(2), 0), Obj(NumV(3), 0), Obj(NumV(4), 0),
     Obj(ConsV(Ref(5), Ref(7)), 0), Obj(ConsV(Ref(0), Ref(6)), 0), Obj(ConsV(Ref(1), Null), 0),
     Obj(ConsV(Ref(2), Ref(8)), 0), Obj(ConsV(Ref(3), Null), 0)]
  }

  /** As written, list_get of index 2 on that list stops at the second cell,
      whose index lies 3 above the head's, and returns 3 instead of 4. */
  lemma GetByDistance()
    ensures Get(NestedListStore(), Ref(4), 2) == Ok(Ref(2))
    ensures Elements(NestedListStore(), Ref(4)) == Ok([Ref(5), Ref(2), Ref(3)])
    ensures Nth(NestedListStore(), Ref(4), 2) == Ok(Ref(3))
  {
    var st := NestedListStore();
    assert st[4] == Obj(ConsV(Ref(5), Ref(7)), 0) && st[7] == Obj(ConsV(Ref(2), Ref(8)), 0);
    assert st[8] == Obj(ConsV(Ref(3), Null), 0);
    assert CellsFrom(st, Null, 3) == Ok([]);
    assert [8] + [] == [8] && [7] + [8] == [7, 8] && [4] + [7, 8] == [4, 7, 8];
    assert CellsFrom(st, Ref(8), 2) == Ok([8]);
    assert CellsFrom(st, Ref(7), 1) == Ok([7, 8]);
    assert Cells(st, Ref(4)) == Ok([4, 7, 8]);
    var es := Elements(st, Ref(4)).value;
    assert |es| == 3 && es[0] == Ref(5) && es[1] == Ref(2) && es[2] == Ref(3);
    assert es == [Ref(5), Ref(2), Ref(3)];
  }

  /** list_get as evidently intended: the walk counts cells instead of
      comparing arena addresses, and returns the element at position `idx`,
      or NULL outside the list. */
  method ListNth(st: Store, list: Ptr, idx: int) returns (r: Res<Ptr>)
    ensures Elements(st, list).Ok? ==> r == Nth(st, list, idx)
  {
    if idx < 0 {
      return Ok(Null);
    }
    var curr := list;
    var k := 0;
    while curr != Null && k < idx
      invariant 0 <= k <= idx && k <= |st|
      invariant Cells(st, list).Ok? ==> k <= |Cells(st, list).value|
      invariant Cells(st, list).Ok? ==>
        curr == (if k < |Cells(st, list).value| then Ref(Cells(st, list).value[k]) else Null)
      decreases |st| - k
    {
      if !IsCell(st, curr) {
        return Err(Undefined);
      }
      if k == |st| {
        return Err(Spins);
      }
      if Cells(st, list).Ok? {
        CellNext(st, list, k, Cells(st, list).value);
      }
      curr := st[curr.index].val.cdr;
      k := k + 1;
    }
    if curr == Null {
      return Ok(Null);
    }
    if !IsCell(st, curr) {
      return Err(Undefined);
    }
    return Ok(st[curr.index].val.car);
  }

  /** The `cdr` of the `k`th cell of a list is its next cell, or NULL after
      the last. */
  lemma {:induction false} CellNext(st: Store, list: Ptr, k: nat, cells: seq<nat>)
    requires Cells(st, list).Ok? && cells == Cells(st, list).value && k < |cells|
    ensures st[cells[k]].val.cdr == (if k + 1 < |cells| then Ref(cells[k + 1]) else Null)
  {
    CellsSuffix(st, list, k, cells);
    CellsSuffix(st, list, k + 1, cells);
    var cdr := st[cells[k]].val.cdr;
    var r := CellsFrom(st, cdr, k + 1);
    assert r.Ok? && CellsFrom(st, Ref(cells[k]), k) == Ok([cells[k]] + r.value);
    assert cells[k..] == [cells[k]] + cells[k + 1..];
    assert r.value == cells[k + 1..];
    if k + 1 < |cells| {
      assert cells[k + 1..][0] == cells[k + 1];
    } else {
      assert r.value == [];
    }
  }
}
