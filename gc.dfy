/** The mark-and-compact collector of src/gc.c, as functions over the
    arena: a sequence of objects whose marks are the collector's state.

    The epoch `alive` is the static `ALIVE` (src/gc.c:8): marking sets an
    object's mark to it, an object already carrying it counts as visited,
    and after each collection it alternates between 1 and 2. Marking never
    changes an object's value, only marks, so every walk below sees the
    same pointers as the C code. Class `Process.Process` runs the same
    collector in place and is proved to agree. */
module Gc {
  import opened Base
  import opened Core
  import Dict
  import Lists

  /** `sizeof(tlisp_obj_t)` on an LP64 target: the union's largest member
      (a struct definition: name, field count, field names) takes 24 bytes,
      the tag 4 and the mark 1, padded to 32. */
  const OBJ_SIZE: nat := 32

  /** MIN_HEAP_SIZE (src/process.h:6). */
  const MIN_HEAP_SIZE: nat := 256000000

  /** The number of objects whose mark is not `alive`; every marking step
      that is not already done lowers it. */
  function Unmarked(h: seq<Obj>, alive: int): nat
  {
    if h == [] then 0
    else Unmarked(h[..|h| - 1], alive) + (if h[|h| - 1].mark != alive then 1 else 0)
  }

  /** The number of objects whose mark is `alive`. */
  function Marked(h: seq<Obj>, alive: int): nat
    ensures Marked(h, alive) + Unmarked(h, alive) == |h|
  {
    if h == [] then 0
    else Marked(h[..|h| - 1], alive) + (if h[|h| - 1].mark == alive then 1 else 0)
  }

  /** `obj->mark = ALIVE` on object `i`. */
  function SetMark(h: seq<Obj>, i: nat, alive: int): (r: seq<Obj>)
    requires i < |h|
    ensures |r| == |h|
  {
    h[i := h[i].(mark := alive)]
  }

  /** What marking may do to an arena: set marks to `alive` and nothing else. */
  predicate Monotone(h: seq<Obj>, h2: seq<Obj>, alive: int)
  {
    && |h2| == |h|
    && forall i | 0 <= i < |h| :: h2[i].val == h[i].val && (h2[i].mark == h[i].mark || h2[i].mark == alive)
  }

  /** The arena after marking and the collector's `nalive` counter. */
  datatype Marking = Marking(heap: seq<Obj>, nalive: nat)

  predicate IsMarked(h: seq<Obj>, alive: int, p: Ptr)
  {
    p.Ref? && p.index < |h| && h[p.index].mark == alive
  }

  /** Every object marking took from unmarked to `alive` was counted:
      `nalive` rose by at least as much as the unmarked objects fell. */
  predicate Counts(h: seq<Obj>, m: Marking, alive: int, n: nat)
  {
    Unmarked(h, alive) + n <= Unmarked(m.heap, alive) + m.nalive
  }

  /** gc_mark (src/gc.c:19-56) on object `p` with the counter at `n`. A NULL
      pointer is dereferenced (Undefined). A pointer outside the arena is
      Undefined here too; in C it may be a `malloc`ed object (`tlisp_nil`,
      the true and false singletons, NFUNCs, reader objects) that gc_mark
      marks and counts, which this model does not capture. The switch has no
      case for VEC, STRUCTDEF or STRUCT, so those objects are marked and
      counted but what they reference is not. */
  function Mark(h: seq<Obj>, alive: int, n: nat, p: Ptr): (r: Res<Marking>)
    ensures r.Ok? ==> Monotone(h, r.value.heap, alive) && r.value.nalive >= n
    ensures r.Ok? ==> IsMarked(r.value.heap, alive, p)
    ensures r.Err? ==> r.fault in {Undefined, Spins}
    ensures r.Ok? ==> Counts(h, r.value, alive, n)
    decreases Unmarked(h, alive), 2, 0
  {
    if !(p.Ref? && p.index < |h|) then Err(Undefined)
    else if h[p.index].mark == alive then Ok(Marking(h, n))
    else
      var h1 := SetMark(h, p.index, alive);
      UnmarkedSet(h, p.index, alive);
      match h[p.index].val
      case ConsV(car, cdr) =>
        var m :- Mark(h1, alive, n + 1, car);
        MonotoneUnmarked(h1, m.heap, alive);
        var r := MarkSpine(m.heap, alive, m.nalive, cdr, 0, Unmarked(h, alive));
        MonotoneTrans(h, h1, m.heap, alive);
        if r.Ok? then MonotoneTrans(h, m.heap, r.value.heap, alive); r else r
      case DictV(d) =>
        var r := MarkPairs(h1, alive, n + 1, Dict.Visits(d.entries), 0, Unmarked(h, alive));
        if r.Ok? then MonotoneTrans(h, h1, r.value.heap, alive); r else r
      case _ => Ok(Marking(h1, n + 1))
  }

  /** The `cdr` loop of gc_mark (src/gc.c:46-50) from cell `c`, `steps` cells
      into the spine: it stops at NULL and otherwise marks and counts the
      cell and marks its `car`. `bound` exceeds the number of unmarked
      objects; it is what the mutual recursion decreases. */
  function MarkSpine(h: seq<Obj>, alive: int, n: nat, c: Ptr, steps: nat, bound: nat): (r: Res<Marking>)
    requires steps <= |h| && Unmarked(h, alive) < bound
    ensures r.Ok? ==> Monotone(h, r.value.heap, alive) && r.value.nalive >= n
    ensures r.Err? ==> r.fault in {Undefined, Spins}
    ensures r.Ok? ==> Counts(h, r.value, alive, n)
    decreases bound, 1, |h| - steps
  {
    if c == Null then Ok(Marking(h, n))
    else if !Lists.IsCell(h, c) then Err(Undefined)
    else if steps == |h| then Err(Spins)
    else
      var m :- MarkCell(h, alive, n, c, bound);
      var r := MarkSpine(m.heap, alive, m.nalive, h[c.index].val.cdr, steps + 1, bound);
      if r.Ok? then MonotoneTrans(h, m.heap, r.value.heap, alive); r else r
  }

  /** One pass of the `cdr` loop's body (src/gc.c:47-49) on cell `c`: its mark
      is set and counted whatever it was, and its `car` is marked. */
  function MarkCell(h: seq<Obj>, alive: int, n: nat, c: Ptr, bound: nat): (r: Res<Marking>)
    requires Lists.IsCell(h, c) && Unmarked(h, alive) < bound
    ensures r.Ok? ==> Monotone(h, r.value.heap, alive) && r.value.nalive >= n + 1
    ensures r.Ok? ==> Unmarked(r.value.heap, alive) < bound
    ensures r.Ok? ==> IsMarked(r.value.heap, alive, c) && IsMarked(r.value.heap, alive, h[c.index].val.car)
    ensures r.Err? ==> r.fault in {Undefined, Spins}
    ensures r.Ok? ==> Counts(h, r.value, alive, n)
    decreases bound, 0
  {
    var h1 := SetMark(h, c.index, alive);
    UnmarkedSet(h, c.index, alive);
    var m :- Mark(h1, alive, n + 1, h[c.index].val.car);
    MonotoneTrans(h, h1, m.heap, alive);
    MonotoneUnmarked(h, m.heap, alive);
    Ok(m)
  }

  /** One turn of the `cdr` loop: a cell is marked by MarkCell and the loop
      goes on from its `cdr` with the same result. */
  lemma SpineStep(h: seq<Obj>, alive: int, n: nat, c: Ptr, steps: nat, bound: nat) returns (m: Marking)
    requires steps <= |h| && Unmarked(h, alive) < bound
    requires c != Null && MarkSpine(h, alive, n, c, steps, bound).Ok?
    ensures Lists.IsCell(h, c) && steps < |h|
    ensures MarkCell(h, alive, n, c, bound) == Ok(m) && |m.heap| == |h| && Unmarked(m.heap, alive) < bound
    ensures MarkSpine(m.heap, alive, m.nalive, h[c.index].val.cdr, steps + 1, bound) == MarkSpine(h, alive, n, c, steps, bound)
  {
    m := MarkCell(h, alive, n, c, bound).value;
  }

  /** The `cdr` loop walks the whole spine: it ends only at NULL, marks and
      counts every cell and marks every cell's `car`. */
  lemma {:induction false} MarkSpineCovers(h: seq<Obj>, alive: int, n: nat, c: Ptr, steps: nat, bound: nat)
    requires steps <= |h| && Unmarked(h, alive) < bound
    requires MarkSpine(h, alive, n, c, steps, bound).Ok?
    ensures var r := MarkSpine(h, alive, n, c, steps, bound).value;
      Covered(h, r.heap, alive, c, steps) && r.nalive >= n + SpineLen(h, c, steps)
    decreases |h| - steps
  {
    if c != Null {
      var m := MarkCell(h, alive, n, c, bound).value;
      var cdr := h[c.index].val.cdr;
      MarkSpineCovers(m.heap, alive, m.nalive, cdr, steps + 1, bound);
      CoverStep(h, m, MarkSpine(m.heap, alive, m.nalive, cdr, steps + 1, bound).value, alive, n, c, steps);
    }
  }

  /** The coverage of one more cell in front of a covered spine. */
  lemma CoverStep(h: seq<Obj>, m: Marking, r: Marking, alive: int, n: nat, c: Ptr, steps: nat)
    requires steps < |h| && Lists.IsCell(h, c) && |m.heap| == |h|
    requires forall i | 0 <= i < |h| :: m.heap[i].val == h[i].val
    requires IsMarked(m.heap, alive, c) && IsMarked(m.heap, alive, h[c.index].val.car)
    requires Monotone(m.heap, r.heap, alive) && m.nalive >= n + 1
    requires Covered(m.heap, r.heap, alive, h[c.index].val.cdr, steps + 1)
    requires r.nalive >= m.nalive + SpineLen(m.heap, h[c.index].val.cdr, steps + 1)
    ensures Covered(h, r.heap, alive, c, steps) && r.nalive >= n + SpineLen(h, c, steps)
  {
    SameVals(h, m.heap, r.heap, alive, h[c.index].val.cdr, steps + 1);
  }

  /** The spine from `c` (after `steps` cells) ends at NULL, and each of its
      cells and each cell's `car` carries the mark in `h2`. */
  predicate Covered(h: seq<Obj>, h2: seq<Obj>, alive: int, c: Ptr, steps: nat)
    requires steps <= |h|
    decreases |h| - steps
  {
    c == Null ||
      (Lists.IsCell(h, c) && steps < |h| && IsMarked(h2, alive, c) && IsMarked(h2, alive, h[c.index].val.car)
        && Covered(h, h2, alive, h[c.index].val.cdr, steps + 1))
  }

  /** The number of cells of the spine from `c` before it ends or breaks. */
  function SpineLen(h: seq<Obj>, c: Ptr, steps: nat): nat
    requires steps <= |h|
    decreases |h| - steps
  {
    if c == Null || !Lists.IsCell(h, c) || steps == |h| then 0
    else 1 + SpineLen(h, h[c.index].val.cdr, steps + 1)
  }

  /** Covered and SpineLen read only values, which marking leaves alone. */
  lemma {:induction false} SameVals(h: seq<Obj>, h1: seq<Obj>, h2: seq<Obj>, alive: int, c: Ptr, steps: nat)
    requires steps <= |h| && |h1| == |h|
    requires forall i | 0 <= i < |h| :: h1[i].val == h[i].val
    ensures SpineLen(h1, c, steps) == SpineLen(h, c, steps)
    ensures Covered(h1, h2, alive, c, steps) == Covered(h, h2, alive, c, steps)
    decreases |h| - steps
  {
    if c != Null && Lists.IsCell(h, c) && steps < |h| {
      SameVals(h, h1, h2, alive, h[c.index].val.cdr, steps + 1);
    }
  }

  /** A covered spine is a list of the arena whose cells and elements are
      all marked, and it has SpineLen cells. */
  lemma {:induction false} CoveredCells(h: seq<Obj>, h2: seq<Obj>, alive: int, c: Ptr, steps: nat)
    requires steps <= |h| && Covered(h, h2, alive, c, steps)
    ensures Lists.CellsFrom(h, c, steps).Ok?
    ensures |Lists.CellsFrom(h, c, steps).value| == SpineLen(h, c, steps)
    ensures forall k | 0 <= k < |Lists.CellsFrom(h, c, steps).value| ::
      IsMarked(h2, alive, Ref(Lists.CellsFrom(h, c, steps).value[k]))
      && IsMarked(h2, alive, h[Lists.CellsFrom(h, c, steps).value[k]].val.car)
    decreases |h| - steps
  {
    if c != Null {
      var cdr := h[c.index].val.cdr;
      CoveredCells(h, h2, alive, cdr, steps + 1);
      var rest := Lists.CellsFrom(h, cdr, steps + 1).value;
      var cells := [c.index] + rest;
      assert Lists.CellsFrom(h, c, steps) == Ok(cells);
      forall k | 1 <= k < |cells|
        ensures IsMarked(h2, alive, Ref(cells[k])) && IsMarked(h2, alive, h[cells[k]].val.car)
      {
        assert cells[k] == rest[k - 1];
      }
    }
  }

  /** dict_for_each with the visitor gc_mark_dict (src/gc.c:12-17, 52-54):
      the key and the value of each valid entry, in slot order. */
  function MarkPairs(h: seq<Obj>, alive: int, n: nat, pairs: seq<(Ptr, Ptr)>, i: nat, bound: nat): (r: Res<Marking>)
    requires i <= |pairs| && Unmarked(h, alive) < bound
    ensures r.Ok? ==> Monotone(h, r.value.heap, alive) && r.value.nalive >= n
    ensures r.Ok? ==> forall j | i <= j < |pairs| ::
      IsMarked(r.value.heap, alive, pairs[j].0) && IsMarked(r.value.heap, alive, pairs[j].1)
    ensures r.Err? ==> r.fault in {Undefined, Spins}
    ensures r.Ok? ==> Counts(h, r.value, alive, n)
    decreases bound, 1, |pairs| - i
  {
    if i == |pairs| then Ok(Marking(h, n))
    else
      var m1 :- Mark(h, alive, n, pairs[i].0);
      MonotoneUnmarked(h, m1.heap, alive);
      var m2 :- Mark(m1.heap, alive, m1.nalive, pairs[i].1);
      MonotoneTrans(h, m1.heap, m2.heap, alive);
      MonotoneUnmarked(h, m2.heap, alive);
      var r := MarkPairs(m2.heap, alive, m2.nalive, pairs, i + 1, bound);
      if r.Ok? then MonotoneTrans(h, m2.heap, r.value.heap, alive); r else r
  }

  /** env_for_each with the visitor gc_mark (src/gc.c:109), over the bound
      objects in the order the walk hands them over. */
  function MarkRoots(h: seq<Obj>, alive: int, n: nat, roots: seq<Ptr>): (r: Res<Marking>)
    ensures r.Ok? ==> Monotone(h, r.value.heap, alive) && r.value.nalive >= n
    ensures r.Ok? ==> forall j | 0 <= j < |roots| :: IsMarked(r.value.heap, alive, roots[j])
    ensures r.Err? ==> r.fault in {Undefined, Spins}
    ensures r.Ok? ==> Counts(h, r.value, alive, n)
    decreases |roots|
  {
    if roots == [] then Ok(Marking(h, n))
    else
      var m :- Mark(h, alive, n, roots[0]);
      var r := MarkRoots(m.heap, alive, m.nalive, roots[1..]);
      if r.Err? then r
      else
        MonotoneTrans(h, m.heap, r.value.heap, alive);
        assert forall j | 1 <= j < |roots| :: roots[j] == roots[1..][j - 1];
        r
  }

  /** The objects heap_shrink keeps (src/gc.c:91-98): those whose mark is
      `alive`, in their order in the arena. */
  function Survivors(h: seq<Obj>, alive: int): (r: seq<Obj>)
    ensures |r| == Marked(h, alive)
    ensures forall k | 0 <= k < |r| :: r[k].mark == alive
  {
    if h == [] then []
    else Survivors(h[..|h| - 1], alive) + (if h[|h| - 1].mark == alive then [h[|h| - 1]] else [])
  }

  /** The number of objects before index `i` whose mark is `alive`: where
      heap_shrink puts object `i` if it keeps it. */
  function Rank(h: seq<Obj>, alive: int, i: nat): nat
    requires i <= |h|
  {
    Marked(h[..i], alive)
  }

  /** The compaction condition of gc (src/gc.c:110-111). */
  predicate ShouldShrink(nalive: nat, heapLen: nat)
  {
    nalive < heapLen / 4 && nalive * OBJ_SIZE * 2 >= MIN_HEAP_SIZE
  }

  /** `ALIVE = ALIVE == 1 ? 2 : 1` (src/gc.c:115). */
  function NextEpoch(alive: int): (r: int)
    ensures r in {1, 2} && r != alive
  {
    if alive == 1 then 2 else 1
  }

  /** The state the collector works on: the arena, `heap_cap`, `nalive`
      and the epoch. */
  datatype Heap = Heap(objs: seq<Obj>, cap: nat, nalive: nat, alive: int)

  /** gc (src/gc.c:104-116) with the given roots. */
  function Collect(g: Heap, roots: seq<Ptr>): (r: Res<Heap>)
    ensures r.Ok? ==> r.value.alive == NextEpoch(g.alive)
  {
    var m :- MarkRoots(g.objs, g.alive, 0, roots);
    if ShouldShrink(m.nalive, |m.heap|) then
      Ok(Heap(Survivors(m.heap, g.alive), m.nalive * 2, m.nalive, NextEpoch(g.alive)))
    else
      Ok(Heap(m.heap, g.cap, m.nalive, NextEpoch(g.alive)))
  }

  // ---------------------------------------------------------------------
  // Lemmas
  // ---------------------------------------------------------------------

  lemma {:induction false} UnmarkedSet(h: seq<Obj>, i: nat, alive: int)
    requires i < |h|
    ensures Unmarked(SetMark(h, i, alive), alive) == Unmarked(h, alive) - (if h[i].mark != alive then 1 else 0)
    ensures Monotone(h, SetMark(h, i, alive), alive)
    decreases |h|
  {
    var n := |h| - 1;
    var h2 := SetMark(h, i, alive);
    if i == n {
      assert h2[..n] == h[..n];
    } else {
      assert h2[..n] == SetMark(h[..n], i, alive);
      UnmarkedSet(h[..n], i, alive);
    }
  }

  /** Marking never adds unmarked objects. */
  lemma {:induction false} MonotoneUnmarked(h: seq<Obj>, h2: seq<Obj>, alive: int)
    requires Monotone(h, h2, alive)
    ensures Unmarked(h2, alive) <= Unmarked(h, alive)
    decreases |h|
  {
    if h != [] {
      var n := |h| - 1;
      MonotoneUnmarked(h[..n], h2[..n], alive);
    }
  }

  lemma MonotoneTrans(h1: seq<Obj>, h2: seq<Obj>, h3: seq<Obj>, alive: int)
    requires Monotone(h1, h2, alive) && Monotone(h2, h3, alive)
    ensures Monotone(h1, h3, alive)
  {
  }


  lemma {:induction false} MonotoneMarked(h: seq<Obj>, h2: seq<Obj>, alive: int)
    requires Monotone(h, h2, alive)
    ensures Marked(h2, alive) >= Marked(h, alive)
  {
    MonotoneUnmarked(h, h2, alive);
  }

  // ---------------------------------------------------------------------
  // What marking reaches
  // ---------------------------------------------------------------------

  /** Marking a cons cell that is not yet marked marks its `car` and walks
      the spine from its `cdr` to NULL: that spine is a list of the arena,
      and every cell and every element of it is marked. The cell and each
      spine cell are counted. */
  lemma {:induction false} MarkConsCovers(h: seq<Obj>, alive: int, n: nat, p: Ptr)
    requires p.Ref? && p.index < |h| && h[p.index].mark != alive && h[p.index].val.ConsV?
    requires Mark(h, alive, n, p).Ok?
    ensures var r := Mark(h, alive, n, p).value;
      var cdr := h[p.index].val.cdr;
      && IsMarked(r.heap, alive, h[p.index].val.car)
      && Lists.Cells(h, cdr).Ok?
      && r.nalive >= n + 1 + |Lists.Cells(h, cdr).value|
      && forall k | 0 <= k < |Lists.Cells(h, cdr).value| ::
           IsMarked(r.heap, alive, Ref(Lists.Cells(h, cdr).value[k]))
           && IsMarked(r.heap, alive, h[Lists.Cells(h, cdr).value[k]].val.car)
  {
    var r := Mark(h, alive, n, p).value;
    var cdr := h[p.index].val.cdr;
    var h1 := SetMark(h, p.index, alive);
    UnmarkedSet(h, p.index, alive);
    var m := Mark(h1, alive, n + 1, h[p.index].val.car).value;
    MonotoneUnmarked(h1, m.heap, alive);
    assert r == MarkSpine(m.heap, alive, m.nalive, cdr, 0, Unmarked(h, alive)).value;
    MarkSpineCovers(m.heap, alive, m.nalive, cdr, 0, Unmarked(h, alive));
    SameVals(h, m.heap, r.heap, alive, cdr, 0);
    CoveredCells(h, r.heap, alive, cdr, 0);
  }

  /** Marking a dictionary that is not yet marked marks the key and the
      value of every valid entry. */
  lemma {:induction false} MarkDictCovers(h: seq<Obj>, alive: int, n: nat, p: Ptr)
    requires p.Ref? && p.index < |h| && h[p.index].mark != alive && h[p.index].val.DictV?
    requires Mark(h, alive, n, p).Ok?
    ensures var r := Mark(h, alive, n, p).value;
      var pairs := Dict.Visits(h[p.index].val.dict.entries);
      forall j | 0 <= j < |pairs| :: IsMarked(r.heap, alive, pairs[j].0) && IsMarked(r.heap, alive, pairs[j].1)
  {
  }

  /** An object that already carries the epoch's mark is neither descended
      into nor counted; any other object is counted once more. */
  lemma {:induction false} MarkSkipsMarked(h: seq<Obj>, alive: int, n: nat, p: Ptr)
    requires Mark(h, alive, n, p).Ok?
    ensures IsMarked(h, alive, p) ==> Mark(h, alive, n, p) == Ok(Marking(h, n))
    ensures !IsMarked(h, alive, p) ==> Mark(h, alive, n, p).value.nalive >= n + 1
  {
    if !IsMarked(h, alive, p) {
      UnmarkedSet(h, p.index, alive);
      var h1 := SetMark(h, p.index, alive);
      match h[p.index].val
      case ConsV(car, cdr) =>
        var m := Mark(h1, alive, n + 1, car).value;
        MonotoneUnmarked(h1, m.heap, alive);
      case DictV(d) =>
      case _ =>
    }
  }

  // ---------------------------------------------------------------------
  // What compaction keeps
  // ---------------------------------------------------------------------

  lemma {:induction false} RankMonotone(h: seq<Obj>, alive: int, i: nat, j: nat)
    requires i <= j <= |h|
    ensures Rank(h, alive, i) <= Rank(h, alive, j)
    ensures i < j && h[i].mark == alive ==> Rank(h, alive, i) < Rank(h, alive, j)
    decreases j - i
  {
    if i < j {
      RankMonotone(h, alive, i, j - 1);
      assert h[..j][..j - 1] == h[..j - 1];
      if h[i].mark == alive {
        RankMonotone(h, alive, i + 1, j);
        assert h[..i + 1][..i] == h[..i];
      }
    }
  }

  /** heap_shrink keeps object `i` when it carries the epoch's mark, at the
      position given by the number of kept objects before it. */
  lemma {:induction false} SurvivorAt(h: seq<Obj>, alive: int, i: nat)
    requires i < |h| && h[i].mark == alive
    ensures Rank(h, alive, i) < |Survivors(h, alive)|
    ensures Survivors(h, alive)[Rank(h, alive, i)] == h[i]
    decreases |h|
  {
    var n := |h| - 1;
    if i < n {
      assert h[..n][..i] == h[..i];
      SurvivorAt(h[..n], alive, i);
    }
  }

  /** Every kept object comes from an object of the arena that carries the
      epoch's mark, at the position its rank gives. */
  lemma {:induction false} SurvivorOrigin(h: seq<Obj>, alive: int, k: nat) returns (i: nat)
    requires k < |Survivors(h, alive)|
    ensures i < |h| && h[i].mark == alive && Rank(h, alive, i) == k
    ensures Survivors(h, alive)[k] == h[i]
    decreases |h|
  {
    var n := |h| - 1;
    if k < |Survivors(h[..n], alive)| {
      i := SurvivorOrigin(h[..n], alive, k);
      assert h[..n][..i] == h[..i];
    } else {
      i := n;
      assert h[..n] == h[..i];
    }
  }

  /** Survivors keep their relative order: an earlier kept object lands
      before a later one. */
  lemma {:induction false} SurvivorsInOrder(h: seq<Obj>, alive: int, i: nat, j: nat)
    requires i < j < |h| && h[i].mark == alive && h[j].mark == alive
    ensures Rank(h, alive, i) < Rank(h, alive, j) < |Survivors(h, alive)|
    ensures Survivors(h, alive)[Rank(h, alive, i)] == h[i] && Survivors(h, alive)[Rank(h, alive, j)] == h[j]
  {
    RankMonotone(h, alive, i, j);
    SurvivorAt(h, alive, i);
    SurvivorAt(h, alive, j);
  }

  // ---------------------------------------------------------------------
  // A whole collection
  // ---------------------------------------------------------------------

  /** A collection marks every root; when it compacts, the arena becomes
      the marked objects in order, `heap_cap` becomes twice `nalive`;
      otherwise the arena keeps its length and `heap_cap`. */
  lemma {:induction false} CollectShape(g: Heap, roots: seq<Ptr>)
    requires Collect(g, roots).Ok?
    ensures var m := MarkRoots(g.objs, g.alive, 0, roots).value;
      var r := Collect(g, roots).value;
      && (forall j | 0 <= j < |roots| :: IsMarked(m.heap, g.alive, roots[j]))
      && r.nalive == m.nalive
      && (ShouldShrink(m.nalive, |g.objs|) ==>
            r.objs == Survivors(m.heap, g.alive) && |r.objs| == Marked(m.heap, g.alive) && r.cap == 2 * m.nalive)
      && (!ShouldShrink(m.nalive, |g.objs|) ==> r.objs == m.heap && r.cap == g.cap)
  {
  }

  /** An object that carried the epoch's mark before the collection (marked
      two collections earlier, since the epoch alternates) survives a
      compaction whether or not a root reaches it. */
  lemma {:induction false} StaleSurvives(g: Heap, roots: seq<Ptr>, i: nat)
    requires Collect(g, roots).Ok? && i < |g.objs| && g.objs[i].mark == g.alive
    requires ShouldShrink(MarkRoots(g.objs, g.alive, 0, roots).value.nalive, |g.objs|)
    ensures exists k | 0 <= k < |Collect(g, roots).value.objs| ::
      Collect(g, roots).value.objs[k].val == g.objs[i].val
  {
    var m := MarkRoots(g.objs, g.alive, 0, roots).value;
    SurvivorAt(m.heap, g.alive, i);
    var k := Rank(m.heap, g.alive, i);
    assert Collect(g, roots).value.objs[k].val == g.objs[i].val;
  }

  /** When more objects carry the epoch's mark before marking than twice
      the count marking then reports, a compaction keeps more objects than
      the new `heap_cap` holds (heap_shrink then copies past the end of the
      arena it allocated). */
  lemma {:induction false} StaleOverflow(g: Heap, roots: seq<Ptr>)
    requires Collect(g, roots).Ok?
    requires ShouldShrink(MarkRoots(g.objs, g.alive, 0, roots).value.nalive, |g.objs|)
    requires Marked(g.objs, g.alive) > 2 * MarkRoots(g.objs, g.alive, 0, roots).value.nalive
    ensures |Collect(g, roots).value.objs| > Collect(g, roots).value.cap
  {
    var m := MarkRoots(g.objs, g.alive, 0, roots).value;
    MonotoneMarked(g.objs, m.heap, g.alive);
  }

  /** The arena with every mark set to the other epoch, the state the
      collector evidently relies on: no object carries the epoch's mark
      before marking starts, so only what marking reaches survives. */
  function ClearMarks(h: seq<Obj>, alive: int): (r: seq<Obj>)
    ensures |r| == |h| && Unmarked(r, alive) == |h|
    ensures forall i | 0 <= i < |h| :: r[i].val == h[i].val
  {
    if h == [] then []
    else
      var r := ClearMarks(h[..|h| - 1], alive) + [h[|h| - 1].(mark := NextEpoch(alive))];
      assert r[..|h| - 1] == ClearMarks(h[..|h| - 1], alive);
      r
  }

  /** gc as evidently intended: the collection of Collect, started from an
      arena that carries no stale marks. */
  function CollectCleared(g: Heap, roots: seq<Ptr>): (r: Res<Heap>)
    ensures r.Ok? ==> r.value.alive == NextEpoch(g.alive)
  {
    Collect(g.(objs := ClearMarks(g.objs, g.alive)), roots)
  }

  /** Without stale marks, a compaction keeps no more objects than marking
      counted, so they fit in the `2 * nalive` slots heap_shrink allocates. */
  lemma {:induction false} ClearedFits(g: Heap, roots: seq<Ptr>)
    requires CollectCleared(g, roots).Ok?
    ensures var r := CollectCleared(g, roots).value;
      ShouldShrink(r.nalive, |g.objs|) ==> |r.objs| <= r.nalive && |r.objs| <= r.cap
  {
    var g0 := g.(objs := ClearMarks(g.objs, g.alive));
    CollectShape(g0, roots);
  }
}
