/** The process of src/process.c: the object arena with its allocator, the
    file table, and the collector of src/gc.c run in place on the arena.

    The arena is `heap` (its length is `heap_len`), `heapCap` is
    `heap_cap`. An object's address is its index in the arena; growing the
    arena copies it, which keeps every index, so the copy is the identity
    here. The collector's epoch, the static `ALIVE` of src/gc.c:8, is the
    field `alive`. An open file is known only by an abstract handle. */
module Process {
  import opened Base
  import opened Core
  import Dict
  import Gc
  import Lists

  /** What `fopen` returned, seen only as a handle. */
  type FileHandle = nat

  /** `(MIN_HEAP_SIZE + sizeof(tlisp_obj_t) - 1) / sizeof(tlisp_obj_t)`
      (src/process.c:33), the rounded-up number of objects in MIN_HEAP_SIZE. */
  function InitialCap(): (c: nat)
    ensures c * Gc.OBJ_SIZE >= Gc.MIN_HEAP_SIZE && (c - 1) * Gc.OBJ_SIZE < Gc.MIN_HEAP_SIZE
  {
    (Gc.MIN_HEAP_SIZE + Gc.OBJ_SIZE - 1) / Gc.OBJ_SIZE
  }

  /** The tags whose constructor DEF_CONSTRUCTOR generates (src/process.c:48-62):
      it sets the tag and nothing else. */
  predicate PlainTag(t: Tag)
  {
    t in {STRING, SYMBOL, NUM, LAMBDA, MACRO, STRUCTDEF, STRUCT}
  }

  /** The capacity new_obj leaves: doubled exactly when the arena is full. */
  function GrownCap(len: nat, cap: nat): (r: nat)
    ensures len <= cap && cap > 0 ==> len < r && (r == cap || r == 2 * cap)
  {
    if len == cap then 2 * cap else cap
  }

  /** The handle table after entry `k` of the first `n` is closed: later
      entries move down by one, and the slot that was last keeps its old
      handle. */
  function Shifted(t: seq<FileHandle>, k: nat, n: nat): (r: seq<FileHandle>)
    requires k < n <= |t|
    ensures |r| == |t|
    ensures r[..n - 1] == t[..k] + t[k + 1..n]
    ensures r[n - 1..] == t[n - 1..]
  {
    t[..k] + t[k + 1..n] + t[n - 1..]
  }

  /** proc_fcheck (src/process.c:88-94) on the object a handle refers to. */
  predicate FileCheck(v: Val, nfiles: nat)
  {
    v.NumV? && 0 <= v.num < nfiles
  }

  class Process {
    var heap: seq<Obj>
    var heapCap: nat
    var nalive: nat
    var alive: int
    var currExpr: Ptr
    var nfiles: nat
    /** `ftable`; its length is MAX_FILES, which none of the files shown
        defines. */
    const ftable: array<FileHandle>

    ghost predicate Valid()
      reads this
    {
      heapCap > 0 && |heap| <= heapCap && alive in {1, 2} && nfiles <= ftable.Length
    }

    /** proc_init (src/process.c:29-36) with a file table of `maxFiles`
        slots. The collector's epoch starts at 1 (src/gc.c:8). proc_init
        never sets `nfiles`; the model starts the table empty. */
    constructor (maxFiles: nat)
      ensures Valid()
      ensures heap == [] && nalive == 0 && heapCap == InitialCap() && currExpr == Null
      ensures alive == 1 && nfiles == 0 && ftable.Length == maxFiles
    {
      heap := [];
      nalive := 0;
      heapCap := InitialCap();
      currExpr := Null;
      alive := 1;
      nfiles := 0;
      ftable := new FileHandle[maxFiles];
    }

    /** new_obj (src/process.c:9-27) followed by the caller's fill of the
        object: the arena grows by exactly that object, unmarked, at index
        `heap_len`, after doubling `heap_cap` when the arena was full. */
    method NewObj(v: Val) returns (p: Ptr)
      requires Valid()
      modifies this
      ensures Valid()
      ensures p == Ref(|old(heap)|) && heap == old(heap) + [Obj(v, 0)]
      ensures heapCap == GrownCap(|old(heap)|, old(heapCap))
      ensures nalive == old(nalive) && alive == old(alive) && nfiles == old(nfiles) && currExpr == old(currExpr)
    {
      if |heap| == heapCap {
        heapCap := heapCap * 2;
      }
      p := Ref(|heap|);
      heap := heap + [Obj(v, 0)];
    }

    /** The constructors DEF_CONSTRUCTOR generates (src/process.c:48-62),
        with the fields the caller then fills. */
    method NewPlain(v: Val) returns (p: Ptr)
      requires Valid() && PlainTag(TagOf(v))
      modifies this
      ensures Valid()
      ensures p == Ref(|old(heap)|) && heap == old(heap) + [Obj(v, 0)] && TagOf(heap[p.index].val) == TagOf(v)
      ensures heapCap == GrownCap(|old(heap)|, old(heapCap))
      ensures nalive == old(nalive) && alive == old(alive) && nfiles == old(nfiles) && currExpr == old(currExpr)
    {
      p := NewObj(v);
    }

    /** proc_new_cons (src/process.c:64-70): the new cell's `cdr` is NULL. */
    method NewCons(car: Ptr) returns (p: Ptr)
      requires Valid()
      modifies this
      ensures Valid()
      ensures p == Ref(|old(heap)|) && heap == old(heap) + [Obj(ConsV(car, Null), 0)]
      ensures heapCap == GrownCap(|old(heap)|, old(heapCap))
      ensures nalive == old(nalive) && alive == old(alive) && nfiles == old(nfiles) && currExpr == old(currExpr)
    {
      p := NewObj(ConsV(car, Null));
    }

    /** proc_new_dict (src/process.c:72-78): an empty dictionary. */
    method NewDict() returns (p: Ptr)
      requires Valid()
      modifies this
      ensures Valid()
      ensures p == Ref(|old(heap)|) && heap == old(heap) + [Obj(DictV(Dict.New()), 0)]
      ensures heapCap == GrownCap(|old(heap)|, old(heapCap))
      ensures nalive == old(nalive) && alive == old(alive) && nfiles == old(nfiles) && currExpr == old(currExpr)
    {
      p := NewObj(DictV(Dict.New()));
    }

    /** proc_new_vec (src/process.c:80-86): an empty vector. */
    method NewVec() returns (p: Ptr)
      requires Valid()
      modifies this
      ensures Valid()
      ensures p == Ref(|old(heap)|) && heap == old(heap) + [Obj(VecV([]), 0)]
      ensures heapCap == GrownCap(|old(heap)|, old(heapCap))
      ensures nalive == old(nalive) && alive == old(alive) && nfiles == old(nfiles) && currExpr == old(currExpr)
    {
      p := NewObj(VecV([]));
    }

    /** proc_open (src/process.c:96-113). `result` is what `fopen` returned
        (None for NULL); it is not consulted when the table is full. */
    method Open(result: Option<FileHandle>) returns (fobj: Ptr)
      requires Valid()
      modifies this, ftable
      ensures Valid()
      ensures (old(nfiles) == ftable.Length || result.None?) ==>
        fobj == Null && heap == old(heap) && nfiles == old(nfiles) && ftable[..] == old(ftable[..])
      ensures old(nfiles) < ftable.Length && result.Some? ==>
        && fobj == Ref(|old(heap)|) && heap == old(heap) + [Obj(NumV(old(nfiles)), 0)]
        && nfiles == old(nfiles) + 1 && ftable[..] == old(ftable[..])[old(nfiles) := result.value]
      ensures nalive == old(nalive) && alive == old(alive) && currExpr == old(currExpr)
    {
      if nfiles == ftable.Length {
        return Null;
      }
      if result.None? {
        return Null;
      }
      fobj := NewObj(NumV(nfiles));
      ftable[nfiles] := result.value;
      nfiles := nfiles + 1;
    }

    /** proc_getf (src/process.c:115-121) on the object `v` a handle refers to. */
    method GetF(v: Val) returns (f: Option<FileHandle>)
      requires Valid()
      ensures FileCheck(v, nfiles) <==> f.Some?
      ensures f.Some? ==> f.value == ftable[v.num]
    {
      if !FileCheck(v, nfiles) {
        return None;
      }
      return Some(ftable[v.num]);
    }

    /** proc_close (src/process.c:123-139) on the object `v` a handle refers
        to. `closedOk` is whether `fclose` succeeded. */
    method Close(v: Val, closedOk: bool) returns (res: int)
      requires Valid()
      modifies this, ftable
      ensures Valid()
      ensures !FileCheck(v, old(nfiles)) ==> res == 0 && nfiles == old(nfiles) && ftable[..] == old(ftable[..])
      ensures FileCheck(v, old(nfiles)) ==>
        && res == (if closedOk then 1 else 0) && nfiles == old(nfiles) - 1
        && ftable[..] == Shifted(old(ftable[..]), v.num, old(nfiles))
      ensures heap == old(heap) && heapCap == old(heapCap) && nalive == old(nalive) && alive == old(alive)
      ensures currExpr == old(currExpr)
    {
      if !FileCheck(v, nfiles) {
        return 0;
      }
      res := if closedOk then 1 else 0;
      ghost var t := ftable[..];
      var i := v.num + 1;
      while i < nfiles
        invariant v.num + 1 <= i <= nfiles && nfiles == old(nfiles) && Valid()
        invariant heap == old(heap) && heapCap == old(heapCap) && nalive == old(nalive) && alive == old(alive) && currExpr == old(currExpr)
        invariant ftable[..i - 1] == t[..v.num] + t[v.num + 1..i]
        invariant ftable[i - 1..] == t[i - 1..]
      {
        ftable[i - 1] := ftable[i];
        assert ftable[..i] == ftable[..i - 1] + [t[i]];
        assert t[v.num + 1..i + 1] == t[v.num + 1..i] + [t[i]];
        i := i + 1;
      }
      assert ftable[..] == ftable[..nfiles - 1] + ftable[nfiles - 1..];
      nfiles := nfiles - 1;
    }

    // -------------------------------------------------------------------
    // The collector, in place
    // -------------------------------------------------------------------

    /** gc_mark (src/gc.c:19-56) on object `p`: the arena and `nalive` become
        what Gc.Mark computes. The C code requires a valid pointer and a
        spine walk that ends, which is what the function's success is. */
    method GcMark(p: Ptr)
      requires Gc.Mark(heap, alive, nalive, p).Ok?
      modifies this
      ensures heap == Gc.Mark(old(heap), old(alive), old(nalive), p).value.heap
      ensures nalive == Gc.Mark(old(heap), old(alive), old(nalive), p).value.nalive
      ensures alive == old(alive) && heapCap == old(heapCap) && nfiles == old(nfiles) && currExpr == old(currExpr)
      decreases Gc.Unmarked(heap, alive), 2, 0
    {
      if heap[p.index].mark == alive {
        return;
      }
      ghost var h0 := heap;
      var v := heap[p.index].val;
      Gc.UnmarkedSet(heap, p.index, alive);
      heap := Gc.SetMark(heap, p.index, alive);
      nalive := nalive + 1;
      if v.ConsV? {
        ghost var h1 := heap;
        GcMark(v.car);
        Gc.MonotoneUnmarked(h1, heap, alive);
        MarkSpine(v.cdr, Gc.Unmarked(h0, alive));
      } else if v.DictV? {
        MarkPairs(Dict.Visits(v.dict.entries), Gc.Unmarked(h0, alive));
      }
    }

    /** The `cdr` loop of gc_mark (src/gc.c:46-50) from `c`. */
    method MarkSpine(c: Ptr, ghost bound: nat)
      requires Gc.Unmarked(heap, alive) < bound
      requires Gc.MarkSpine(heap, alive, nalive, c, 0, bound).Ok?
      modifies this
      ensures Gc.Marking(heap, nalive) == Gc.MarkSpine(old(heap), old(alive), old(nalive), c, 0, bound).value
      ensures alive == old(alive) && heapCap == old(heapCap) && nfiles == old(nfiles) && currExpr == old(currExpr)
      decreases bound, 1, 0
    {
      var obj := c;
      ghost var steps := 0;
      ghost var goal := Gc.MarkSpine(heap, alive, nalive, c, 0, bound);
      while obj != Null
        invariant steps <= |heap| && Gc.Unmarked(heap, alive) < bound
        invariant Gc.MarkSpine(heap, alive, nalive, obj, steps, bound) == goal
        invariant alive == old(alive) && heapCap == old(heapCap) && nfiles == old(nfiles) && currExpr == old(currExpr)
        decreases |heap| - steps
      {
        ghost var m := Gc.SpineStep(heap, alive, nalive, obj, steps, bound);
        var cdr := heap[obj.index].val.cdr;
        MarkCell(obj, bound);
        obj := cdr;
        steps := steps + 1;
      }
    }

    /** The body of the `cdr` loop (src/gc.c:47-49) on cell `c`. */
    method MarkCell(c: Ptr, ghost bound: nat)
      requires Lists.IsCell(heap, c) && Gc.Unmarked(heap, alive) < bound
      requires Gc.MarkCell(heap, alive, nalive, c, bound).Ok?
      modifies this
      ensures Gc.Marking(heap, nalive) == Gc.MarkCell(old(heap), old(alive), old(nalive), c, bound).value
      ensures alive == old(alive) && heapCap == old(heapCap) && nfiles == old(nfiles) && currExpr == old(currExpr)
      decreases bound, 0
    {
      Gc.UnmarkedSet(heap, c.index, alive);
      heap := heap[c.index := heap[c.index].(mark := alive)];
      nalive := nalive + 1;
      GcMark(heap[c.index].val.car);
    }

    /** dict_for_each with the visitor gc_mark_dict (src/gc.c:12-17, 52-54)
        over the valid entries `pairs` in slot order. */
    method MarkPairs(pairs: seq<(Ptr, Ptr)>, ghost bound: nat)
      requires Gc.Unmarked(heap, alive) < bound
      requires Gc.MarkPairs(heap, alive, nalive, pairs, 0, bound).Ok?
      modifies this
      ensures Gc.Marking(heap, nalive) == Gc.MarkPairs(old(heap), old(alive), old(nalive), pairs, 0, bound).value
      ensures alive == old(alive) && heapCap == old(heapCap) && nfiles == old(nfiles) && currExpr == old(currExpr)
      decreases bound, 1, 0
    {
      ghost var goal := Gc.MarkPairs(heap, alive, nalive, pairs, 0, bound);
      for i := 0 to |pairs|
        invariant Gc.Unmarked(heap, alive) < bound
        invariant Gc.MarkPairs(heap, alive, nalive, pairs, i, bound) == goal
        invariant alive == old(alive) && heapCap == old(heapCap) && nfiles == old(nfiles) && currExpr == old(currExpr)
      {
        ghost var h1 := heap;
        GcMark(pairs[i].0);
        Gc.MonotoneUnmarked(h1, heap, alive);
        ghost var h2 := heap;
        GcMark(pairs[i].1);
        Gc.MonotoneUnmarked(h2, heap, alive);
      }
    }

    /** heap_shrink (src/gc.c:82-102): `heap_cap` becomes twice `nalive` and
        the arena keeps, in order, the objects that carry the epoch's mark. */
    method HeapShrink()
      modifies this
      ensures heap == Gc.Survivors(old(heap), old(alive)) && heapCap == 2 * nalive
      ensures nalive == old(nalive) && alive == old(alive) && nfiles == old(nfiles) && currExpr == old(currExpr)
    {
      heapCap := nalive * 2;
      var kept: seq<Obj> := [];
      for i := 0 to |heap|
        invariant kept == Gc.Survivors(heap[..i], alive)
      {
        assert heap[..i + 1][..i] == heap[..i];
        if heap[i].mark == alive {
          kept := kept + [heap[i]];
        }
      }
      assert heap[..|heap|] == heap;
      heap := kept;
    }

    /** gc (src/gc.c:104-116) with the roots env_for_each hands over: the
        new state is what Gc.Collect computes. */
    method Collect(roots: seq<Ptr>)
      requires Gc.Collect(Gc.Heap(heap, heapCap, nalive, alive), roots).Ok?
      modifies this
      ensures Gc.Collect(Gc.Heap(old(heap), old(heapCap), old(nalive), old(alive)), roots)
        == Ok(Gc.Heap(heap, heapCap, nalive, alive))
      ensures nfiles == old(nfiles) && currExpr == old(currExpr)
    {
      ghost var goal := Gc.MarkRoots(heap, alive, 0, roots);
      nalive := 0;
      for j := 0 to |roots|
        invariant alive == old(alive) && heapCap == old(heapCap) && nfiles == old(nfiles) && currExpr == old(currExpr)
        invariant Gc.MarkRoots(heap, alive, nalive, roots[j..]) == goal
      {
        assert roots[j..][0] == roots[j] && roots[j..][1..] == roots[j + 1..];
        GcMark(roots[j]);
      }
      assert roots[|roots|..] == [];
      assert Gc.Marking(heap, nalive) == goal.value;
      if nalive < |heap| / 4 && nalive * Gc.OBJ_SIZE * 2 >= Gc.MIN_HEAP_SIZE {
        HeapShrink();
      }
      alive := if alive == 1 then 2 else 1;
    }
  }

  /** A successful close drops exactly the closed handle from the open
      ones and keeps the order of the others. */
  lemma CloseDropsOne(t: seq<FileHandle>, k: nat, n: nat)
    requires k < n <= |t|
    ensures |Shifted(t, k, n)[..n - 1]| == n - 1
    ensures forall i | 0 <= i < k :: Shifted(t, k, n)[i] == t[i]
    ensures forall i | k <= i < n - 1 :: Shifted(t, k, n)[i] == t[i + 1]
  {
    var r := Shifted(t, k, n);
    forall i | 0 <= i < n - 1
      ensures r[i] == (if i < k then t[i] else t[i + 1])
    {
      assert r[i] == r[..n - 1][i];
    }
  }
}
