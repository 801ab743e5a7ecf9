/**
 * The growable vector of src/vector.c: `len` elements stored at the front of
 * an array of `cap` slots. The capacity doubles when the array is full and
 * halves when at most a quarter is used, never going below `MIN_CAP`.
 */
module Vector {
  import opened Base

  const MIN_CAP: int := 8

  /** The capacity vec_check_resize (src/vector.c:20-34) leaves behind. */
  function ResizedCap(len: int, cap: int): int
  {
    if len == cap then cap * 2
    else if len <= cap / 4 && cap / 2 >= MIN_CAP then cap / 2
    else cap
  }

  /** vec_check_resize keeps the capacity at least `MIN_CAP` and at least `len`,
      and leaves room for one more element. */
  lemma ResizedCapBounds(len: int, cap: int)
    requires 0 <= len <= cap && cap >= MIN_CAP
    ensures ResizedCap(len, cap) >= MIN_CAP
    ensures len < ResizedCap(len, cap)
  {
  }

  /** The shift loop of vec_ins_at (src/vector.c:51-53) as written starts at
      `i = len`, so its first write is to `elems[len + 1]`, after the capacity
      check. This says when that slot lies outside the array. */
  predicate InsAtWritesPastEnd(len: int, cap: int)
  {
    len + 1 >= ResizedCap(len, cap)
  }

  /** The out-of-bounds write happens exactly when the vector is one short of
      full: then vec_check_resize does not grow it. */
  lemma InsAtPastEndExactly(len: int, cap: int)
    requires 0 <= len <= cap && cap >= MIN_CAP
    ensures InsAtWritesPastEnd(len, cap) <==> len == cap - 1
  {
  }

  /** The index of the first element `eq` matches, as vec_rem (src/vector.c:71-76)
      scans for it. */
  function FirstMatch<T>(s: seq<T>, x: T, eq: (T, T) -> bool): (r: Option<nat>)
    ensures r.Some? ==> r.value < |s| && eq(s[r.value], x)
    ensures r.Some? ==> forall j | 0 <= j < r.value :: !eq(s[j], x)
    ensures r.None? ==> forall j | 0 <= j < |s| :: !eq(s[j], x)
  {
    if s == [] then None
    else if eq(s[0], x) then Some(0)
    else match FirstMatch(s[1..], x, eq)
      case None => None
      case Some(i) => Some(i + 1)
  }

  /** A sequence that agrees with `s` before `idx`, holds `x` at `idx` and `s`
      shifted up by one after it is `s` with `x` inserted at `idx`. */
  lemma ShiftedIsInsert<T>(a: seq<T>, s: seq<T>, idx: int, x: T)
    requires 0 <= idx <= |s| && |a| == |s| + 1 && a[idx] == x
    requires forall j | 0 <= j < idx :: a[j] == s[j]
    requires forall j | idx < j < |a| :: a[j] == s[j - 1]
    ensures a == s[..idx] + [x] + s[idx..]
  {
  }

  /** `tlisp_vector_t`: the elements are `elems[..len]`. */
  class Vec<T(0)> {
    var len: int
    var cap: int
    var elems: array<T>

    ghost predicate Valid()
      reads this
    {
      elems.Length == cap && 0 <= len <= cap && cap >= MIN_CAP
    }

    ghost function Items(): seq<T>
      reads this, elems
      requires Valid()
    {
      elems[..len]
    }

    /** vec_init (src/vector.c:8-13). */
    constructor ()
      ensures Valid() && Items() == [] && cap == MIN_CAP && fresh(elems)
    {
      len := 0;
      cap := MIN_CAP;
      elems := new T[MIN_CAP];
    }

    /** The `realloc` of vec_check_resize: a new array of `newCap` slots that
        starts with the elements. */
    method Realloc(newCap: int)
      requires Valid() && len <= newCap && newCap >= MIN_CAP
      modifies this
      ensures Valid() && fresh(elems) && len == old(len) && cap == newCap
      ensures Items() == old(Items())
    {
      var a := new T[newCap];
      var i := 0;
      while i < len
        invariant Valid() && len == old(len) && elems == old(elems) && a.Length == newCap
        invariant 0 <= i <= len && a != elems
        invariant a[..i] == elems[..i]
      {
        a[i] := elems[i];
        i := i + 1;
      }
      elems := a;
      cap := newCap;
    }

    /** vec_check_resize (src/vector.c:20-34). */
    method CheckResize()
      requires Valid()
      modifies this
      ensures Valid() && (elems == old(elems) || fresh(elems))
      ensures len == old(len) && cap == ResizedCap(old(len), old(cap))
      ensures Items() == old(Items())
    {
      if len == cap {
        Realloc(cap * 2);
        return;
      }
      if len <= cap / 4 && cap / 2 >= MIN_CAP {
        Realloc(cap / 2);
        return;
      }
    }

    /** vec_ins (src/vector.c:36-41): append. */
    method Insert(x: T)
      requires Valid()
      modifies this, elems
      ensures Valid() && (elems == old(elems) || fresh(elems))
      ensures Items() == old(Items()) + [x]
    {
      ResizedCapBounds(len, cap);
      CheckResize();
      elems[len] := x;
      len := len + 1;
    }

    /** The shift loop of vec_ins_at (src/vector.c:51-53), moving `[idx, len)`
        up one slot, in the order meant; the slot at `idx` keeps its value. */
    method ShiftUp(idx: int)
      requires Valid() && 0 <= idx <= len < cap
      modifies elems
      ensures forall j | 0 <= j <= idx :: elems[j] == old(elems[j])
      ensures forall j | idx < j <= len :: elems[j] == old(elems[j - 1])
      ensures forall j | len < j < cap :: elems[j] == old(elems[j])
    {
      var i := len - 1;
      while i >= idx
        invariant idx - 1 <= i < len
        invariant forall j | 0 <= j <= i + 1 :: elems[j] == old(elems[j])
        invariant forall j | i + 1 < j <= len :: elems[j] == old(elems[j - 1])
        invariant forall j | len < j < cap :: elems[j] == old(elems[j])
        decreases i
      {
        elems[i + 1] := elems[i];
        i := i - 1;
      }
    }

    /** vec_ins_at (src/vector.c:43-57), with the shift over `[idx, len)` that the
        loop is meant to perform; see `InsAtWritesPastEnd` for the loop as written. */
    method InsertAt(x: T, idx: int) returns (ok: bool)
      requires Valid()
      modifies this, elems
      ensures Valid() && (elems == old(elems) || fresh(elems))
      ensures ok <==> 0 <= idx <= old(len)
      ensures !ok ==> elems == old(elems) && len == old(len) && cap == old(cap) && elems[..] == old(elems[..])
      ensures ok ==> Items() == old(Items())[..idx] + [x] + old(Items())[idx..]
    {
      if idx < 0 || idx > len {
        return false;
      }
      ghost var s := Items();
      ResizedCapBounds(len, cap);
      CheckResize();
      ShiftUp(idx);
      elems[idx] := x;
      len := len + 1;
      ShiftedIsInsert(Items(), s, idx, x);
      return true;
    }

    /** vec_get (src/vector.c:59-65). */
    method Get(idx: int) returns (r: Option<T>)
      requires Valid()
      ensures 0 <= idx < len ==> r == Some(Items()[idx])
      ensures !(0 <= idx < len) ==> r == None
    {
      if idx < 0 || idx >= len {
        return None;
      }
      return Some(elems[idx]);
    }

    /** vec_rem_at (src/vector.c:80-95). */
    method RemoveAt(idx: int) returns (r: Option<T>)
      requires Valid()
      modifies this, elems
      ensures Valid() && (elems == old(elems) || fresh(elems))
      ensures !(0 <= idx < old(len)) ==> r == None && elems == old(elems) && len == old(len) && cap == old(cap) && elems[..] == old(elems[..])
      ensures 0 <= idx < old(len) ==> r == Some(old(Items())[idx]) && Items() == old(Items())[..idx] + old(Items())[idx + 1..]
      ensures 0 <= idx < old(len) ==> cap == ResizedCap(old(len) - 1, old(cap))
    {
      if idx < 0 || idx >= len {
        return None;
      }
      ghost var s := Items();
      var elem := elems[idx];
      var i := idx;
      while i < len - 1
        invariant Valid() && len == |s| && elems == old(elems) && cap == old(cap)
        invariant idx <= i <= len - 1
        invariant elems[..idx] == s[..idx]
        invariant forall j | idx <= j < i :: elems[j] == s[j + 1]
        invariant forall j | i <= j < len :: elems[j] == s[j]
      {
        elems[i] := elems[i + 1];
        i := i + 1;
      }
      len := len - 1;
      assert Items() == s[..idx] + s[idx + 1..];
      CheckResize();
      return Some(elem);
    }

    /** vec_rem (src/vector.c:67-78): remove the first element `eq` matches. */
    method Remove(x: T, eq: (T, T) -> bool) returns (found: bool)
      requires Valid()
      modifies this, elems
      ensures Valid() && (elems == old(elems) || fresh(elems))
      ensures found <==> FirstMatch(old(Items()), x, eq).Some?
      ensures !found ==> elems == old(elems) && len == old(len) && cap == old(cap) && elems[..] == old(elems[..])
      ensures found ==> var i := FirstMatch(old(Items()), x, eq).value;
                Items() == old(Items())[..i] + old(Items())[i + 1..]
    {
      ghost var s := Items();
      var i := 0;
      while i < len
        invariant Valid() && elems == old(elems) && len == old(len) && cap == old(cap) && elems[..] == old(elems[..])
        invariant 0 <= i <= len && Items() == s
        invariant forall j | 0 <= j < i :: !eq(s[j], x)
      {
        if eq(elems[i], x) {
          FirstAt(s, x, eq, i);
          var _ := RemoveAt(i);
          return true;
        }
        i := i + 1;
      }
      return false;
    }

    /** vec_len (src/vector.c:97-100). */
    function Length(): (n: int)
      reads this
      requires Valid()
      ensures n == |Items()|
    {
      len
    }

    /** vec_for_each (src/vector.c:102-109): the elements handed to the visitor. */
    method ForEach() returns (visited: seq<T>)
      requires Valid()
      ensures visited == Items()
    {
      visited := [];
      var i := 0;
      while i < len
        invariant 0 <= i <= len && visited == elems[..i]
      {
        visited := visited + [elems[i]];
        i := i + 1;
      }
    }
  }

  /** The first match is the index the scan reaches first. */
  lemma {:induction false} FirstAt<T>(s: seq<T>, x: T, eq: (T, T) -> bool, i: nat)
    requires i < |s| && eq(s[i], x)
    requires forall j | 0 <= j < i :: !eq(s[j], x)
    ensures FirstMatch(s, x, eq) == Some(i)
  {
    var r := FirstMatch(s, x, eq);
    assert r.Some?;
  }
}
