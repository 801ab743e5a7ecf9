/** Bounded rendering of objects into a caller's buffer (src/core.c:68-212).
    The buffer is a sequence of characters; rendering at offset `off` with
    `maxlen` bytes may change only the bytes `[off, off + maxlen)`, and the
    renderers read back what they wrote (the `while (*end ...)` scans), so
    what an object renders to can depend on the bytes already there.

    The functions below specify the renderers; the methods of the same
    shape at the end of the module do the work on an `array<char>`. */
module Render {
  import opened Base
  import opened Core
  import Dict

  const NUL: char := '\0'

  /** Only the bytes `[lo, hi)` of `b` may differ in `b2`. */
  predicate Within(b: seq<char>, b2: seq<char>, lo: nat, hi: nat)
  {
    |b2| == |b| && forall i | 0 <= i < |b| && !(lo <= i < hi) :: b2[i] == b[i]
  }

  /** `b` with `s` written from position `off`. */
  function Write(b: seq<char>, off: nat, s: seq<char>): (r: seq<char>)
    requires off + |s| <= |b|
    ensures |r| == |b| && Within(b, r, off, off + |s|)
  {
    b[..off] + s + b[off + |s|..]
  }

  /** What `Write` puts at each position of the range it writes. */
  lemma WriteAt(b: seq<char>, off: nat, s: seq<char>)
    requires off + |s| <= |b|
    ensures forall i | 0 <= i < |s| :: Write(b, off, s)[off + i] == s[i]
  {
  }

  /** The characters of a C string: those before its first NUL. */
  function CStr(s: string): (r: string)
    ensures |r| <= |s| && NUL !in r
    ensures forall i | 0 <= i < |r| :: r[i] == s[i]
    ensures |r| < |s| ==> s[|r|] == NUL
  {
    if s == [] || s[0] == NUL then [] else [s[0]] + CStr(s[1..])
  }

  function Min(a: int, b: int): int { if a <= b then a else b }

  /** `snprintf(str, maxlen, "%s", s)`: at most `maxlen - 1` characters of
      `s`, then a NUL; nothing at all when `maxlen` is 0. */
  function Snprintf(b: seq<char>, off: nat, maxlen: nat, s: string): (r: seq<char>)
    requires off + maxlen <= |b|
    ensures Within(b, r, off, off + maxlen)
    ensures maxlen == 0 ==> r == b
  {
    if maxlen == 0 then b
    else
      var t := CStr(s);
      var k := Min(|t|, maxlen - 1);
      Write(b, off, t[..k] + [NUL])
  }

  /** `snprintf` writes the first `maxlen - 1` characters of the C string
      `s` at most, then a NUL. */
  lemma {:induction false} SnprintfAt(b: seq<char>, off: nat, maxlen: nat, s: string)
    requires off + maxlen <= |b| && maxlen > 0
    ensures var r := Snprintf(b, off, maxlen, s);
      var k := Min(|CStr(s)|, maxlen - 1);
      (forall i | 0 <= i < k :: r[off + i] == s[i]) && r[off + k] == NUL
  {
    var t := CStr(s);
    WriteAt(b, off, t[..Min(|t|, maxlen - 1)] + [NUL]);
  }

  /** `strncpy(str, s, maxlen)`: exactly `maxlen` bytes, the characters of
      `s` padded with NULs; no NUL at all when `s` is `maxlen` long or
      longer. */
  function Strncpy(b: seq<char>, off: nat, maxlen: nat, s: string): (r: seq<char>)
    requires off + maxlen <= |b|
    ensures Within(b, r, off, off + maxlen)
  {
    var t := CStr(s);
    if |t| >= maxlen then Write(b, off, t[..maxlen])
    else Write(b, off, t + seq(maxlen - |t|, _ => NUL))
  }

  /** `strncpy` writes the characters of the C string `s`, padded with NULs
      up to `maxlen` bytes. */
  lemma {:induction false} StrncpyAt(b: seq<char>, off: nat, maxlen: nat, s: string)
    requires off + maxlen <= |b|
    ensures forall i | 0 <= i < maxlen ::
      Strncpy(b, off, maxlen, s)[off + i] == if i < |CStr(s)| then s[i] else NUL
  {
    var t := CStr(s);
    if |t| >= maxlen {
      WriteAt(b, off, t[..maxlen]);
    } else {
      WriteAt(b, off, t + seq(maxlen - |t|, _ => NUL));
    }
  }

  /** The decimal digits of `n`, most significant first. */
  function Digits(n: nat): (r: string)
    ensures |r| >= 1 && forall i | 0 <= i < |r| :: '0' <= r[i] <= '9'
    decreases n
  {
    var d := [(('0' as int) + n % 10) as char];
    if n < 10 then d else Digits(n / 10) + d
  }

  /** `printf`'s `%d`. */
  function Decimal(n: int): (r: string)
    ensures NUL !in r && |r| >= 1
  {
    if n < 0 then "-" + Digits(-n) else Digits(n)
  }

  /** The scan `while (*end && REMAINING > 2) end++`: the first position
      from `e` holding a NUL, stopping at `limit`. */
  function Scan(b: seq<char>, e: nat, limit: nat): (r: nat)
    requires e <= limit <= |b|
    ensures e <= r <= limit && (r == limit || b[r] == NUL)
    ensures forall i | e <= i < r :: b[i] != NUL
    decreases limit - e
  {
    if e == limit || b[e] == NUL then e else Scan(b, e + 1, limit)
  }

  /** Where a list renderer stopped: the buffer and its `end` pointer. */
  datatype Out = Out(buf: seq<char>, end: nat)

  /** The renderer's state across dict_for_each (`struct dict_str_state`). */
  datatype DictState = DictState(buf: seq<char>, end: nat, nvisited: int)

  /** The cases of obj_nstr (src/core.c:174-212) that print one piece of
      text with `snprintf` or `strncpy`. STRUCTDEF and STRUCT have no case
      in the switch and write nothing. */
  function Scalar(v: Val, b: seq<char>, off: nat, maxlen: nat): (r: seq<char>)
    requires !v.ConsV? && !v.DictV? && !v.VecV? && off + maxlen <= |b|
    ensures Within(b, r, off, off + maxlen)
  {
    match v
    case BoolV(n) => Snprintf(b, off, maxlen, if n != 0 then "true" else "false")
    case NumV(n) => Snprintf(b, off, maxlen, Decimal(n))
    case StrV(s) => Snprintf(b, off, maxlen, s)
    case SymV(s) => Snprintf(b, off, maxlen, s)
    case NFuncV(_) => Strncpy(b, off, maxlen, "<native func>")
    case LambdaV(_, _) => Strncpy(b, off, maxlen, "<lambda>")
    case MacroV(_, _) => Strncpy(b, off, maxlen, "<macro>")
    case NilV => Strncpy(b, off, maxlen, "nil")
    case StructDefV(_, _) => b
    case StructV(_, _) => b
  }

  /** obj_nstr (src/core.c:174-212). Rendering NULL, or an improper list,
      dereferences what is not there: `Undefined`. */
  function Rendered(st: Store, p: Ptr, b: seq<char>, off: nat, maxlen: nat): (r: Res<seq<char>>)
    requires off + maxlen <= |b|
    ensures r.Ok? ==> Within(b, r.value, off, off + maxlen)
    ensures r.Err? ==> r.fault == Undefined
    decreases maxlen, 3, 0
  {
    if !(p.Ref? && p.index < |st|) then Err(Undefined)
    else
      var v := st[p.index].val;
      if v.ConsV? then
        var o :- RenderedCons(st, p, b, off, maxlen);
        Ok(o.buf)
      else if v.DictV? then
        var o :- RenderedDict(st, v.dict, b, off, maxlen);
        Ok(o.buf)
      else if v.VecV? then
        var o :- RenderedVec(st, v.elems, b, off, maxlen);
        Ok(o.buf)
      else Ok(Scalar(v, b, off, maxlen))
  }

  /** cons_nstr (src/core.c:68-91): nothing when `maxlen < 3`; otherwise
      `(` first, then `)` and a NUL at `end`, all within `maxlen` bytes. */
  function RenderedCons(st: Store, p: Ptr, b: seq<char>, off: nat, maxlen: nat): (r: Res<Out>)
    requires off + maxlen <= |b|
    ensures r.Ok? ==> Within(b, r.value.buf, off, off + maxlen)
    ensures r.Ok? && maxlen < 3 ==> r.value.buf == b
    ensures r.Ok? && maxlen >= 3 ==>
      off < r.value.end && r.value.end + 2 <= off + maxlen && r.value.buf[off] == '('
      && r.value.buf[r.value.end] == ')' && r.value.buf[r.value.end + 1] == NUL
    ensures r.Err? ==> r.fault == Undefined
    decreases maxlen, 2, 0
  {
    if maxlen < 3 then Ok(Out(b, off))
    else
      var o :- ConsLoop(st, p, b[off := '('], off, maxlen, off + 1);
      Ok(Out(o.buf[o.end := ')'][o.end + 1 := NUL], o.end))
  }

  /** The loop of cons_nstr from the cell `obj`, with `end` at `e`; the
      loop stops `2` bytes before the end of the buffer. */
  function ConsLoop(st: Store, obj: Ptr, b: seq<char>, off: nat, maxlen: nat, e: nat): (r: Res<Out>)
    requires off < e <= off + maxlen - 2 && off + maxlen <= |b|
    ensures r.Ok? ==> Within(b, r.value.buf, e, off + maxlen - 2) && e <= r.value.end <= off + maxlen - 2
    ensures r.Err? ==> r.fault == Undefined
    decreases maxlen, 1, off + maxlen - e
  {
    var limit := off + maxlen - 2;
    if obj == Null || e == limit then Ok(Out(b, e))
    else
      match Deref(st, obj)
      case Some(ConsV(car, cdr)) =>
        var b1 :- Rendered(st, car, b, e, limit - e);
        var e1 := Scan(b1, e, limit);
        if cdr != Null && e1 < limit then ConsLoop(st, cdr, b1[e1 := ' '], off, maxlen, e1 + 1)
        else Ok(Out(b1, e1))
      case _ => Err(Undefined)
  }

  /** vec_nstr (src/core.c:150-172), for the elements `es`: like a list,
      between `[` and `]`. */
  function RenderedVec(st: Store, es: seq<Ptr>, b: seq<char>, off: nat, maxlen: nat): (r: Res<Out>)
    requires off + maxlen <= |b|
    ensures r.Ok? ==> Within(b, r.value.buf, off, off + maxlen)
    ensures r.Ok? && maxlen < 3 ==> r.value.buf == b
    ensures r.Ok? && maxlen >= 3 ==>
      off < r.value.end && r.value.end + 2 <= off + maxlen && r.value.buf[off] == '['
      && r.value.buf[r.value.end] == ']' && r.value.buf[r.value.end + 1] == NUL
    ensures r.Err? ==> r.fault == Undefined
    decreases maxlen, 2, 0
  {
    if maxlen < 3 then Ok(Out(b, off))
    else
      var o :- VecLoop(st, es, 0, b[off := '['], off, maxlen, off + 1);
      Ok(Out(o.buf[o.end := ']'][o.end + 1 := NUL], o.end))
  }

  /** The `for` loop of vec_nstr from element `i`, with `end` at `e`. */
  function VecLoop(st: Store, es: seq<Ptr>, i: nat, b: seq<char>, off: nat, maxlen: nat, e: nat): (r: Res<Out>)
    requires i <= |es| && off < e <= off + maxlen - 2 && off + maxlen <= |b|
    ensures r.Ok? ==> Within(b, r.value.buf, e, off + maxlen - 2) && e <= r.value.end <= off + maxlen - 2
    ensures r.Err? ==> r.fault == Undefined
    decreases maxlen, 1, |es| - i
  {
    var limit := off + maxlen - 2;
    if i == |es| || e == limit then Ok(Out(b, e))
    else
      var b1 :- Rendered(st, es[i], b, e, limit - e);
      var e1 := Scan(b1, e, limit);
      if i < |es| - 1 && e1 < limit then VecLoop(st, es, i + 1, b1[e1 := ' '], off, maxlen, e1 + 1)
      else VecLoop(st, es, i + 1, b1, off, maxlen, e1)
  }

  /** dict_nstr (src/core.c:130-148): nothing when `maxlen < 4`; otherwise
      `#(`, the visited entries, then `)` and a NUL. The count of entries
      still to come uses the dictionary's `len` field. */
  function RenderedDict(st: Store, d: Dict.Table<Ptr>, b: seq<char>, off: nat, maxlen: nat): (r: Res<Out>)
    requires off + maxlen <= |b|
    ensures r.Ok? ==> Within(b, r.value.buf, off, off + maxlen)
    ensures r.Ok? && maxlen < 4 ==> r.value.buf == b
    ensures r.Ok? && maxlen >= 4 ==>
      off + 1 < r.value.end && r.value.end + 2 <= off + maxlen
      && r.value.buf[off] == '#' && r.value.buf[off + 1] == '('
      && r.value.buf[r.value.end] == ')' && r.value.buf[r.value.end + 1] == NUL
    ensures r.Err? ==> r.fault == Undefined
    decreases maxlen, 2, 0
  {
    if maxlen < 4 then Ok(Out(b, off))
    else
      var s0 := DictState(b[off := '#'][off + 1 := '('], off + 2, 0);
      var s :- DictLoop(st, Dict.Visits(d.entries), 0, d.len, s0, off, maxlen);
      Ok(Out(s.buf[s.end := ')'][s.end + 1 := NUL], s.end))
  }

  /** dict_for_each calling dict_str_visitor on the valid entries `pairs`
      from the `i`-th. */
  function DictLoop(st: Store, pairs: seq<(Ptr, Ptr)>, i: nat, dictlen: int, s: DictState, off: nat, maxlen: nat): (r: Res<DictState>)
    requires i <= |pairs| && off < s.end <= off + maxlen - 2 && off + maxlen <= |s.buf|
    ensures r.Ok? ==> Within(s.buf, r.value.buf, s.end, off + maxlen - 2) && s.end <= r.value.end <= off + maxlen - 2
    ensures r.Err? ==> r.fault == Undefined
    decreases maxlen, 1, |pairs| - i
  {
    if i == |pairs| then Ok(s)
    else
      var s1 :- Visited(st, pairs[i].0, pairs[i].1, dictlen, s, off, maxlen);
      DictLoop(st, pairs, i + 1, dictlen, s1, off, maxlen)
  }

  /** dict_str_visitor (src/core.c:101-128) on one entry. It gives up
      before the key when 2 bytes or fewer remain and before the value when
      3 or fewer remain; only an entry rendered in full counts as visited. */
  function Visited(st: Store, key: Ptr, val: Ptr, dictlen: int, s: DictState, off: nat, maxlen: nat): (r: Res<DictState>)
    requires off < s.end <= off + maxlen - 2 && off + maxlen <= |s.buf|
    ensures r.Ok? ==> Within(s.buf, r.value.buf, s.end, off + maxlen - 2) && s.end <= r.value.end <= off + maxlen - 2
    ensures r.Ok? ==> r.value.nvisited == s.nvisited || r.value.nvisited == s.nvisited + 1
    ensures r.Err? ==> r.fault == Undefined
    decreases maxlen, 0, 1
  {
    var k :- KeyVisited(st, key, s, off, maxlen);
    if k.end + 1 < off + maxlen - 2 then ValueVisited(st, val, dictlen, k, off, maxlen) else Ok(k)
  }

  /** The first half of dict_str_visitor: the key, unless 2 bytes or fewer
      remain. */
  function KeyVisited(st: Store, key: Ptr, s: DictState, off: nat, maxlen: nat): (r: Res<DictState>)
    requires off < s.end <= off + maxlen - 2 && off + maxlen <= |s.buf|
    ensures r.Ok? ==> Within(s.buf, r.value.buf, s.end, off + maxlen - 2) && s.end <= r.value.end <= off + maxlen - 2
    ensures r.Ok? ==> r.value.nvisited == s.nvisited
    ensures r.Ok? && s.end == off + maxlen - 2 ==> r.value == s
    ensures r.Err? ==> r.fault == Undefined
    decreases maxlen, 0, 0
  {
    var limit := off + maxlen - 2;
    if s.end == limit then Ok(s)
    else
      var b1 :- Rendered(st, key, s.buf, s.end, limit - s.end);
      Ok(DictState(b1, Scan(b1, s.end, limit), s.nvisited))
  }

  /** The second half of dict_str_visitor, from the end of the key: a
      space, the value, and a space when entries are still to come. */
  function ValueVisited(st: Store, val: Ptr, dictlen: int, s: DictState, off: nat, maxlen: nat): (r: Res<DictState>)
    requires off < s.end && s.end + 1 < off + maxlen - 2 && off + maxlen <= |s.buf|
    ensures r.Ok? ==> Within(s.buf, r.value.buf, s.end, off + maxlen - 2) && s.end < r.value.end <= off + maxlen - 2
    ensures r.Ok? ==> r.value.buf[s.end] == ' ' && r.value.nvisited == s.nvisited + 1
    ensures r.Err? ==> r.fault == Undefined
    decreases maxlen, 0, 0
  {
    var limit := off + maxlen - 2;
    var b3 :- Rendered(st, val, s.buf[s.end := ' '], s.end + 1, limit - (s.end + 1));
    var o := SpaceAfter(b3, s.end + 1, limit, dictlen - (s.nvisited + 1) > 0);
    Ok(DictState(o.buf, o.end, s.nvisited + 1))
  }

  /** Skip what a renderer wrote from `e`, and then, when `more` is set and
      room is left before `limit`, put a space there. */
  function SpaceAfter(b: seq<char>, e: nat, limit: nat, more: bool): (o: Out)
    requires e <= limit <= |b|
    ensures Within(b, o.buf, e, limit) && e <= o.end <= limit
    ensures o.end > Scan(b, e, limit) <==> more && Scan(b, e, limit) < limit
    ensures o.end > Scan(b, e, limit) ==> o.buf[o.end - 1] == ' '
  {
    var e1 := Scan(b, e, limit);
    if more && e1 < limit then Out(b[e1 := ' '], e1 + 1) else Out(b, e1)
  }

  // ---------------------------------------------------------------------
  // The renderers on the caller's buffer
  // ---------------------------------------------------------------------

  /** The library call `snprintf(str, maxlen, "%s", s)` at `buf[off]`. */
  method PutSnprintf(buf: array<char>, off: nat, maxlen: nat, s: string)
    requires off + maxlen <= buf.Length
    modifies buf
    ensures buf[..] == Snprintf(old(buf[..]), off, maxlen, s)
  {
    if maxlen == 0 {
      return;
    }
    var t := CStr(s);
    var w := t[..Min(|t|, maxlen - 1)] + [NUL];
    forall i | 0 <= i < |w| {
      buf[off + i] := w[i];
    }
    assert buf[..] == Write(old(buf[..]), off, w);
  }

  /** The library call `strncpy(str, s, maxlen)` at `buf[off]`. */
  method PutStrncpy(buf: array<char>, off: nat, maxlen: nat, s: string)
    requires off + maxlen <= buf.Length
    modifies buf
    ensures buf[..] == Strncpy(old(buf[..]), off, maxlen, s)
  {
    var t := CStr(s);
    var w := if |t| >= maxlen then t[..maxlen] else t + seq(maxlen - |t|, _ => NUL);
    forall i | 0 <= i < |w| {
      buf[off + i] := w[i];
    }
    assert buf[..] == Write(old(buf[..]), off, w);
  }

  /** `while (*end && REMAINING > 2) end++` from `e`. */
  method SkipWritten(buf: array<char>, e: nat, limit: nat) returns (end: nat)
    requires e <= limit <= buf.Length
    ensures end == Scan(buf[..], e, limit)
  {
    end := e;
    while end < limit && buf[end] != NUL
      invariant e <= end <= limit
      invariant Scan(buf[..], end, limit) == Scan(buf[..], e, limit)
      decreases limit - end
    {
      end := end + 1;
    }
  }

  /** obj_nstr (src/core.c:174-212); `ok` is false where the C code has
      undefined behaviour. */
  method ObjNstr(st: Store, p: Ptr, buf: array<char>, off: nat, maxlen: nat) returns (ok: bool)
    requires off + maxlen <= buf.Length
    modifies buf
    ensures ok <==> Rendered(st, p, old(buf[..]), off, maxlen).Ok?
    ensures ok ==> buf[..] == Rendered(st, p, old(buf[..]), off, maxlen).value
    decreases maxlen, 3, 0
  {
    if !(p.Ref? && p.index < |st|) {
      return false;
    }
    ok := true;
    var v := st[p.index].val;
    if v.ConsV? {
      ok := ConsNstr(st, p, buf, off, maxlen);
    } else if v.DictV? {
      ok := DictNstr(st, v.dict, buf, off, maxlen);
    } else if v.VecV? {
      ok := VecNstr(st, v.elems, buf, off, maxlen);
    } else {
      PutScalar(v, buf, off, maxlen);
    }
  }

  /** The `snprintf` and `strncpy` cases of obj_nstr. */
  method PutScalar(v: Val, buf: array<char>, off: nat, maxlen: nat)
    requires !v.ConsV? && !v.DictV? && !v.VecV? && off + maxlen <= buf.Length
    modifies buf
    ensures buf[..] == Scalar(v, old(buf[..]), off, maxlen)
  {
    match v
    case BoolV(n) => PutSnprintf(buf, off, maxlen, if n != 0 then "true" else "false");
    case NumV(n) => PutSnprintf(buf, off, maxlen, Decimal(n));
    case StrV(s) => PutSnprintf(buf, off, maxlen, s);
    case SymV(s) => PutSnprintf(buf, off, maxlen, s);
    case NFuncV(_) => PutStrncpy(buf, off, maxlen, "<native func>");
    case LambdaV(_, _) => PutStrncpy(buf, off, maxlen, "<lambda>");
    case MacroV(_, _) => PutStrncpy(buf, off, maxlen, "<macro>");
    case NilV => PutStrncpy(buf, off, maxlen, "nil");
    case StructDefV(_, _) =>
    case StructV(_, _) =>
  }

  /** cons_nstr (src/core.c:68-91). */
  method ConsNstr(st: Store, obj: Ptr, buf: array<char>, off: nat, maxlen: nat) returns (ok: bool)
    requires off + maxlen <= buf.Length
    modifies buf
    ensures ok <==> RenderedCons(st, obj, old(buf[..]), off, maxlen).Ok?
    ensures ok ==> buf[..] == RenderedCons(st, obj, old(buf[..]), off, maxlen).value.buf
    decreases maxlen, 2, 0
  {
    if maxlen < 3 {
      return true;
    }
    var limit := off + maxlen - 2;
    buf[off] := '(';
    var end := off + 1;
    var p := obj;
    ghost var goal := ConsLoop(st, p, buf[..], off, maxlen, end);
    while p != Null && end < limit
      invariant off < end <= limit
      invariant ConsLoop(st, p, buf[..], off, maxlen, end) == goal
      decreases limit - end + (if p == Null then 0 else 1)
    {
      if !(p.Ref? && p.index < |st| && st[p.index].val.ConsV?) {
        return false;
      }
      var next;
      ok, next, end := ConsElem(st, p, buf, off, maxlen, end);
      if !ok {
        return false;
      }
      p := next;
    }
    buf[end] := ')';
    buf[end + 1] := NUL;
    ok := true;
  }

  /** One turn of the loop of cons_nstr: the `car` of cell `p`, and a space
      after it when the list goes on and room is left. */
  method ConsElem(st: Store, p: Ptr, buf: array<char>, off: nat, maxlen: nat, end: nat) returns (ok: bool, next: Ptr, end2: nat)
    requires p.Ref? && p.index < |st| && st[p.index].val.ConsV?
    requires off < end < off + maxlen - 2 && off + maxlen <= buf.Length
    modifies buf
    ensures next == st[p.index].val.cdr
    ensures ok <==> Rendered(st, st[p.index].val.car, old(buf[..]), end, off + maxlen - 2 - end).Ok?
    ensures ok ==> end <= end2 <= off + maxlen - 2 && (next != Null ==> end < end2)
    ensures ok ==> ConsLoop(st, next, buf[..], off, maxlen, end2) == ConsLoop(st, p, old(buf[..]), off, maxlen, end)
    decreases maxlen, 1, 0
  {
    var limit := off + maxlen - 2;
    var cell := st[p.index].val;
    next := cell.cdr;
    end2 := end;
    ok := ObjNstr(st, cell.car, buf, end, limit - end);
    if !ok {
      return;
    }
    ghost var b1 := buf[..];
    end2 := SkipWritten(buf, end, limit);
    ghost var e1 := end2;
    if next != Null && end2 < limit {
      buf[end2] := ' ';
      end2 := end2 + 1;
    }
    ConsStep(st, p, old(buf[..]), off, maxlen, end, b1, e1, buf[..], end2);
  }

  /** vec_nstr (src/core.c:150-172) for the elements `es`. */
  method VecNstr(st: Store, es: seq<Ptr>, buf: array<char>, off: nat, maxlen: nat) returns (ok: bool)
    requires off + maxlen <= buf.Length
    modifies buf
    ensures ok <==> RenderedVec(st, es, old(buf[..]), off, maxlen).Ok?
    ensures ok ==> buf[..] == RenderedVec(st, es, old(buf[..]), off, maxlen).value.buf
    decreases maxlen, 2, 0
  {
    if maxlen < 3 {
      return true;
    }
    var limit := off + maxlen - 2;
    buf[off] := '[';
    var end := off + 1;
    var i := 0;
    ghost var goal := VecLoop(st, es, i, buf[..], off, maxlen, end);
    while i < |es| && end < limit
      invariant i <= |es| && off < end <= limit
      invariant VecLoop(st, es, i, buf[..], off, maxlen, end) == goal
      decreases |es| - i
    {
      ok, end := VecElem(st, es, i, buf, off, maxlen, end);
      if !ok {
        return false;
      }
      i := i + 1;
    }
    buf[end] := ']';
    buf[end + 1] := NUL;
    ok := true;
  }

  /** One turn of the loop of vec_nstr: element `i`, and a space after it
      unless it is the last or no room is left. */
  method VecElem(st: Store, es: seq<Ptr>, i: nat, buf: array<char>, off: nat, maxlen: nat, end: nat) returns (ok: bool, end2: nat)
    requires i < |es| && off < end < off + maxlen - 2 && off + maxlen <= buf.Length
    modifies buf
    ensures ok <==> Rendered(st, es[i], old(buf[..]), end, off + maxlen - 2 - end).Ok?
    ensures ok ==> off < end2 <= off + maxlen - 2
    ensures ok ==> VecLoop(st, es, i + 1, buf[..], off, maxlen, end2) == VecLoop(st, es, i, old(buf[..]), off, maxlen, end)
    decreases maxlen, 1, 0
  {
    var limit := off + maxlen - 2;
    ok := ObjNstr(st, es[i], buf, end, limit - end);
    end2 := end;
    if !ok {
      return;
    }
    ghost var b1 := buf[..];
    end2 := SkipWritten(buf, end, limit);
    ghost var e1 := end2;
    if i < |es| - 1 && end2 < limit {
      buf[end2] := ' ';
      end2 := end2 + 1;
    }
    VecStep(st, es, i, old(buf[..]), off, maxlen, end, b1, e1, buf[..], end2);
  }

  /** dict_nstr (src/core.c:130-148): dict_for_each hands the visitor the
      valid entries in slot order. */
  method DictNstr(st: Store, d: Dict.Table<Ptr>, buf: array<char>, off: nat, maxlen: nat) returns (ok: bool)
    requires off + maxlen <= buf.Length
    modifies buf
    ensures ok <==> RenderedDict(st, d, old(buf[..]), off, maxlen).Ok?
    ensures ok ==> buf[..] == RenderedDict(st, d, old(buf[..]), off, maxlen).value.buf
    decreases maxlen, 2, 0
  {
    if maxlen < 4 {
      return true;
    }
    buf[off] := '#';
    buf[off + 1] := '(';
    var end: nat := off + 2;
    var nvisited := 0;
    var pairs := Dict.Visits(d.entries);
    ghost var goal := DictLoop(st, pairs, 0, d.len, DictState(buf[..], end, nvisited), off, maxlen);
    for i := 0 to |pairs|
      invariant off < end <= off + maxlen - 2
      invariant DictLoop(st, pairs, i, d.len, DictState(buf[..], end, nvisited), off, maxlen) == goal
    {
      ok, end, nvisited := DictStrVisitor(st, pairs[i].0, pairs[i].1, d.len, buf, off, maxlen, end, nvisited);
      if !ok {
        return false;
      }
    }
    buf[end] := ')';
    buf[end + 1] := NUL;
    ok := true;
  }

  /** dict_str_visitor (src/core.c:101-128) with the state's `end` and
      `nvisited` passed in and handed back. */
  method DictStrVisitor(st: Store, key: Ptr, val: Ptr, dictlen: int, buf: array<char>, off: nat, maxlen: nat, end: nat, nvisited: int)
    returns (ok: bool, end2: nat, nvisited2: int)
    requires off < end <= off + maxlen - 2 && off + maxlen <= buf.Length
    modifies buf
    ensures ok <==> Visited(st, key, val, dictlen, DictState(old(buf[..]), end, nvisited), off, maxlen).Ok?
    ensures ok ==> buf[..] == Visited(st, key, val, dictlen, DictState(old(buf[..]), end, nvisited), off, maxlen).value.buf
    ensures ok ==> end2 == Visited(st, key, val, dictlen, DictState(old(buf[..]), end, nvisited), off, maxlen).value.end
    ensures ok ==> nvisited2 == Visited(st, key, val, dictlen, DictState(old(buf[..]), end, nvisited), off, maxlen).value.nvisited
    ensures ok ==> off < end2 <= off + maxlen - 2
    decreases maxlen, 0, 1
  {
    ok, end2 := VisitKey(st, key, buf, off, maxlen, end, nvisited);
    nvisited2 := nvisited;
    if ok && end2 + 1 < off + maxlen - 2 {
      ok, end2, nvisited2 := VisitValue(st, val, dictlen, buf, off, maxlen, end2, nvisited);
    }
  }

  /** The key half of dict_str_visitor. */
  method VisitKey(st: Store, key: Ptr, buf: array<char>, off: nat, maxlen: nat, end: nat, ghost nvisited: int) returns (ok: bool, end2: nat)
    requires off < end <= off + maxlen - 2 && off + maxlen <= buf.Length
    modifies buf
    ensures ok <==> KeyVisited(st, key, DictState(old(buf[..]), end, nvisited), off, maxlen).Ok?
    ensures ok ==> buf[..] == KeyVisited(st, key, DictState(old(buf[..]), end, nvisited), off, maxlen).value.buf
    ensures ok ==> end2 == KeyVisited(st, key, DictState(old(buf[..]), end, nvisited), off, maxlen).value.end
    decreases maxlen, 0, 0
  {
    var limit := off + maxlen - 2;
    end2 := end;
    if end == limit {
      return true, end2;
    }
    ok := ObjNstr(st, key, buf, end, limit - end);
    if ok {
      end2 := SkipWritten(buf, end, limit);
    }
  }

  /** The value half of dict_str_visitor. */
  method VisitValue(st: Store, val: Ptr, dictlen: int, buf: array<char>, off: nat, maxlen: nat, end: nat, nvisited: int)
    returns (ok: bool, end2: nat, nvisited2: int)
    requires off < end && end + 1 < off + maxlen - 2 && off + maxlen <= buf.Length
    modifies buf
    ensures ok <==> ValueVisited(st, val, dictlen, DictState(old(buf[..]), end, nvisited), off, maxlen).Ok?
    ensures ok ==> buf[..] == ValueVisited(st, val, dictlen, DictState(old(buf[..]), end, nvisited), off, maxlen).value.buf
    ensures ok ==> end2 == ValueVisited(st, val, dictlen, DictState(old(buf[..]), end, nvisited), off, maxlen).value.end
    ensures ok ==> nvisited2 == nvisited + 1
    ensures ok ==> off < end2 <= off + maxlen - 2
    decreases maxlen, 0, 0
  {
    var limit := off + maxlen - 2;
    end2, nvisited2 := end, nvisited;
    ghost var b0 := buf[..];
    buf[end] := ' ';
    assert buf[..] == b0[end := ' '];
    ok := ObjNstr(st, val, buf, end + 1, limit - (end + 1));
    if !ok {
      return;
    }
    end2 := PutSpaceAfter(buf, end + 1, limit, dictlen - (nvisited + 1) > 0);
    nvisited2 := nvisited + 1;
  }

  /** `while (*end && REMAINING > 2) end++`, then a space when `more` holds
      and room is left. */
  method PutSpaceAfter(buf: array<char>, e: nat, limit: nat, more: bool) returns (end: nat)
    requires e <= limit <= buf.Length
    modifies buf
    ensures buf[..] == SpaceAfter(old(buf[..]), e, limit, more).buf
    ensures end == SpaceAfter(old(buf[..]), e, limit, more).end
  {
    end := SkipWritten(buf, e, limit);
    if more && end < limit {
      buf[end] := ' ';
      end := end + 1;
    }
  }

  /** One turn of the loop of cons_nstr: render the `car`, skip what it
      wrote, and put a space before a further element when room is left. */
  lemma ConsStep(st: Store, obj: Ptr, b: seq<char>, off: nat, maxlen: nat, e: nat,
                 b1: seq<char>, e1: nat, b2: seq<char>, e2: nat)
    requires off < e < off + maxlen - 2 && off + maxlen <= |b|
    requires obj.Ref? && obj.index < |st| && st[obj.index].val.ConsV?
    requires Rendered(st, st[obj.index].val.car, b, e, off + maxlen - 2 - e).Ok?
    requires b1 == Rendered(st, st[obj.index].val.car, b, e, off + maxlen - 2 - e).value
    requires e1 == Scan(b1, e, off + maxlen - 2)
    requires var cdr := st[obj.index].val.cdr;
      if cdr != Null && e1 < off + maxlen - 2 then b2 == b1[e1 := ' '] && e2 == e1 + 1 else b2 == b1 && e2 == e1
    ensures off < e2 <= off + maxlen - 2 && |b2| == |b|
    ensures ConsLoop(st, st[obj.index].val.cdr, b2, off, maxlen, e2) == ConsLoop(st, obj, b, off, maxlen, e)
  {
  }

  /** One turn of the loop of vec_nstr. */
  lemma VecStep(st: Store, es: seq<Ptr>, i: nat, b: seq<char>, off: nat, maxlen: nat, e: nat,
                b1: seq<char>, e1: nat, b2: seq<char>, e2: nat)
    requires i < |es| && off < e < off + maxlen - 2 && off + maxlen <= |b|
    requires Rendered(st, es[i], b, e, off + maxlen - 2 - e).Ok?
    requires b1 == Rendered(st, es[i], b, e, off + maxlen - 2 - e).value
    requires e1 == Scan(b1, e, off + maxlen - 2)
    requires if i < |es| - 1 && e1 < off + maxlen - 2 then b2 == b1[e1 := ' '] && e2 == e1 + 1 else b2 == b1 && e2 == e1
    ensures off < e2 <= off + maxlen - 2 && |b2| == |b|
    ensures VecLoop(st, es, i + 1, b2, off, maxlen, e2) == VecLoop(st, es, i, b, off, maxlen, e)
  {
  }

  // ---------------------------------------------------------------------
  // Properties of the rendering
  // ---------------------------------------------------------------------

  /** `b` holds the C string `t` at `off`: its characters, then a NUL. */
  predicate HoldsCString(b: seq<char>, off: nat, t: string)
  {
    off + |t| < |b| && b[off..off + |t|] == t && b[off + |t|] == NUL
  }

  lemma {:induction false} CStrPlain(s: string)
    requires NUL !in s
    ensures CStr(s) == s
  {
    if s != [] {
      CStrPlain(s[1..]);
    }
  }

  /** `snprintf` of a string that fits writes the whole string and its NUL
      ... */
  lemma SnprintfFits(b: seq<char>, off: nat, maxlen: nat, s: string)
    requires off + maxlen <= |b| && NUL !in s && |s| < maxlen
    ensures HoldsCString(Snprintf(b, off, maxlen, s), off, s)
  {
    CStrPlain(s);
    SnprintfAt(b, off, maxlen, s);
    var r := Snprintf(b, off, maxlen, s);
    assert r[off..off + |s|] == s by {
      forall i | 0 <= i < |s|
        ensures r[off..off + |s|][i] == s[i]
      {
        assert r[off + i] == s[i];
      }
    }
  }

  /** ... and of one that does not fit, its first `maxlen - 1` characters
      and a NUL. */
  lemma SnprintfTruncates(b: seq<char>, off: nat, maxlen: nat, s: string)
    requires off + maxlen <= |b| && NUL !in s && 0 < maxlen <= |s|
    ensures HoldsCString(Snprintf(b, off, maxlen, s), off, s[..maxlen - 1])
  {
    CStrPlain(s);
    SnprintfAt(b, off, maxlen, s);
    var r := Snprintf(b, off, maxlen, s);
    var t := s[..maxlen - 1];
    assert r[off..off + |t|] == t by {
      forall i | 0 <= i < |t|
        ensures r[off..off + |t|][i] == t[i]
      {
        assert r[off + i] == s[i];
      }
    }
  }

  /** An object that is neither a list, a dictionary nor a vector renders
      through its scalar case. */
  lemma {:induction false} RenderedScalar(st: Store, p: Ptr, b: seq<char>, off: nat, maxlen: nat)
    requires p.Ref? && p.index < |st| && off + maxlen <= |b|
    requires !st[p.index].val.ConsV? && !st[p.index].val.DictV? && !st[p.index].val.VecV?
    ensures Rendered(st, p, b, off, maxlen) == Ok(Scalar(st[p.index].val, b, off, maxlen))
  {
  }

  /** A BOOL renders as `true` or `false` according to its number. */
  lemma {:induction false} RenderedBool(st: Store, p: Ptr, b: seq<char>, off: nat, maxlen: nat)
    requires p.Ref? && p.index < |st| && st[p.index].val.BoolV?
    requires off + maxlen <= |b| && maxlen >= 6
    ensures Rendered(st, p, b, off, maxlen).Ok?
    ensures HoldsCString(Rendered(st, p, b, off, maxlen).value, off, if st[p.index].val.num != 0 then "true" else "false")
  {
    RenderedScalar(st, p, b, off, maxlen);
    SnprintfFits(b, off, maxlen, if st[p.index].val.num != 0 then "true" else "false");
  }

  /** A NUM renders as its decimal digits, with a minus sign when it is
      negative. */
  lemma {:induction false} RenderedNum(st: Store, p: Ptr, b: seq<char>, off: nat, maxlen: nat)
    requires p.Ref? && p.index < |st| && st[p.index].val.NumV?
    requires off + maxlen <= |b| && maxlen > |Decimal(st[p.index].val.num)|
    ensures Rendered(st, p, b, off, maxlen).Ok?
    ensures HoldsCString(Rendered(st, p, b, off, maxlen).value, off, Decimal(st[p.index].val.num))
  {
    RenderedScalar(st, p, b, off, maxlen);
    SnprintfFits(b, off, maxlen, Decimal(st[p.index].val.num));
  }

  /** A STRING or SYMBOL that fits renders as its characters; a longer one
      is cut to `maxlen - 1` of them. */
  lemma {:induction false} RenderedText(st: Store, p: Ptr, b: seq<char>, off: nat, maxlen: nat)
    requires p.Ref? && p.index < |st| && (st[p.index].val.StrV? || st[p.index].val.SymV?)
    requires off + maxlen <= |b| && maxlen > 0
    ensures Rendered(st, p, b, off, maxlen).Ok?
    ensures var t := if st[p.index].val.StrV? then st[p.index].val.str else st[p.index].val.sym;
      NUL !in t ==> HoldsCString(Rendered(st, p, b, off, maxlen).value, off, if |t| < maxlen then t else t[..maxlen - 1])
  {
    RenderedScalar(st, p, b, off, maxlen);
    var t := if st[p.index].val.StrV? then st[p.index].val.str else st[p.index].val.sym;
    if NUL !in t {
      if |t| < maxlen {
        SnprintfFits(b, off, maxlen, t);
      } else {
        SnprintfTruncates(b, off, maxlen, t);
      }
    }
  }

  /** NIL renders as `nil`; in exactly 3 bytes `strncpy` leaves it without
      a NUL. */
  lemma {:induction false} RenderedNil(st: Store, p: Ptr, b: seq<char>, off: nat, maxlen: nat)
    requires p.Ref? && p.index < |st| && st[p.index].val.NilV?
    requires off + maxlen <= |b| && maxlen >= 3
    ensures Rendered(st, p, b, off, maxlen).Ok?
    ensures maxlen > 3 ==> HoldsCString(Rendered(st, p, b, off, maxlen).value, off, "nil")
    ensures maxlen == 3 ==> Rendered(st, p, b, off, maxlen).value == b[..off] + "nil" + b[off + 3..]
  {
    RenderedScalar(st, p, b, off, maxlen);
    CStrPlain("nil");
    StrncpyAt(b, off, maxlen, "nil");
    var r := Rendered(st, p, b, off, maxlen).value;
    assert r[off..off + 3] == "nil" by {
      assert r[off] == 'n' && r[off + 1] == 'i' && r[off + 2] == 'l';
    }
    if maxlen == 3 {
      assert r == b[..off] + "nil" + b[off + 3..];
    }
  }

  /** List elements are separated by one space, written only when another
      element follows and more than 2 bytes remain; otherwise the loop
      stops where the element's text ended. */
  lemma {:induction false} ConsSeparates(st: Store, obj: Ptr, b: seq<char>, off: nat, maxlen: nat, e: nat)
    requires off < e < off + maxlen - 2 && off + maxlen <= |b| && obj != Null
    requires ConsLoop(st, obj, b, off, maxlen, e).Ok?
    ensures obj.Ref? && obj.index < |st| && st[obj.index].val.ConsV?
    ensures Rendered(st, st[obj.index].val.car, b, e, off + maxlen - 2 - e).Ok?
    ensures var b1 := Rendered(st, st[obj.index].val.car, b, e, off + maxlen - 2 - e).value;
      var e1 := Scan(b1, e, off + maxlen - 2);
      var r := ConsLoop(st, obj, b, off, maxlen, e).value;
      if st[obj.index].val.cdr != Null && e1 < off + maxlen - 2 then r.buf[e1] == ' ' && e1 < r.end
      else r == Out(b1, e1)
  {
  }

  /** With 4 bytes, a list of two or more elements whose first is a NUM
      renders as `( )`: the number gets room only for its NUL, and the
      separator takes the last byte of the loop. */
  lemma {:induction false} TightList(st: Store, p: Ptr, b: seq<char>, off: nat)
    requires p.Ref? && p.index < |st| && st[p.index].val.ConsV? && st[p.index].val.cdr != Null
    requires st[p.index].val.car.Ref? && st[p.index].val.car.index < |st| && st[st[p.index].val.car.index].val.NumV?
    requires off + 4 <= |b|
    ensures Rendered(st, p, b, off, 4).Ok?
    ensures Rendered(st, p, b, off, 4).value[off..off + 4] == "( )" + [NUL]
  {
    var car := st[p.index].val.car;
    var b0 := b[off := '('];
    var b1 := Scalar(st[car.index].val, b0, off + 1, 1);
    assert Rendered(st, car, b0, off + 1, 1) == Ok(b1);
    assert b1 == b0[off + 1 := NUL];
    assert Scan(b1, off + 1, off + 2) == off + 1;
    assert ConsLoop(st, st[p.index].val.cdr, b1[off + 1 := ' '], off, 4, off + 2) == Ok(Out(b1[off + 1 := ' '], off + 2));
    assert ConsLoop(st, p, b0, off, 4, off + 1) == Ok(Out(b1[off + 1 := ' '], off + 2));
    var r := Rendered(st, p, b, off, 4).value;
    assert r[off] == '(' && r[off + 1] == ' ' && r[off + 2] == ')' && r[off + 3] == NUL;
  }
}
