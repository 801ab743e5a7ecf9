/** The object model of the interpreter (src/core.c, with the object variants
    reconstructed from their use sites) and the object utilities of
    src/core.c: tag names, tag-sensitive equality, the line-info
    association list and the list of read expressions.

    Every object lives in one store, a sequence indexed by `nat`; a pointer
    is `Null` or the index of an object. */
module Core {
  import opened Base
  import Dict

  /** A C pointer to an object: NULL or an index into the store. */
  datatype Ptr = Null | Ref(index: nat)

  /** `enum obj_tag_t`, with the four tags the header lacks. */
  datatype Tag = BOOL | NUM | STRING | SYMBOL | CONS | NFUNC | LAMBDA | MACRO | NIL
               | DICT | VEC | STRUCTDEF | STRUCT

  /** The native functions that src/tlisp.c:53-98 registers, in that order. */
  datatype Builtin =
    | EvalFn | ApplyFn | QuoteFn | BackquoteFn | TypeOfFn | LetFn | DoFn | IfFn
    | WhileFn | DefFn | SetFn | LambdaFn | MacroFn | ListFn | ConsFn | AppendFn
    | CarFn | CdrFn | LenFn | ForEachFn | MapFn | FilterFn | ReduceFn | DictFn
    | GetFn | InsFn | RemFn | AddFn | SubFn | MulFn | DivFn | AndBitsFn
    | OrBitsFn | XorFn | EqualsFn | GtFn | LtFn | GeqFn | LeqFn | AndFn | OrFn
    | NotFn | PrintFn | StrFn

  /** The union of `tlisp_obj_t`. A lambda or macro keeps its parameter list in
      `car` and its body in `cdr`, as the C code stores them. */
  datatype Val =
    | BoolV(num: int)
    | NumV(num: int)
    | StrV(str: string)
    | SymV(sym: string)
    | ConsV(car: Ptr, cdr: Ptr)
    | NFuncV(fn: Builtin)
    | LambdaV(car: Ptr, cdr: Ptr)
    | MacroV(car: Ptr, cdr: Ptr)
    | NilV
    | DictV(dict: Dict.Table<Ptr>)
    | VecV(elems: seq<Ptr>)
    | StructDefV(name: string, fieldNames: seq<string>)
    | StructV(sdef: Ptr, fields: seq<Ptr>)

  /** An object: its value and its collector mark. */
  datatype Obj = Obj(val: Val, mark: int)

  type Store = seq<Obj>

  function TagOf(v: Val): Tag
  {
    match v
    case BoolV(_) => BOOL
    case NumV(_) => NUM
    case StrV(_) => STRING
    case SymV(_) => SYMBOL
    case ConsV(_, _) => CONS
    case NFuncV(_) => NFUNC
    case LambdaV(_, _) => LAMBDA
    case MacroV(_, _) => MACRO
    case NilV => NIL
    case DictV(_) => DICT
    case VecV(_) => VEC
    case StructDefV(_, _) => STRUCTDEF
    case StructV(_, _) => STRUCT
  }

  /** Only a cons cell carries the CONS tag. */
  lemma ConsTag(v: Val)
    ensures TagOf(v) == CONS <==> v.ConsV?
  {
  }

  /** The object a pointer designates; None for NULL or a dangling index,
      where dereferencing is undefined. */
  function Deref(st: Store, p: Ptr): (r: Option<Val>)
    ensures r.Some? <==> p.Ref? && p.index < |st|
    ensures r.Some? ==> r.value == st[p.index].val
  {
    if p.Ref? && p.index < |st| then Some(st[p.index].val) else None
  }

  /** tag_str (src/core.c:8-23). The switch has no case for STRUCTDEF or
      STRUCT, so for those tags the function falls off its end: None. */
  function TagStr(t: Tag): (r: Option<string>)
    ensures r.None? <==> t == STRUCTDEF || t == STRUCT
    ensures r.Some? ==> |r.value| >= 3
  {
    match t
    case BOOL => Some("bool")
    case NUM => Some("num")
    case STRING => Some("string")
    case SYMBOL => Some("symbol")
    case NFUNC => Some("nfunc")
    case CONS => Some("cons")
    case DICT => Some("dict")
    case VEC => Some("vector")
    case LAMBDA => Some("lambda")
    case MACRO => Some("macro")
    case NIL => Some("nil")
    case STRUCTDEF => None
    case STRUCT => None
  }

  /** obj_equals (src/core.c:44-67). None where the C code is undefined: a
      NULL or dangling operand, or two objects of the same struct tag, for
      which the switch has no case and no value is returned. */
  function ObjEquals(st: Store, a: Ptr, b: Ptr): (r: Option<bool>)
    ensures r.Some? <==>
      Deref(st, a).Some? && Deref(st, b).Some? &&
      (TagOf(Deref(st, a).value) != TagOf(Deref(st, b).value) ||
       TagOf(Deref(st, a).value) !in {STRUCTDEF, STRUCT})
    ensures r.Some? && TagOf(Deref(st, a).value) != TagOf(Deref(st, b).value) ==> r == Some(false)
  {
    match (Deref(st, a), Deref(st, b))
    case (Some(x), Some(y)) =>
      if TagOf(x) != TagOf(y) then Some(false)
      else (match x
        case NumV(n) => Some(n == y.num)
        case StrV(s) => Some(s == y.str)
        case SymV(s) => Some(s == y.sym)
        case NFuncV(f) => Some(f == y.fn)
        case StructDefV(_, _) => None
        case StructV(_, _) => None
        case _ => Some(a == b))
    case _ => None
  }

  /** Apart from NUM, STRING, SYMBOL and NFUNC, obj_equals compares identity:
      two distinct objects of any other tag are never equal. */
  lemma ObjEqualsIdentity(st: Store, a: Ptr, b: Ptr)
    requires Deref(st, a).Some? && Deref(st, b).Some? && a != b
    requires TagOf(Deref(st, a).value) in {BOOL, CONS, DICT, VEC, LAMBDA, MACRO, NIL}
    ensures ObjEquals(st, a, b) == Some(false)
  {
  }

  /** Two NUMs are equal exactly when their values are; two STRINGs or SYMBOLs
      exactly when their texts are. */
  lemma ObjEqualsByValue(st: Store, a: Ptr, b: Ptr)
    requires Deref(st, a).Some? && Deref(st, b).Some?
    ensures Deref(st, a).value.NumV? && Deref(st, b).value.NumV? ==>
      (ObjEquals(st, a, b) == Some(true) <==> Deref(st, a).value.num == Deref(st, b).value.num)
    ensures Deref(st, a).value.StrV? && Deref(st, b).value.StrV? ==>
      (ObjEquals(st, a, b) == Some(true) <==> Deref(st, a).value.str == Deref(st, b).value.str)
    ensures Deref(st, a).value.SymV? && Deref(st, b).value.SymV? ==>
      (ObjEquals(st, a, b) == Some(true) <==> Deref(st, a).value.sym == Deref(st, b).value.sym)
  {
  }

  /** Wherever it is defined, obj_equals is reflexive, symmetric and
      transitive. */
  lemma ObjEqualsEquivalence(st: Store, a: Ptr, b: Ptr, c: Ptr)
    ensures ObjEquals(st, a, a).Some? ==> ObjEquals(st, a, a) == Some(true)
    ensures ObjEquals(st, a, b) == ObjEquals(st, b, a)
    ensures ObjEquals(st, a, b) == Some(true) && ObjEquals(st, b, c) == Some(true) ==>
      ObjEquals(st, a, c) == Some(true)
  {
  }

  /** One entry of the line-info list: an expression and the lines it spans. */
  datatype LineEntry = LineEntry(obj: Ptr, startLine: int, endLine: int)

  /** Entry `i` is the first one recorded for `obj`. */
  predicate FirstFor(entries: seq<LineEntry>, obj: Ptr, i: int)
  {
    0 <= i < |entries| && entries[i].obj == obj && forall j :: 0 <= j < i ==> entries[j].obj != obj
  }

  /** find_entry (src/core.c:261-273) on the list, most recent entry first. */
  function FindEntry(entries: seq<LineEntry>, obj: Ptr): (r: Option<LineEntry>)
    ensures r.None? <==> forall i :: 0 <= i < |entries| ==> entries[i].obj != obj
    ensures r.Some? ==> exists i :: FirstFor(entries, obj, i) && entries[i] == r.value
  {
    if entries == [] then None
    else if entries[0].obj == obj then Some(entries[0])
    else
      var r := FindEntry(entries[1..], obj);
      assert r.Some? ==> exists i :: FirstFor(entries, obj, i) && entries[i] == r.value by {
        if r.Some? {
          var i :| FirstFor(entries[1..], obj, i) && entries[1..][i] == r.value;
          assert entries[i + 1] == r.value;
          forall j | 0 <= j < i + 1
            ensures entries[j].obj != obj
          {
            if j > 0 { assert entries[j] == entries[1..][j - 1]; }
          }
          assert FirstFor(entries, obj, i + 1);
        }
      }
      r
  }

  /** After line_info_add the new entry is the one find_entry returns for its
      object, and entries for other objects are found as before. */
  lemma {:induction false} FindAfterAdd(entries: seq<LineEntry>, e: LineEntry, obj: Ptr)
    ensures FindEntry([e] + entries, e.obj) == Some(e)
    ensures obj != e.obj ==> FindEntry([e] + entries, obj) == FindEntry(entries, obj)
  {
    assert ([e] + entries)[1..] == entries;
  }

  /** line_info_t (src/core.h:52-55): the source text and the entry list. */
  class LineInfo {
    var text: string
    var entries: seq<LineEntry>

    /** line_info_init (src/core.c:243-247). */
    constructor (text: string)
      ensures this.text == text && entries == []
    {
      this.text := text;
      entries := [];
    }

    /** line_info_add (src/core.c:249-259): prepends a new entry. */
    method Add(obj: Ptr, startLine: int, endLine: int)
      modifies this
      ensures entries == [LineEntry(obj, startLine, endLine)] + old(entries)
      ensures text == old(text)
    {
      entries := [LineEntry(obj, startLine, endLine)] + entries;
    }

    /** find_entry (src/core.c:261-273): walks the list from its head. */
    method Find(obj: Ptr) returns (r: Option<LineEntry>)
      ensures r == FindEntry(entries, obj)
    {
      var i := 0;
      while i < |entries|
        invariant 0 <= i <= |entries|
        invariant forall j :: 0 <= j < i ==> entries[j].obj != obj
      {
        if entries[i].obj == obj {
          assert FirstFor(entries, obj, i);
          return Some(entries[i]);
        }
        i := i + 1;
      }
      return None;
    }
  }

  /** Bytes in a pointer on the LP64 targets the code is written for. */
  const PTR_BYTES := 8
  /** The initial capacity source_init gives the expression array. */
  const SOURCE_CAP := 16

  /** source_add_expr (src/core.c:320-323) as written: when the array is full
      it doubles `cap` but reallocates `cap` BYTES, room for only
      `cap / PTR_BYTES` pointers, and then stores at index `nexpressions`,
      the old `cap`. This says the store lands outside the new buffer. */
  predicate AddExprWritesPastEnd(nexpressions: int, cap: int)
  {
    nexpressions == cap && nexpressions >= (2 * cap) / PTR_BYTES
  }

  /** Every growth of the expression array writes past its end, starting
      with the seventeenth expression of a fresh source. */
  lemma AddExprOverflowsOnGrowth(cap: nat)
    ensures AddExprWritesPastEnd(cap, cap)
    ensures AddExprWritesPastEnd(SOURCE_CAP, SOURCE_CAP) && (2 * SOURCE_CAP) / PTR_BYTES == 4
  {
  }

  /** source_t (src/core.h:57-62): the expressions read so far and their
      line information. The array grows by whole pointers, as intended. */
  class Source {
    var nexpressions: int
    var cap: int
    var expressions: array<Ptr>
    const lineInfo: LineInfo

    ghost predicate Valid()
      reads this, expressions
    {
      expressions.Length == cap && 0 <= nexpressions <= cap && cap >= 1
    }

    ghost function Exprs(): seq<Ptr>
      reads this, expressions
      requires Valid()
    {
      expressions[..nexpressions]
    }

    /** source_init (src/core.c:309-315). */
    constructor (text: string)
      ensures Valid() && Exprs() == [] && cap == SOURCE_CAP
      ensures fresh(lineInfo) && lineInfo.text == text && lineInfo.entries == []
    {
      nexpressions := 0;
      cap := SOURCE_CAP;
      expressions := new Ptr[SOURCE_CAP](_ => Null);
      lineInfo := new LineInfo(text);
    }

    /** source_add_expr (src/core.c:317-327), reallocating `2 * cap` pointers
        where the C code reallocates `2 * cap` bytes. */
    method AddExpr(expr: Ptr, startLine: int, endLine: int)
      requires Valid()
      modifies this, expressions, lineInfo
      ensures Valid() && Exprs() == old(Exprs()) + [expr]
      ensures old(nexpressions) == old(cap) ==> cap == 2 * old(cap)
      ensures old(nexpressions) < old(cap) ==> cap == old(cap) && expressions == old(expressions)
      ensures lineInfo.entries == [LineEntry(expr, startLine, endLine)] + old(lineInfo.entries)
    {
      if nexpressions == cap {
        var bigger := new Ptr[2 * cap](_ => Null);
        var i := 0;
        while i < nexpressions
          invariant 0 <= i <= nexpressions == cap == expressions.Length && bigger.Length == 2 * cap
          invariant bigger[..i] == expressions[..i]
          invariant expressions == old(expressions) && lineInfo.entries == old(lineInfo.entries)
          invariant expressions[..] == old(expressions[..]) && nexpressions == old(nexpressions)
        {
          bigger[i] := expressions[i];
          i := i + 1;
        }
        assert bigger[..nexpressions] == old(Exprs());
        expressions := bigger;
        cap := 2 * cap;
      }
      assert expressions[..nexpressions] == old(Exprs());
      lineInfo.Add(expr, startLine, endLine);
      expressions[nexpressions] := expr;
      nexpressions := nexpressions + 1;
    }
  }
}
