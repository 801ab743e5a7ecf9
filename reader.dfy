/** The reader (src/read.c): a hand-written parser from program text to
    cons trees. A `read_state` holds the cursor into the text and the line
    and column it has reached; the reader allocates each object it reads
    with the `new_*` constructors of src/core.c:221-241, which give the
    object a tag and a zero mark (and a cons cell a NULL `cdr`). Those
    objects are modelled as appended to the store. */
module Reader {
  import opened Base
  import opened Core
  import Env
  import Render
  import Lists

  /** whitespace (src/read.c:8-11). */
  predicate Whitespace(c: char)
  {
    c == ' ' || c == '\t' || c == '\n'
  }

  predicate IsDigit(c: char)
  {
    '0' <= c <= '9'
  }

  /** A character that ends a number or a symbol. */
  predicate Delimiter(c: char)
  {
    c == Render.NUL || Whitespace(c) || c == ')'
  }

  /** The character under a cursor at `i`: the text is a C string, so
      position `|text|` holds its terminating NUL. */
  function At(text: string, i: nat): char
    requires i <= |text|
  {
    if i < |text| then text[i] else Render.NUL
  }

  /** The fields of a `read_state`. */
  datatype Pos = Pos(cursor: nat, line: int, col: int)

  /** reader_adv (src/read.c:26-34). */
  function Advance(text: string, p: Pos): Pos
    requires p.cursor <= |text|
  {
    if At(text, p.cursor) == '\n' then Pos(p.cursor + 1, p.line + 1, 1)
    else Pos(p.cursor + 1, p.line, p.col + 1)
  }

  /** `k` calls of reader_adv. */
  function AdvanceBy(text: string, p: Pos, k: nat): (r: Pos)
    requires p.cursor + k <= |text| + 1
    ensures r.cursor == p.cursor + k
  {
    if k == 0 then p else Advance(text, AdvanceBy(text, p, k - 1))
  }

  /** How many newlines `s` holds. */
  function Newlines(s: string): nat
  {
    multiset(s)['\n']
  }

  /** The position just after the last newline of `text[lo..hi]`, or `lo`
      when there is none. */
  function LineStart(text: string, lo: nat, hi: nat): (r: nat)
    requires lo <= hi <= |text|
    ensures lo <= r <= hi
    ensures r > lo ==> text[r - 1] == '\n'
    ensures forall i | r <= i < hi :: text[i] != '\n'
    decreases hi - lo
  {
    if hi == lo then lo
    else if text[hi - 1] == '\n' then hi
    else LineStart(text, lo, hi - 1)
  }

  /** reader_adv keeps the cursor and the line and column in step: after
      `k` calls the line has grown by the newlines passed, and the column
      counts from the last of them (from the old column when none was
      passed). */
  lemma {:induction false} LineColumn(text: string, p: Pos, k: nat)
    requires p.cursor + k <= |text|
    ensures AdvanceBy(text, p, k).line == p.line + Newlines(text[p.cursor..p.cursor + k])
    ensures var s := LineStart(text, p.cursor, p.cursor + k);
      AdvanceBy(text, p, k).col == if s == p.cursor then p.col + k else 1 + (p.cursor + k - s)
  {
    if k > 0 {
      LineColumn(text, p, k - 1);
      var c := p.cursor;
      assert text[c..c + k] == text[c..c + k - 1] + [text[c + k - 1]];
    }
  }

  /** The end of the number or symbol starting at `i`: the first delimiter
      from there on. */
  function TokenEnd(text: string, i: nat): (r: nat)
    requires i <= |text|
    ensures i <= r <= |text| && Delimiter(At(text, r))
    ensures forall k | i <= k < r :: !Delimiter(text[k])
    decreases |text| - i
  {
    if Delimiter(At(text, i)) then i else TokenEnd(text, i + 1)
  }

  /** The end of the string body starting at `i`: the first `"` or NUL. */
  function StringEnd(text: string, i: nat): (r: nat)
    requires i <= |text|
    ensures i <= r <= |text| && (At(text, r) == '"' || At(text, r) == Render.NUL)
    ensures forall k | i <= k < r :: text[k] != '"' && text[k] != Render.NUL
    decreases |text| - i
  {
    if At(text, i) == '"' || At(text, i) == Render.NUL then i else StringEnd(text, i + 1)
  }

  /** The fold `num = num * 10 + (c - '0')` of read_num over `text[i..j]`,
      with `c` a C `char`; a step that leaves the `int` range is signed
      overflow. */
  function NumValue(text: string, i: nat, j: nat): (r: Res<int>)
    requires i <= j <= |text|
    ensures r.Ok? ==> IsInt(r.value)
    ensures r.Err? ==> r.fault == Undefined
    decreases j - i
  {
    if j == i then Ok(0)
    else
      var a :- NumValue(text, i, j - 1);
      if !IsInt(a * 10) || !IsInt(a * 10 + (Env.CharCode(text[j - 1]) - 48)) then Err(Undefined)
      else Ok(a * 10 + (Env.CharCode(text[j - 1]) - 48))
  }

  /** What a read yields: the object, where the reader then stands, and the
      store with the objects it allocated. */
  datatype Parsed = Parsed(obj: Ptr, pos: Pos, st: Store)

  /** `b` is `a` with objects appended. */
  predicate Extends(a: Store, b: Store)
  {
    |a| <= |b| && b[..|a|] == a
  }

  /** read_num (src/read.c:41-54). */
  function Number(text: string, p: Pos, st: Store): (r: Res<Parsed>)
    requires p.cursor <= |text|
    ensures r.Ok? ==> r.value.obj == Ref(|st|) && |r.value.st| == |st| + 1 && r.value.st[..|st|] == st
    ensures r.Ok? ==> r.value.st[|st|].val.NumV? && r.value.pos.cursor == TokenEnd(text, p.cursor)
    ensures r.Err? ==> r.fault == Undefined
  {
    var e := TokenEnd(text, p.cursor);
    var n :- NumValue(text, p.cursor, e);
    Ok(Parsed(Ref(|st|), AdvanceBy(text, p, e - p.cursor), st + [Obj(NumV(n), 0)]))
  }

  /** read_str (src/read.c:56-71), called on the opening quote. */
  function Str(text: string, p: Pos, st: Store): (r: Parsed)
    requires p.cursor <= |text| && At(text, p.cursor) == '"'
    ensures r.obj == Ref(|st|) && |r.st| == |st| + 1 && r.st[..|st|] == st
    ensures r.st[|st|].val.StrV? && '"' !in r.st[|st|].val.str && Render.NUL !in r.st[|st|].val.str
    ensures r.pos.cursor == p.cursor + |r.st[|st|].val.str| + 2
  {
    var q := Advance(text, p);
    var e := StringEnd(text, q.cursor);
    Parsed(Ref(|st|), Pos(e + 1, q.line, q.col), st + [Obj(StrV(text[q.cursor..e]), 0)])
  }

  /** read_sym (src/read.c:73-86). */
  function Sym(text: string, p: Pos, st: Store): (r: Parsed)
    requires p.cursor <= |text|
    ensures r.obj == Ref(|st|) && |r.st| == |st| + 1 && r.st[..|st|] == st
    ensures r.st[|st|].val.SymV? && forall c | c in r.st[|st|].val.sym :: !Delimiter(c)
    ensures r.pos == Pos(TokenEnd(text, p.cursor), p.line, p.col)
  {
    var e := TokenEnd(text, p.cursor);
    Parsed(Ref(|st|), Pos(e, p.line, p.col), st + [Obj(SymV(text[p.cursor..e]), 0)])
  }

  function SetCar(st: Store, i: nat, car: Ptr): Store
    requires i < |st| && st[i].val.ConsV?
  {
    st[i := Obj(ConsV(car, st[i].val.cdr), st[i].mark)]
  }

  function SetCdr(st: Store, i: nat, cdr: Ptr): Store
    requires i < |st| && st[i].val.ConsV?
  {
    st[i := Obj(ConsV(st[i].val.car, cdr), st[i].mark)]
  }

  /** read_list (src/read.c:88-123), called on the opening parenthesis. */
  function List(text: string, p: Pos, st: Store): (r: Res<Parsed>)
    requires p.cursor <= |text| && At(text, p.cursor) == '('
    ensures r.Ok? ==> p.cursor < r.value.pos.cursor <= |text| + 1 && Extends(st, r.value.st)
    ensures r.Ok? ==> r.value.obj == Null || (r.value.obj == Ref(|st|) && |st| < |r.value.st| && r.value.st[|st|].val.ConsV?)
    ensures r.Err? ==> r.fault == Undefined
    decreases |text| + 2 - p.cursor, 1
  {
    ListFrom(text, Advance(text, p), st, Null, Null)
  }

  /** An element of a list, chosen by its first character. */
  function Element(text: string, p: Pos, st: Store): (r: Res<Parsed>)
    requires p.cursor <= |text| && !Delimiter(At(text, p.cursor))
    ensures r.Ok? ==> p.cursor < r.value.pos.cursor <= |text| + 1 && Extends(st, r.value.st)
    ensures r.Err? ==> r.fault == Undefined
    decreases |text| + 2 - p.cursor, 2
  {
    var c := At(text, p.cursor);
    if c == '"' then Ok(Str(text, p, st))
    else if IsDigit(c) then Number(text, p, st)
    else if c == '(' then List(text, p, st)
    else Ok(Sym(text, p, st))
  }

  /** The guarantees of the loop of read_list: the cursor does not go back,
      the store only grows, and its old objects stay as they were, except
      that the last cell `curr` may get a `cdr`. */
  predicate LoopResult(text: string, p: Pos, st: Store, head: Ptr, curr: Ptr, r: Parsed)
  {
    && p.cursor <= r.pos.cursor <= |text| + 1 && |st| <= |r.st|
    && (forall i | 0 <= i < |st| && (curr == Null || i != curr.index) :: r.st[i] == st[i])
    && (curr != Null ==> curr.index < |r.st| && r.st[curr.index].val.ConsV? && curr.index < |st| && st[curr.index].val.ConsV? && r.st[curr.index].val.car == st[curr.index].val.car)
    && (head != Null ==> r.obj == head)
    && (head == Null ==> r.obj == Null || (r.obj == Ref(|st|) && |st| < |r.st| && r.st[|st|].val.ConsV?))
  }

  /** The loop of read_list from `p`, with the list so far from `head` to
      its last cell `curr`. */
  function ListFrom(text: string, p: Pos, st: Store, head: Ptr, curr: Ptr): (r: Res<Parsed>)
    requires p.cursor <= |text| + 1 && (head == Null <==> curr == Null)
    requires curr != Null ==> head.index < |st| && curr.index < |st| && st[curr.index].val.ConsV?
    ensures r.Ok? ==> LoopResult(text, p, st, head, curr, r.value)
    ensures r.Err? ==> r.fault == Undefined
    decreases |text| + 2 - p.cursor, 4
  {
    if p.cursor > |text| then Err(Undefined)
    else
      var c := At(text, p.cursor);
      if c == Render.NUL then Ok(Parsed(head, p, st))
      else if Whitespace(c) then ListFrom(text, Advance(text, p), st, head, curr)
      else if c == ')' then Ok(Parsed(head, Advance(text, p), st))
      else ListItem(text, p, st, head, curr)
  }

  /** One element of the loop of read_list: a new cell, then the element it
      holds, then the cell linked after `curr`. */
  function ListItem(text: string, p: Pos, st: Store, head: Ptr, curr: Ptr): (r: Res<Parsed>)
    requires p.cursor <= |text| && !Delimiter(At(text, p.cursor)) && (head == Null <==> curr == Null)
    requires curr != Null ==> head.index < |st| && curr.index < |st| && st[curr.index].val.ConsV?
    ensures r.Ok? ==> LoopResult(text, p, st, head, curr, r.value)
    ensures r.Err? ==> r.fault == Undefined
    decreases |text| + 2 - p.cursor, 3
  {
    var next := Ref(|st|);
    var e :- Element(text, p, st + [Obj(ConsV(Null, Null), 0)]);
    assert e.st[|st|] == (st + [Obj(ConsV(Null, Null), 0)])[|st|];
    var st2 := SetCar(e.st, next.index, e.obj);
    var st3 := if head != Null then SetCdr(st2, curr.index, next) else st2;
    ListFrom(text, e.pos, st3, if head != Null then head else next, next)
  }

  const EMPTY_FORM: string := "ERROR: Empty form.\n"

  function UnexpectedSymbol(c: char): string
  {
    "ERROR: Unexpected symbol '" + [c] + "'\n"
  }

  /** Every form is a cons cell of the store. */
  predicate ListsIn(st: Store, forms: seq<Ptr>)
  {
    forall i | 0 <= i < |forms| :: forms[i].Ref? && forms[i].index < |st| && st[forms[i].index].val.ConsV?
  }

  /** The loop of read (src/read.c:135-154) from `p`, after the forms
      `forms`: the forms of the whole text and the store they live in. */
  function FormsFrom(text: string, p: Pos, st: Store, forms: seq<Ptr>): (r: Res<(seq<Ptr>, Store)>)
    requires p.cursor <= |text| + 1 && ListsIn(st, forms)
    ensures r.Ok? ==> forms <= r.value.0 && Extends(st, r.value.1) && ListsIn(r.value.1, r.value.0)
    decreases |text| + 2 - p.cursor
  {
    if p.cursor > |text| then Err(Undefined)
    else
      var c := At(text, p.cursor);
      if c == Render.NUL then Ok((forms, st))
      else if Whitespace(c) then FormsFrom(text, Advance(text, p), st, forms)
      else if c == '(' then
        var l :- List(text, p, st);
        if l.obj == Null then Err(Fatal(EMPTY_FORM))
        else
          ListsInExtend(st, l.st, forms, l.obj);
          FormsFrom(text, l.pos, l.st, forms + [l.obj])
      else Err(Fatal(UnexpectedSymbol(c)))
  }

  /** read (src/read.c:125-157) of `text`, allocating after the objects
      `st`. */
  function Forms(text: string, st: Store): (r: Res<(seq<Ptr>, Store)>)
    ensures r.Ok? ==> Extends(st, r.value.1) && ListsIn(r.value.1, r.value.0)
  {
    FormsFrom(text, Pos(0, 1, 1), st, [])
  }

  /** A `read_state` over `text`, with the objects allocated so far. */
  class ReadState {
    const text: string
    var cursor: nat
    var line: int
    var col: int
    var objs: Store

    function State(): Pos
      reads this
    {
      Pos(cursor, line, col)
    }

    /** reader_init (src/read.c:19-24). */
    constructor (source: string, objs0: Store)
      ensures text == source && State() == Pos(0, 1, 1) && objs == objs0
    {
      text := source;
      line := 1;
      col := 1;
      cursor := 0;
      objs := objs0;
    }

    /** reader_adv (src/read.c:26-34). */
    method Adv()
      requires cursor <= |text|
      modifies this
      ensures State() == Advance(text, old(State())) && objs == old(objs)
    {
      if At(text, cursor) == '\n' {
        line := line + 1;
        col := 0;
      }
      cursor := cursor + 1;
      col := col + 1;
    }

    /** reader_adv_n (src/read.c:36-39): the cursor only. */
    method AdvN(n: nat)
      modifies this
      ensures State() == Pos(old(cursor) + n, old(line), old(col)) && objs == old(objs)
    {
      cursor := cursor + n;
    }

    /** new_num, new_str, new_sym and new_cons (src/core.c:221-241): a
        fresh object with mark 0. */
    method New(v: Val) returns (p: Ptr)
      modifies this
      ensures p == Ref(|old(objs)|) && objs == old(objs) + [Obj(v, 0)] && State() == old(State())
    {
      p := Ref(|objs|);
      objs := objs + [Obj(v, 0)];
    }

    /** read_num (src/read.c:41-54). */
    method ReadNum() returns (r: Res<Ptr>)
      requires cursor <= |text|
      modifies this
      ensures Number(text, old(State()), old(objs)).Ok? <==> r.Ok?
      ensures r.Ok? ==> Parsed(r.value, State(), objs) == Number(text, old(State()), old(objs)).value
    {
      var obj := New(NumV(0));
      var num := 0;
      ghost var start, p0 := cursor, State();
      while !Delimiter(At(text, cursor))
        invariant start <= cursor <= TokenEnd(text, start)
        invariant State() == AdvanceBy(text, p0, cursor - start)
        invariant NumValue(text, start, cursor) == Ok(num)
        invariant objs == old(objs) + [Obj(NumV(0), 0)]
        decreases |text| - cursor
      {
        var c := text[cursor];
        if !IsInt(num * 10) || !IsInt(num * 10 + (Env.CharCode(c) - 48)) {
          NumValueFails(text, start, cursor + 1, TokenEnd(text, start));
          return Err(Undefined);
        }
        num := num * 10;
        num := num + (Env.CharCode(c) - 48);
        Adv();
      }
      objs := objs[obj.index := Obj(NumV(num), 0)];
      return Ok(obj);
    }

    /** read_str (src/read.c:56-71). */
    method ReadStr() returns (obj: Ptr)
      requires cursor <= |text| && At(text, cursor) == '"'
      modifies this
      ensures Parsed(obj, State(), objs) == Str(text, old(State()), old(objs))
    {
      obj := New(StrV([]));
      Adv();
      var lead, len := cursor, 0;
      while At(text, lead) != '"' && At(text, lead) != Render.NUL
        invariant cursor <= lead <= StringEnd(text, cursor) && lead == cursor + len
        decreases |text| - lead
      {
        len := len + 1;
        lead := lead + 1;
      }
      objs := objs[obj.index := Obj(StrV(text[cursor..cursor + len]), 0)];
      AdvN(len + 1);
    }

    /** read_sym (src/read.c:73-86). */
    method ReadSym() returns (obj: Ptr)
      requires cursor <= |text|
      modifies this
      ensures Parsed(obj, State(), objs) == Sym(text, old(State()), old(objs))
    {
      obj := New(SymV([]));
      var lead, len := cursor, 0;
      while !Delimiter(At(text, lead))
        invariant cursor <= lead <= TokenEnd(text, cursor) && lead == cursor + len
        decreases |text| - lead
      {
        len := len + 1;
        lead := lead + 1;
      }
      objs := objs[obj.index := Obj(SymV(text[cursor..cursor + len]), 0)];
      AdvN(len);
    }

    /** The element branch of the loop of read_list (src/read.c:106-114). */
    method ReadElement() returns (r: Res<Ptr>)
      requires cursor <= |text| && !Delimiter(At(text, cursor))
      modifies this
      ensures Element(text, old(State()), old(objs)).Ok? <==> r.Ok?
      ensures r.Ok? ==> Parsed(r.value, State(), objs) == Element(text, old(State()), old(objs)).value
      decreases |text| + 2 - cursor, 2
    {
      var c := text[cursor];
      if c == '"' {
        var obj := ReadStr();
        r := Ok(obj);
      } else if IsDigit(c) {
        r := ReadNum();
      } else if c == '(' {
        r := ReadList();
      } else {
        var obj := ReadSym();
        r := Ok(obj);
      }
    }

    /** One element of the loop of read_list (src/read.c:105-120): the new
        cell, its element, and the link from the previous cell. */
    method ReadItem(head: Ptr, curr: Ptr) returns (ok: bool, head2: Ptr, next: Ptr)
      requires cursor <= |text| && !Delimiter(At(text, cursor)) && (head == Null <==> curr == Null)
      requires curr != Null ==> head.index < |objs| && curr.index < |objs| && objs[curr.index].val.ConsV?
      modifies this
      ensures ok <==> Element(text, old(State()), old(objs) + [Obj(ConsV(Null, Null), 0)]).Ok?
      ensures ok ==> old(cursor) < cursor <= |text| + 1 && (head2 == Null <==> next == Null)
      ensures ok ==> next != Null ==> head2.index < |objs| && next.index < |objs| && objs[next.index].val.ConsV?
      ensures ok ==> ListFrom(text, State(), objs, head2, next) == ListItem(text, old(State()), old(objs), head, curr)
      decreases |text| + 2 - cursor, 3
    {
      next := New(ConsV(Null, Null));
      ghost var st1 := objs;
      var e := ReadElement();
      if e.Err? {
        return false, head, next;
      }
      assert objs[next.index] == st1[next.index];
      objs := SetCar(objs, next.index, e.value);
      if head != Null {
        objs := SetCdr(objs, curr.index, next);
        head2 := head;
      } else {
        head2 := next;
      }
      ok := true;
    }

    /** read_list (src/read.c:88-123). */
    method ReadList() returns (r: Res<Ptr>)
      requires cursor <= |text| && At(text, cursor) == '('
      modifies this
      ensures List(text, old(State()), old(objs)).Ok? <==> r.Ok?
      ensures r.Ok? ==> Parsed(r.value, State(), objs) == List(text, old(State()), old(objs)).value
      decreases |text| + 2 - cursor, 1
    {
      var head, curr := Null, Null;
      Adv();
      ghost var goal := ListFrom(text, State(), objs, head, curr);
      while true
        invariant cursor <= |text| + 1 && (head == Null <==> curr == Null)
        invariant curr != Null ==> head.index < |objs| && curr.index < |objs| && objs[curr.index].val.ConsV?
        invariant ListFrom(text, State(), objs, head, curr) == goal
        invariant old(cursor) < cursor
        decreases |text| + 1 - cursor
      {
        if cursor > |text| {
          return Err(Undefined);
        }
        var c := At(text, cursor);
        if c == Render.NUL {
          return Ok(head);
        }
        if Whitespace(c) {
          Adv();
        } else if c == ')' {
          Adv();
          return Ok(head);
        } else {
          var ok;
          ok, head, curr := ReadItem(head, curr);
          if !ok {
            return Err(Undefined);
          }
        }
      }
    }
  }

  /** read (src/read.c:125-157): the forms go into an array of initial
      capacity 128 that doubles when full; `n` is their count. On an error
      the C exits (or reads past the text); `r` carries the fault. */
  method Read(raw: string, objs0: Store) returns (r: Res<nat>, forms: array<Ptr>, objs: Store)
    ensures Forms(raw, objs0).Ok? <==> r.Ok?
    ensures r.Err? ==> r.fault == Forms(raw, objs0).fault
    ensures r.Ok? ==> r.value <= forms.Length && (forms[..r.value], objs) == Forms(raw, objs0).value
  {
    var len, cap := 0, 128;
    forms := new Ptr[cap];
    var reader := new ReadState(raw, objs0);
    ghost var goal := Forms(raw, objs0);
    while true
      invariant reader.text == raw && reader.cursor <= |raw| + 1
      invariant fresh(reader) && fresh(forms)
      invariant len <= cap == forms.Length && 0 < cap && ListsIn(reader.objs, forms[..len])
      invariant FormsFrom(raw, reader.State(), reader.objs, forms[..len]) == goal
      decreases |raw| + 1 - reader.cursor
    {
      if reader.cursor > |raw| {
        return Err(Undefined), forms, reader.objs;
      }
      var c := At(raw, reader.cursor);
      if c == Render.NUL {
        return Ok(len), forms, reader.objs;
      } else if Whitespace(c) {
        reader.Adv();
      } else if c == '(' {
        ghost var before := reader.objs;
        var form := reader.ReadList();
        if form.Err? {
          return Err(Undefined), forms, reader.objs;
        }
        if form.value == Null {
          return Err(Fatal(EMPTY_FORM)), forms, reader.objs;
        }
        forms := Push(forms, len, form.value);
        cap := forms.Length;
        len := len + 1;
      } else {
        return Err(Fatal(UnexpectedSymbol(c))), forms, reader.objs;
      }
    }
  }

  /** `forms[len] = x` after the growth step of read (src/read.c:144-148):
      a full array is replaced by one of twice the capacity holding the
      same forms. */
  method Push(forms: array<Ptr>, len: nat, x: Ptr) returns (forms2: array<Ptr>)
    requires 0 < forms.Length && len <= forms.Length
    modifies forms
    ensures forms2.Length == if len == forms.Length then 2 * forms.Length else forms.Length
    ensures forms2 == forms || fresh(forms2)
    ensures forms2[..len + 1] == old(forms[..len]) + [x]
  {
    forms2 := forms;
    if len == forms.Length {
      forms2 := new Ptr[2 * forms.Length];
      forall i | 0 <= i < len {
        forms2[i] := forms[i];
      }
    }
    forms2[len] := x;
    assert forms2[..len + 1] == forms2[..len] + [x];
  }

  /** Once the fold of read_num overflows, it stays undefined for every
      longer token. */
  lemma {:induction false} NumValueFails(text: string, i: nat, j: nat, k: nat)
    requires i < j <= k <= |text| && NumValue(text, i, j - 1).Ok?
    requires var a := NumValue(text, i, j - 1).value;
      !IsInt(a * 10) || !IsInt(a * 10 + (Env.CharCode(text[j - 1]) - 48))
    ensures NumValue(text, i, k).Err?
    decreases k - j
  {
    if k > j {
      NumValueFails(text, i, j, k - 1);
    }
  }

  // ---------------------------------------------------------------------
  // Properties of the reader
  // ---------------------------------------------------------------------

  /** The fold of read_num over the decimal digits of `n` is `n`. */
  lemma {:induction false} DigitsValue(text: string, i: nat, n: nat)
    requires n <= INT_MAX && i + |Render.Digits(n)| <= |text|
    requires text[i..i + |Render.Digits(n)|] == Render.Digits(n)
    ensures NumValue(text, i, i + |Render.Digits(n)|) == Ok(n)
    decreases n
  {
    var d := Render.Digits(n);
    var l := |d|;
    assert text[i + l - 1] == d[l - 1];
    if n >= 10 {
      var ds := Render.Digits(n / 10);
      assert d == ds + [d[l - 1]];
      assert text[i..i + |ds|] == ds by {
        assert text[i..i + |ds|] == text[i..i + l][..|ds|];
      }
      DigitsValue(text, i, n / 10);
    }
  }

  predicate AllDigits(d: string)
  {
    forall k | 0 <= k < |d| :: IsDigit(d[k])
  }

  function Pow10(n: nat): (r: nat)
    ensures r >= 1
  {
    if n == 0 then 1 else 10 * Pow10(n - 1)
  }

  /** The value of a string of decimal digits by place: each digit times
      the power of ten of its position from the right. */
  function DecimalOf(d: string): (r: nat)
    requires AllDigits(d)
    decreases |d|
  {
    if d == [] then 0 else (d[0] as int - 48) * Pow10(|d| - 1) + DecimalOf(d[1..])
  }

  lemma {:induction false} DecimalSnoc(d: string, c: char)
    requires AllDigits(d) && IsDigit(c)
    ensures AllDigits(d + [c]) && DecimalOf(d + [c]) == 10 * DecimalOf(d) + (c as int - 48)
    decreases |d|
  {
    var e := d + [c];
    assert AllDigits(e);
    if d == [] {
      assert e[1..] == [];
    } else {
      assert e[0] == d[0] && e[1..] == d[1..] + [c];
      DecimalSnoc(d[1..], c);
      var h, p := d[0] as int - 48, Pow10(|d| - 1);
      assert Pow10(|e| - 1) == 10 * p;
      assert h * (10 * p) == 10 * (h * p);
      assert DecimalOf(e) == h * (10 * p) + DecimalOf(d[1..] + [c]);
    }
  }

  /** The fold of read_num over the first `k` digits of `d`: their value
      while it fits in an `int`, undefined once it does not. */
  lemma {:induction false} NumPrefix(text: string, i: nat, d: string, k: nat)
    requires AllDigits(d) && k <= |d| && i + |d| <= |text| && text[i..i + |d|] == d
    ensures AllDigits(d[..k])
    ensures NumValue(text, i, i + k) ==
      if DecimalOf(d[..k]) <= INT_MAX then Ok(DecimalOf(d[..k])) else Err(Undefined)
  {
    assert AllDigits(d[..k]);
    if k == 0 {
      assert d[..0] == [];
    } else {
      NumPrefix(text, i, d, k - 1);
      var c := d[k - 1];
      assert text[i + k - 1] == c;
      assert d[..k] == d[..k - 1] + [c];
      DecimalSnoc(d[..k - 1], c);
      var v, g := DecimalOf(d[..k - 1]), c as int - 48;
      assert Env.CharCode(c) - 48 == g && 0 <= g <= 9;
      assert DecimalOf(d[..k]) == 10 * v + g;
      if v <= INT_MAX {
        assert NumValue(text, i, i + k - 1) == Ok(v);
        assert IsInt(10 * v + g) ==> IsInt(10 * v);
      } else {
        assert NumValue(text, i, i + k - 1).Err?;
      }
    }
  }

  /** A token of decimal digits, leading zeros included, reads as its
      value by place exactly when that value fits in an `int`, and is
      undefined (signed overflow) otherwise. */
  lemma DigitsRead(text: string, i: nat, d: string)
    requires AllDigits(d) && i + |d| <= |text| && text[i..i + |d|] == d
    ensures NumValue(text, i, i + |d|) ==
      if DecimalOf(d) <= INT_MAX then Ok(DecimalOf(d)) else Err(Undefined)
  {
    NumPrefix(text, i, d, |d|);
    assert d[..|d|] == d;
  }

  /** The canonical decimal form of `n` has the value `n`. */
  lemma {:induction false} DigitsDecimal(n: nat)
    ensures AllDigits(Render.Digits(n)) && DecimalOf(Render.Digits(n)) == n
    decreases n
  {
    var c := (('0' as int) + n % 10) as char;
    if n < 10 {
      assert Render.Digits(n) == [] + [c];
      DecimalSnoc([], c);
    } else {
      DigitsDecimal(n / 10);
      DecimalSnoc(Render.Digits(n / 10), c);
    }
  }

  function Zeros(z: nat): (r: string)
    ensures |r| == z && AllDigits(r)
  {
    seq(z, _ => '0')
  }

  /** Leading zeros do not change the value. */
  lemma {:induction false} ZerosDecimal(z: nat, d: string)
    requires AllDigits(d)
    ensures AllDigits(Zeros(z) + d) && DecimalOf(Zeros(z) + d) == DecimalOf(d)
    decreases z
  {
    var e := Zeros(z) + d;
    assert AllDigits(e);
    if z == 0 {
      assert e == d;
    } else {
      assert e[0] == '0' && e[1..] == Zeros(z - 1) + d;
      ZerosDecimal(z - 1, d);
    }
  }

  /** `n <= INT_MAX` written with any number of leading zeros reads as
      `n`. */
  lemma ZeroPaddedReads(text: string, i: nat, z: nat, n: nat)
    requires n <= INT_MAX
    requires i + z + |Render.Digits(n)| <= |text| && text[i..i + z + |Render.Digits(n)|] == Zeros(z) + Render.Digits(n)
    ensures NumValue(text, i, i + z + |Render.Digits(n)|) == Ok(n)
  {
    DigitsDecimal(n);
    ZerosDecimal(z, Render.Digits(n));
    DigitsRead(text, i, Zeros(z) + Render.Digits(n));
  }

  /** The token from `i` ends at `j` when `j` holds the first delimiter. */
  lemma {:induction false} TokenEndAt(text: string, i: nat, j: nat)
    requires i <= j <= |text| && Delimiter(At(text, j))
    requires forall k | i <= k < j :: !Delimiter(text[k])
    ensures TokenEnd(text, i) == j
    decreases j - i
  {
    if i < j {
      TokenEndAt(text, i + 1, j);
    }
  }

  /** Advancing over text without a newline moves only the column. */
  lemma {:induction false} AdvanceInLine(text: string, p: Pos, k: nat)
    requires p.cursor + k <= |text|
    requires forall i | p.cursor <= i < p.cursor + k :: text[i] != '\n'
    ensures AdvanceBy(text, p, k) == Pos(p.cursor + k, p.line, p.col + k)
  {
    if k > 0 {
      AdvanceInLine(text, p, k - 1);
    }
  }

  /** Decimal digits `d` at the cursor, ended by a delimiter, form one
      token on one line. */
  lemma {:induction false} DigitsToken(text: string, p: Pos, d: string)
    requires forall i | 0 <= i < |d| :: '0' <= d[i] <= '9'
    requires p.cursor + |d| <= |text| && text[p.cursor..p.cursor + |d|] == d
    requires Delimiter(At(text, p.cursor + |d|))
    ensures TokenEnd(text, p.cursor) == p.cursor + |d|
    ensures AdvanceBy(text, p, |d|) == Pos(p.cursor + |d|, p.line, p.col + |d|)
  {
    var c, l := p.cursor, |d|;
    forall k | c <= k < c + l
      ensures !Delimiter(text[k]) && text[k] != '\n'
    {
      assert text[k] == d[k - c];
      assert '0' <= text[k] <= '9';
    }
    TokenEndAt(text, c, c + l);
    AdvanceInLine(text, p, l);
  }

  /** A number token made of the decimal digits of `n` and ended by a
      delimiter reads as `n`, moving the column past it. */
  lemma {:induction false} ReadsDigits(text: string, p: Pos, st: Store, n: nat)
    requires n <= INT_MAX && p.cursor + |Render.Digits(n)| <= |text|
    requires text[p.cursor..p.cursor + |Render.Digits(n)|] == Render.Digits(n)
    requires Delimiter(At(text, p.cursor + |Render.Digits(n)|))
    ensures var l := |Render.Digits(n)|;
      Number(text, p, st) == Ok(Parsed(Ref(|st|), Pos(p.cursor + l, p.line, p.col + l), st + [Obj(NumV(n), 0)]))
  {
    DigitsToken(text, p, Render.Digits(n));
    DigitsValue(text, p.cursor, n);
  }

  /** What obj_nstr prints for a non-negative NUM reads back as that
      number: rendering and reading round-trip on the digits. */
  lemma {:induction false} PrintedNumberReadsBack(st: Store, p: Ptr, b: seq<char>, maxlen: nat, st2: Store)
    requires p.Ref? && p.index < |st| && st[p.index].val.NumV? && 0 <= st[p.index].val.num <= INT_MAX
    requires maxlen <= |b| && maxlen > |Render.Decimal(st[p.index].val.num)|
    ensures Render.Rendered(st, p, b, 0, maxlen).Ok?
    ensures Number(Render.Rendered(st, p, b, 0, maxlen).value, Pos(0, 1, 1), st2).Ok?
    ensures Number(Render.Rendered(st, p, b, 0, maxlen).value, Pos(0, 1, 1), st2).value.st[|st2|] == Obj(NumV(st[p.index].val.num), 0)
  {
    var n := st[p.index].val.num;
    Render.RenderedNum(st, p, b, 0, maxlen);
    var text := Render.Rendered(st, p, b, 0, maxlen).value;
    ReadsDigits(text, Pos(0, 1, 1), st2, n);
  }

  /** A negative number prints with a minus sign, which the reader takes as
      the start of a symbol: `-5` reads back as the SYMBOL `-5`. */
  lemma {:induction false} MinusStartsSymbol(st: Store)
    ensures Element("-5", Pos(0, 1, 1), st) == Ok(Parsed(Ref(|st|), Pos(2, 1, 1), st + [Obj(SymV("-5"), 0)]))
  {
    TokenEndAt("-5", 0, 2);
    assert "-5"[0..2] == "-5";
  }

  /** read_num folds any character of the token, digits or not: `1a` is
      10 + ('a' - '0') = 59. */
  lemma LettersInNumber(st: Store)
    ensures Number("1a", Pos(0, 1, 1), st) == Ok(Parsed(Ref(|st|), Pos(2, 1, 3), st + [Obj(NumV(59), 0)]))
  {
    TokenEndAt("1a", 0, 2);
    assert NumValue("1a", 0, 1) == Ok(1);
    AdvanceInLine("1a", Pos(0, 1, 1), 2);
  }

  /** read of `()` stops at the empty form. */
  lemma EmptyFormFails(st: Store)
    ensures Forms("()", st) == Err(Fatal(EMPTY_FORM))
  {
    assert List("()", Pos(0, 1, 1), st) == Ok(Parsed(Null, Pos(2, 1, 3), st));
  }

  /** read fails on a top-level character other than whitespace and `(`. */
  lemma StrayAtomFails(st: Store)
    ensures Forms(" x", st) == Err(Fatal(UnexpectedSymbol('x')))
  {
    assert FormsFrom(" x", Pos(1, 1, 2), st, []) == Err(Fatal(UnexpectedSymbol('x')));
  }

  /** A string without its closing quote moves the cursor past the end of
      the text, whose next character the C code then reads. */
  lemma UnterminatedString(st: Store)
    ensures Forms("(\"a", st) == Err(Undefined)
  {
    var st1 := st + [Obj(ConsV(Null, Null), 0)];
    assert StringEnd("(\"a", 2) == 3;
    assert "(\"a"[2..3] == "a";
    assert Str("(\"a", Pos(1, 1, 2), st1) == Parsed(Ref(|st1|), Pos(4, 1, 3), st1 + [Obj(StrV("a"), 0)]);
  }

  /** A one-digit element on the first line. */
  lemma {:induction false} DigitElement(text: string, i: nat, st: Store, n: nat)
    requires n < 10 && i + 1 < |text| && text[i] == (('0' as int) + n) as char && Delimiter(text[i + 1])
    ensures Element(text, Pos(i, 1, i + 1), st) == Ok(Parsed(Ref(|st|), Pos(i + 1, 1, i + 2), st + [Obj(NumV(n), 0)]))
  {
    assert Render.Digits(n) == [text[i]];
    ReadsDigits(text, Pos(i, 1, i + 1), st, n);
  }

  /** The stores the reader builds for `(1 2 3)`, after one and after two
      elements. */
  function OneRead(): Store
  {
    [Obj(ConsV(Ref(1), Null), 0), Obj(NumV(1), 0)]
  }

  function TwoRead(): Store
  {
    [Obj(ConsV(Ref(1), Ref(2)), 0), Obj(NumV(1), 0), Obj(ConsV(Ref(3), Null), 0), Obj(NumV(2), 0)]
  }

  function ThreeRead(): Store
  {
    [Obj(ConsV(Ref(1), Ref(2)), 0), Obj(NumV(1), 0),
     Obj(ConsV(Ref(3), Ref(4)), 0), Obj(NumV(2), 0),
     Obj(ConsV(Ref(5), Null), 0), Obj(NumV(3), 0)]
  }

  /** The loop of read_list on `(1 2 3)` after two elements: the third is
      linked after the second cell. */
  lemma ThirdOfThree()
    ensures ListFrom("(1 2 3)", Pos(4, 1, 5), TwoRead(), Ref(0), Ref(2)) == Ok(Parsed(Ref(0), Pos(7, 1, 8), ThreeRead()))
  {
    var t, s2, s3 := "(1 2 3)", TwoRead(), ThreeRead();
    var c0 := Obj(ConsV(Null, Null), 0);
    assert ListFrom(t, Pos(6, 1, 7), s3, Ref(0), Ref(4)) == Ok(Parsed(Ref(0), Pos(7, 1, 8), s3));
    DigitElement(t, 5, s2 + [c0], 3);
    assert SetCdr(SetCar(s2 + [c0] + [Obj(NumV(3), 0)], 4, Ref(5)), 2, Ref(4)) == s3;
    assert ListItem(t, Pos(5, 1, 6), s2, Ref(0), Ref(2)) == Ok(Parsed(Ref(0), Pos(7, 1, 8), s3));
  }

  /** ... after one element. */
  lemma SecondOfThree()
    ensures ListFrom("(1 2 3)", Pos(2, 1, 3), OneRead(), Ref(0), Ref(0)) == Ok(Parsed(Ref(0), Pos(7, 1, 8), ThreeRead()))
  {
    var t, s1, s2 := "(1 2 3)", OneRead(), TwoRead();
    var c0 := Obj(ConsV(Null, Null), 0);
    ThirdOfThree();
    DigitElement(t, 3, s1 + [c0], 2);
    assert SetCdr(SetCar(s1 + [c0] + [Obj(NumV(2), 0)], 2, Ref(3)), 0, Ref(2)) == s2;
    assert ListItem(t, Pos(3, 1, 4), s1, Ref(0), Ref(0)) == Ok(Parsed(Ref(0), Pos(7, 1, 8), ThreeRead()));
  }

  /** ... from the start. */
  lemma FirstOfThree()
    ensures ListFrom("(1 2 3)", Pos(1, 1, 2), [], Null, Null) == Ok(Parsed(Ref(0), Pos(7, 1, 8), ThreeRead()))
  {
    var t := "(1 2 3)";
    var c0 := Obj(ConsV(Null, Null), 0);
    SecondOfThree();
    DigitElement(t, 1, [c0], 1);
    assert [] + [c0] == [c0];
    assert SetCar([c0] + [Obj(NumV(1), 0)], 0, Ref(1)) == OneRead();
    assert ListItem(t, Pos(1, 1, 2), [], Null, Null) == Ok(Parsed(Ref(0), Pos(7, 1, 8), ThreeRead()));
  }

  /** The text `(1 2 3)`: each cell is allocated before its element, the
      cells are linked in source order, and read returns the one form. */
  lemma ReadsThreeNumbers()
    ensures Forms("(1 2 3)", []) == Ok(([Ref(0)], ThreeRead()))
  {
    var t, s3 := "(1 2 3)", ThreeRead();
    var done := Ok(Parsed(Ref(0), Pos(7, 1, 8), s3));
    FirstOfThree();
    assert List(t, Pos(0, 1, 1), []) == done;
    assert [] + [Ref(0)] == [Ref(0)];
    assert FormsFrom(t, Pos(7, 1, 8), s3, [Ref(0)]) == Ok(([Ref(0)], s3));
    assert FormsFrom(t, Pos(0, 1, 1), [], []) == Ok(([Ref(0)], s3));
  }

  // ---------------------------------------------------------------------
  // The elements of a list, in source order
  // ---------------------------------------------------------------------

  /** The objects the loop of read_list reads from `p`, one after another,
      after the objects `acc`: the result of each `Element` call in turn, up
      to the closing parenthesis or the end of the text. */
  ghost function Items(text: string, p: Pos, st: Store, head: Ptr, curr: Ptr, acc: seq<Ptr>): (r: Res<seq<Ptr>>)
    requires p.cursor <= |text| + 1 && (head == Null <==> curr == Null)
    requires curr != Null ==> head.index < |st| && curr.index < |st| && st[curr.index].val.ConsV?
    decreases |text| + 2 - p.cursor
  {
    if p.cursor > |text| then Err(Undefined)
    else
      var c := At(text, p.cursor);
      if c == Render.NUL || c == ')' then Ok(acc)
      else if Whitespace(c) then Items(text, Advance(text, p), st, head, curr, acc)
      else
        var next := Ref(|st|);
        var e :- Element(text, p, st + [Obj(ConsV(Null, Null), 0)]);
        assert e.st[|st|] == (st + [Obj(ConsV(Null, Null), 0)])[|st|];
        var st2 := SetCar(e.st, next.index, e.obj);
        var st3 := if head != Null then SetCdr(st2, curr.index, next) else st2;
        Items(text, e.pos, st3, if head != Null then head else next, next, acc + [e.obj])
  }

  /** The list so far: its cells are a list of the store ending at `curr`,
      whose `cdr` is still NULL. */
  ghost predicate Linked(st: Store, head: Ptr, curr: Ptr)
  {
    && Lists.Cells(st, head).Ok?
    && (head != Null ==>
         var cs := Lists.Cells(st, head).value;
         curr == Ref(cs[|cs| - 1]) && st[curr.index].val.cdr == Null)
  }

  /** The loop of read_list links the objects it reads after the elements
      it already has, in the order it reads them. */
  lemma {:induction false} ListFromElements(text: string, p: Pos, st: Store, head: Ptr, curr: Ptr)
    requires p.cursor <= |text| + 1 && (head == Null <==> curr == Null)
    requires curr != Null ==> head.index < |st| && curr.index < |st| && st[curr.index].val.ConsV?
    requires ListFrom(text, p, st, head, curr).Ok? && Linked(st, head, curr)
    ensures var r := ListFrom(text, p, st, head, curr).value;
      && Lists.Elements(r.st, r.obj).Ok?
      && Items(text, p, st, head, curr, Lists.Elements(st, head).value) == Lists.Elements(r.st, r.obj)
    decreases |text| + 2 - p.cursor, 1
  {
    var c := At(text, p.cursor);
    if c == Render.NUL || c == ')' {
    } else if Whitespace(c) {
      ListFromElements(text, Advance(text, p), st, head, curr);
    } else {
      ListItemElements(text, p, st, head, curr);
    }
  }

  /** One element of the loop of read_list, then the rest of the loop. */
  lemma {:induction false} ListItemElements(text: string, p: Pos, st: Store, head: Ptr, curr: Ptr)
    requires p.cursor <= |text| && !Delimiter(At(text, p.cursor)) && (head == Null <==> curr == Null)
    requires curr != Null ==> head.index < |st| && curr.index < |st| && st[curr.index].val.ConsV?
    requires ListItem(text, p, st, head, curr).Ok? && Linked(st, head, curr)
    ensures var r := ListItem(text, p, st, head, curr).value;
      && Lists.Elements(r.st, r.obj).Ok?
      && Items(text, p, st, head, curr, Lists.Elements(st, head).value) == Lists.Elements(r.st, r.obj)
    decreases |text| + 2 - p.cursor, 0
  {
    var e, st3, head3 := ItemStep(text, p, st, head, curr, Lists.Elements(st, head).value);
    ListFromElements(text, e.pos, st3, head3, Ref(|st|));
  }

  /** The facts about one element of the loop that the induction needs:
      where the loop goes on, with which list, and what it has read. */
  lemma {:induction false} ItemStep(text: string, p: Pos, st: Store, head: Ptr, curr: Ptr, acc: seq<Ptr>)
      returns (e: Parsed, st3: Store, head3: Ptr)
    requires p.cursor <= |text| && !Delimiter(At(text, p.cursor)) && (head == Null <==> curr == Null)
    requires curr != Null ==> head.index < |st| && curr.index < |st| && st[curr.index].val.ConsV?
    requires ListItem(text, p, st, head, curr).Ok? && Linked(st, head, curr)
    ensures e.pos.cursor <= |text| + 1 && p.cursor < e.pos.cursor && head3 != Null
    ensures head3.index < |st3| && |st| < |st3| && st3[|st|].val.ConsV?
    ensures ListItem(text, p, st, head, curr) == ListFrom(text, e.pos, st3, head3, Ref(|st|))
    ensures Items(text, p, st, head, curr, acc) == Items(text, e.pos, st3, head3, Ref(|st|), acc + [e.obj])
    ensures Linked(st3, head3, Ref(|st|))
    ensures Lists.Elements(st3, head3) == Ok(Lists.Elements(st, head).value + [e.obj])
  {
    var next := Ref(|st|);
    e := Element(text, p, st + [Obj(ConsV(Null, Null), 0)]).value;
    assert e.st[|st|] == (st + [Obj(ConsV(Null, Null), 0)])[|st|];
    var st2 := SetCar(e.st, next.index, e.obj);
    st3 := if head != Null then SetCdr(st2, curr.index, next) else st2;
    head3 := if head != Null then head else next;
    LinkItem(st, e.st, head, curr, e.obj);
  }

  /** One element of the loop: after the new cell, which the element's read
      leaves as it was, gets the element and is linked after `curr`, the
      list is the old one with the element appended. */
  lemma {:induction false} LinkItem(st: Store, est: Store, head: Ptr, curr: Ptr, obj: Ptr)
    requires (head == Null <==> curr == Null) && Linked(st, head, curr)
    requires curr != Null ==> head.index < |st| && curr.index < |st| && st[curr.index].val.ConsV?
    requires Extends(st + [Obj(ConsV(Null, Null), 0)], est)
    ensures est[|st|] == Obj(ConsV(Null, Null), 0)
    ensures var st2 := SetCar(est, |st|, obj);
      var st3 := if head != Null then SetCdr(st2, curr.index, Ref(|st|)) else st2;
      && Linked(st3, if head != Null then head else Ref(|st|), Ref(|st|))
      && Lists.Elements(st3, if head != Null then head else Ref(|st|))
         == Ok(Lists.Elements(st, head).value + [obj])
  {
    var cell := Obj(ConsV(Null, Null), 0);
    assert est[|st|] == (st + [cell])[|st|];
    var st2 := SetCar(est, |st|, obj);
    var next := Ref(|st|);
    assert st2[|st|] == Obj(ConsV(obj, Null), 0);
    assert Lists.CellsFrom(st2, Null, 1) == Ok([]);
    if head == Null {
      assert Lists.Elements(st, head).value == [];
      assert [] + [obj] == [obj];
      assert [|st|] + [] == [|st|];
      assert Lists.CellsFrom(st2, next, 0) == Ok([|st|] + Lists.CellsFrom(st2, Null, 1).value);
      var es := Lists.Elements(st2, next).value;
      assert es == [obj];
    } else {
      var st3 := SetCdr(st2, curr.index, next);
      var cs := Lists.Cells(st, head).value;
      assert |cs| <= |st|;
      forall i | 0 <= i < |st| && i != curr.index ensures st3[i] == st[i] {
        assert est[..|st| + 1][i] == (st + [cell])[i];
      }
      assert st3[curr.index].val == ConsV(st[curr.index].val.car, next) by {
        assert est[..|st| + 1][curr.index] == (st + [cell])[curr.index];
      }
      assert st3[|st|] == Obj(ConsV(obj, Null), 0);
      assert Lists.CellsFrom(st3, Null, |cs| + 1) == Ok([]);
      assert [|st|] + [] == [|st|];
      assert Lists.CellsFrom(st3, next, |cs|) == Ok([|st|] + Lists.CellsFrom(st3, Null, |cs| + 1).value);
      Lists.CellsRelink(st, st3, head, 0, cs, next);
      var es0 := Lists.Elements(st, head).value;
      var es := Lists.Elements(st3, head).value;
      var cs3 := Lists.Cells(st3, head).value;
      assert cs3 == cs + [|st|];
      assert |es| == |es0| + 1;
      forall i | 0 <= i < |es| ensures es[i] == (es0 + [obj])[i] {
        if i < |es0| {
          assert cs3[i] == cs[i];
        }
      }
      assert es == es0 + [obj];
    }
  }

  /** read_list links the elements in source order: the elements of the
      list it returns are the objects read one after another after the
      opening parenthesis, and `()` gives NULL. */
  lemma {:induction false} ListElements(text: string, p: Pos, st: Store)
    requires p.cursor <= |text| && At(text, p.cursor) == '(' && List(text, p, st).Ok?
    ensures Items(text, Advance(text, p), st, Null, Null, []).Ok?
    ensures Lists.Elements(List(text, p, st).value.st, List(text, p, st).value.obj)
      == Items(text, Advance(text, p), st, Null, Null, [])
    ensures List(text, p, st).value.obj == Null <==> Items(text, Advance(text, p), st, Null, Null, []).value == []
  {
    assert Lists.Cells(st, Null) == Ok([]);
    assert Lists.Elements(st, Null).value == [];
    ListFromElements(text, Advance(text, p), st, Null, Null);
    var l := List(text, p, st).value;
    if l.obj != Null {
      assert Lists.Cells(l.st, l.obj).value != [];
    }
  }

  // ---------------------------------------------------------------------
  // One form per top-level list
  // ---------------------------------------------------------------------

  /** Where the loop of read starts a top-level list: the position of its
      `(` and the store at that moment. */
  datatype Start = Start(pos: Pos, st: Store)

  /** A start read_list turns into a non-empty list. */
  predicate Parses(text: string, s: Start)
  {
    s.pos.cursor < |text| && text[s.pos.cursor] == '(' &&
    List(text, s.pos, s.st).Ok? && List(text, s.pos, s.st).value.obj != Null
  }

  /** Starts that follow each other: the first in the store `st`, each
      later one in the store the list before it left. */
  predicate Chain(text: string, s: seq<Start>, st: Store)
    decreases |s|
  {
    s == [] ||
    (Parses(text, s[0]) && s[0].st == st && Chain(text, s[1..], List(text, s[0].pos, s[0].st).value.st))
  }

  /** The lists read_list builds at the starts, one after the other, and
      the store the last of them leaves. */
  function Replay(text: string, s: seq<Start>, st: Store): (r: (seq<Ptr>, Store))
    requires Chain(text, s, st)
    ensures |r.0| == |s|
    decreases |s|
  {
    if s == [] then ([], st)
    else
      var l := List(text, s[0].pos, s[0].st).value;
      var rest := Replay(text, s[1..], l.st);
      ([l.obj] + rest.0, rest.1)
  }

  /** The top-level lists the loop of read (src/read.c:135-154) starts,
      after those in `acc`, with their cursors increasing. */
  ghost function Opens(text: string, p: Pos, st: Store, acc: seq<Start>): (r: Res<seq<Start>>)
    requires p.cursor <= |text| + 1
    ensures r.Ok? ==> acc <= r.value
    ensures r.Ok? ==> forall i | |acc| <= i < |r.value| ::
      p.cursor <= r.value[i].pos.cursor < |text| && text[r.value[i].pos.cursor] == '('
    ensures r.Ok? ==> forall i, j | |acc| <= i < j < |r.value| :: r.value[i].pos.cursor < r.value[j].pos.cursor
    ensures r.Ok? ==> Chain(text, r.value[|acc|..], st)
    decreases |text| + 2 - p.cursor
  {
    if p.cursor > |text| then Err(Undefined)
    else
      var c := At(text, p.cursor);
      if c == Render.NUL then
        assert acc[|acc|..] == [];
        Ok(acc)
      else if Whitespace(c) then Opens(text, Advance(text, p), st, acc)
      else if c == '(' then
        var l :- List(text, p, st);
        if l.obj == Null then Err(Fatal(EMPTY_FORM))
        else
          var acc1 := acc + [Start(p, st)];
          var r := Opens(text, l.pos, l.st, acc1);
          if r.Ok? then
            assert r.value[|acc|..][0] == Start(p, st) && r.value[|acc|..][1..] == r.value[|acc1|..];
            r
          else r
      else Err(Fatal(UnexpectedSymbol(c)))
  }

  /** read yields, in order, the lists read_list builds at the top-level
      `(`s, each read in the store the one before it left, and ends in the
      store the last of them leaves; it fails exactly where that scan
      fails. */
  lemma {:induction false} FormsPerOpen(text: string, p: Pos, st: Store, forms: seq<Ptr>, acc: seq<Start>)
    requires p.cursor <= |text| + 1 && ListsIn(st, forms)
    ensures FormsFrom(text, p, st, forms).Ok? <==> Opens(text, p, st, acc).Ok?
    ensures FormsFrom(text, p, st, forms).Err? ==> FormsFrom(text, p, st, forms).fault == Opens(text, p, st, acc).fault
    ensures FormsFrom(text, p, st, forms).Ok? ==>
      var o := Opens(text, p, st, acc).value;
      var rp := Replay(text, o[|acc|..], st);
      FormsFrom(text, p, st, forms).value == (forms + rp.0, rp.1)
    decreases |text| + 2 - p.cursor, 1
  {
    if p.cursor <= |text| {
      var c := At(text, p.cursor);
      if c == Render.NUL {
        assert forms + [] == forms;
      } else if Whitespace(c) {
        FormsPerOpen(text, Advance(text, p), st, forms, acc);
      } else if c == '(' {
        FormsPerList(text, p, st, forms, acc);
      }
    }
  }

  /** The forms read so far stay lists when objects are appended, and so
      does a new list. */
  lemma ListsInExtend(st: Store, st2: Store, forms: seq<Ptr>, obj: Ptr)
    requires ListsIn(st, forms) && Extends(st, st2)
    requires obj.Ref? && obj.index < |st2| && st2[obj.index].val.ConsV?
    ensures ListsIn(st2, forms + [obj])
  {
    forall i | 0 <= i < |forms| ensures st2[forms[i].index] == st[forms[i].index] {
      assert st2[..|st|][forms[i].index] == st2[forms[i].index];
    }
  }

  /** The case of FormsPerOpen at a top-level `(`. */
  lemma {:induction false} FormsPerList(text: string, p: Pos, st: Store, forms: seq<Ptr>, acc: seq<Start>)
    requires p.cursor < |text| && text[p.cursor] == '(' && ListsIn(st, forms)
    ensures FormsFrom(text, p, st, forms).Ok? <==> Opens(text, p, st, acc).Ok?
    ensures FormsFrom(text, p, st, forms).Err? ==> FormsFrom(text, p, st, forms).fault == Opens(text, p, st, acc).fault
    ensures FormsFrom(text, p, st, forms).Ok? ==>
      var o := Opens(text, p, st, acc).value;
      var rp := Replay(text, o[|acc|..], st);
      FormsFrom(text, p, st, forms).value == (forms + rp.0, rp.1)
    decreases |text| + 2 - p.cursor, 0
  {
    var l := List(text, p, st);
    if l.Ok? && l.value.obj != Null {
      var l := l.value;
      ListsInExtend(st, l.st, forms, l.obj);
      var acc1 := acc + [Start(p, st)];
      assert FormsFrom(text, p, st, forms) == FormsFrom(text, l.pos, l.st, forms + [l.obj]);
      assert Opens(text, p, st, acc) == Opens(text, l.pos, l.st, acc1);
      FormsPerOpen(text, l.pos, l.st, forms + [l.obj], acc1);
      if FormsFrom(text, p, st, forms).Ok? {
        var o := Opens(text, p, st, acc).value;
        assert o[|acc|..][0] == Start(p, st) && o[|acc|..][1..] == o[|acc1|..];
        var r1 := Replay(text, o[|acc1|..], l.st);
        assert Replay(text, o[|acc|..], st) == ([l.obj] + r1.0, r1.1);
        assert forms + [l.obj] + r1.0 == forms + ([l.obj] + r1.0);
      }
    }
  }

  /** read of a whole text is the replay of its top-level lists from the
      store read starts with: one form for each. */
  lemma {:induction false} FormsCount(text: string, st: Store)
    requires Forms(text, st).Ok?
    ensures Opens(text, Pos(0, 1, 1), st, []).Ok?
    ensures var o := Opens(text, Pos(0, 1, 1), st, []).value;
      Chain(text, o, st) && Forms(text, st).value == Replay(text, o, st)
    ensures |Forms(text, st).value.0| == |Opens(text, Pos(0, 1, 1), st, []).value|
  {
    FormsPerOpen(text, Pos(0, 1, 1), st, [], []);
    var o := Opens(text, Pos(0, 1, 1), st, []).value;
    assert o[0..] == o;
    assert [] + Replay(text, o, st).0 == Replay(text, o, st).0;
  }
}
