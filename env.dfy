/**
 * The scope chain of src/env.c.
 *
 * A scope is a symbol table with open addressing and linear probing: `cap`
 * slots, each empty or holding a symbol and its object, and a counter `len`.
 * The start slot of a symbol is its djb2 hash modulo `cap`. A chain lists
 * the scopes from the innermost outwards (the `outer` links).
 *
 * `env_add` computes the start slot before it may grow the table, and
 * `env_grow` inserts every binding again with `env_add` without resetting
 * `len`. Both are modelled as written: `len` over-counts after a growth, and
 * a lookup can miss the binding just added (`GrowthMissesBinding`).
 *
 * The functions are the specification; class `Scope` and method
 * `FindInChain` do the same work in place and are proved to agree.
 */
module Env {
  import opened Base
  import opened Core

  const INIT_CAP: int := 16
  /** `size_t` arithmetic is modulo 2^64. */
  const WORD: int := 0x1_0000_0000_0000_0000
  const HASH_SEED: int := 5381

  /** A character as the C code adds it to the hash: a (signed) `char`,
      that is the low byte of the character read as a two's-complement
      number. */
  function CharCode(c: char): (r: int)
    ensures -128 <= r < 128
  {
    var b := (c as int) % 256;
    if b < 128 then b else b - 256
  }

  function HashFrom(h: nat, s: string): (r: nat)
    requires h < WORD
    ensures r < WORD
    decreases |s|
  {
    if s == [] then h else HashFrom((h * 33 + CharCode(s[0])) % WORD, s[1..])
  }

  /** str_hash (src/env.c:8-17): djb2 over the characters of `s`. */
  function Hash(s: string): (h: nat)
    ensures h < WORD
  {
    HashFrom(HASH_SEED, s)
  }

  lemma {:induction false} HashFromSnoc(h: nat, s: string, c: char)
    requires h < WORD
    ensures HashFrom(h, s + [c]) == (HashFrom(h, s) * 33 + CharCode(c)) % WORD
    decreases |s|
  {
    if s == [] {
      assert (s + [c])[1..] == [];
    } else {
      assert (s + [c])[0] == s[0];
      assert (s + [c])[1..] == s[1..] + [c];
      HashFromSnoc((h * 33 + CharCode(s[0])) % WORD, s[1..], c);
    }
  }

  /** djb2 starts at 5381 and takes `h * 33 + c` (that is `(h << 5) + h + c`)
      for each further character. */
  lemma HashSteps(s: string, c: char)
    ensures Hash([]) == HASH_SEED
    ensures Hash(s + [c]) == (Hash(s) * 33 + CharCode(c)) % WORD
  {
    HashFromSnoc(HASH_SEED, s, c);
  }

  /** The loop of str_hash (src/env.c:11-16). */
  method StrHash(s: string) returns (hash: nat)
    ensures hash == Hash(s)
  {
    hash := HASH_SEED;
    var i := 0;
    while i < |s|
      invariant 0 <= i <= |s|
      invariant hash == Hash(s[..i])
    {
      HashSteps(s[..i], s[i]);
      assert s[..i + 1] == s[..i] + [s[i]];
      hash := (hash * 32 + hash + CharCode(s[i])) % WORD;
      i := i + 1;
    }
    assert s[..i] == s;
  }

  // ---------------------------------------------------------------------
  // Symbol tables
  // ---------------------------------------------------------------------

  /** A `symtab_entry_t`: a NULL `sym` is an empty slot. */
  datatype Binding<V> = Empty | Bound(sym: string, obj: V)

  /** A `symtab_t`. */
  datatype Symtab<V> = Symtab(len: int, cap: int, entries: seq<Binding<V>>)

  /** The outcome of env_add and env_grow when they return: the new table, or
      the "Duplicate symbol definition" exit. */
  datatype Added<V> = Added(t: Symtab<V>) | Duplicate

  /** Where a probe run ended, `k` steps after its start slot. */
  datatype Probe = Hit(k: nat) | Stop(k: nat) | Exhausted

  predicate Wf<V>(t: Symtab<V>) { t.cap >= 1 && |t.entries| == t.cap }

  /** The number of bound slots. */
  function Occ<V>(e: seq<Binding<V>>): nat
  {
    if e == [] then 0 else Occ(e[..|e| - 1]) + (if e[|e| - 1].Bound? then 1 else 0)
  }

  /** What every operation keeps: `len` never under-counts the bindings, and
      at least one slot is empty, so every probe run ends. */
  predicate Inv<V>(t: Symtab<V>)
  {
    Wf(t) && Occ(t.entries) <= t.len && Occ(t.entries) < t.cap
  }

  function Empties<V>(n: nat): seq<Binding<V>>
  {
    seq(n, _ => Empty)
  }

  /** env_init (src/env.c:36-42): `len` 0, `cap` 16 and every slot empty. */
  function Init<V>(): (t: Symtab<V>)
    ensures t.len == 0 && t.cap == INIT_CAP && t.entries == Empties(INIT_CAP)
    ensures Occ(t.entries) == 0 && Inv(t)
  {
    OccEmpties<V>(INIT_CAP);
    Symtab(0, INIT_CAP, Empties(INIT_CAP))
  }

  /** The slot `k` steps after `start`. */
  function At<V>(e: seq<Binding<V>>, start: nat, k: nat): Binding<V>
    requires |e| > 0
  {
    e[(start + k) % |e|]
  }

  /** The probe loops of env_add (src/env.c:53-59) and env_find
      (src/env.c:72-77): pass bound slots holding other symbols, stop at the
      symbol or at an empty slot. `Exhausted` means every slot holds another
      symbol, where the C loop goes round forever. */
  function ProbeFrom<V>(e: seq<Binding<V>>, sym: string, start: nat, k: nat): (r: Probe)
    requires |e| > 0 && k <= |e|
    ensures !r.Exhausted? ==> k <= r.k < |e|
    ensures r.Hit? ==> At(e, start, r.k).Bound? && At(e, start, r.k).sym == sym
    ensures r.Stop? ==> At(e, start, r.k).Empty?
    ensures forall j | k <= j < (if r.Exhausted? then |e| else r.k) ::
              At(e, start, j).Bound? && At(e, start, j).sym != sym
    decreases |e| - k
  {
    if k == |e| then Exhausted
    else match At(e, start, k)
      case Empty => Stop(k)
      case Bound(s, _) => if s == sym then Hit(k) else ProbeFrom(e, sym, start, k + 1)
  }

  /** The part of env_add after the growth check (src/env.c:53-62), probing
      from `start`. */
  function Place<V>(t: Symtab<V>, start: nat, sym: string, obj: V): (r: Run<Added<V>>)
    requires Wf(t) && start < t.cap
    ensures r == Ends(Duplicate) <==> ProbeFrom(t.entries, sym, start, 0).Hit?
    ensures r.Ends? && r.value.Added? ==>
      Wf(r.value.t) && r.value.t.cap == t.cap && r.value.t.len == t.len + 1 &&
      Occ(r.value.t.entries) == Occ(t.entries) + 1
    ensures Occ(t.entries) < t.cap ==> r.Ends?
  {
    match ProbeFrom(t.entries, sym, start, 0)
    case Hit(_) => Ends(Duplicate)
    case Exhausted =>
      ExhaustedIsFull(t.entries, sym, start);
      Diverges
    case Stop(k) =>
      var i := (start + k) % t.cap;
      OccUpdate(t.entries, i, Bound(sym, obj));
      Ends(Added(Symtab(t.len + 1, t.cap, t.entries[i := Bound(sym, obj)])))
  }

  /** env_add (src/env.c:44-63): the start slot is taken modulo the capacity
      BEFORE the table may grow, when `len >= 3*cap/4`. */
  function Add<V>(t: Symtab<V>, sym: string, obj: V): (r: Run<Added<V>>)
    requires Wf(t)
    ensures r.Ends? && r.value.Added? ==>
      Wf(r.value.t) && r.value.t.cap >= t.cap && r.value.t.len >= t.len + 1 &&
      Occ(r.value.t.entries) == Occ(t.entries) + 1
    ensures Inv(t) ==> r.Ends? && (r.value.Added? ==> Inv(r.value.t))
    decreases Occ(t.entries), 2, 0
  {
    var start := Hash(sym) % t.cap;
    if t.len >= (t.cap * 3) / 4 then
      var g :- Grow(t);
      match g
      case Duplicate => Ends(Duplicate)
      case Added(t1) => Place(t1, start, sym, obj)
    else
      ThreeQuarters(t.cap);
      Place(t, start, sym, obj)
  }

  /** env_grow (src/env.c:19-34): double `cap`, start from empty slots and
      add every old binding again with env_add; `len` keeps its old value
      and grows by one per binding added. */
  function Grow<V>(t: Symtab<V>): (r: Run<Added<V>>)
    requires Wf(t)
    ensures r.Ends? && r.value.Added? ==>
      Wf(r.value.t) && r.value.t.cap >= 2 * t.cap &&
      Occ(r.value.t.entries) == Occ(t.entries) && r.value.t.len >= t.len + Occ(t.entries)
    ensures Inv(t) ==> r.Ends? && (r.value.Added? ==> Inv(r.value.t))
    decreases Occ(t.entries), 1, 0
  {
    OccEmpties<V>(2 * t.cap);
    GrowLoop(t.entries, 0, Symtab(t.len, 2 * t.cap, Empties(2 * t.cap)))
  }

  function GrowLoop<V>(prev: seq<Binding<V>>, i: nat, nt: Symtab<V>): (r: Run<Added<V>>)
    requires i <= |prev| && Wf(nt) && Occ(nt.entries) == Occ(prev[..i])
    ensures r.Ends? && r.value.Added? ==>
      Wf(r.value.t) && r.value.t.cap >= nt.cap && Occ(r.value.t.entries) == Occ(prev) &&
      r.value.t.len >= nt.len + Occ(prev) - Occ(prev[..i])
    ensures Inv(nt) ==> r.Ends? && (r.value.Added? ==> Inv(r.value.t))
    decreases Occ(prev), 0, |prev| - i
  {
    if i == |prev| then
      assert prev[..i] == prev;
      Ends(Added(nt))
    else
      OccSnoc(prev, i);
      OccPrefix(prev, i + 1);
      if prev[i].Bound? then
        var a :- Add(nt, prev[i].sym, prev[i].obj);
        match a
        case Duplicate => Ends(Duplicate)
        case Added(nt1) => GrowLoop(prev, i + 1, nt1)
      else
        GrowLoop(prev, i + 1, nt)
  }

  /** The lookup in one scope (src/env.c:70-77): the object bound to `sym`,
      or None when the probe run reaches an empty slot first. */
  function FindIn<V>(t: Symtab<V>, sym: string): (r: Run<Option<V>>)
    requires Wf(t)
    ensures Inv(t) ==> r.Ends?
    ensures r == Ends(None) <==> ProbeFrom(t.entries, sym, Hash(sym) % t.cap, 0).Stop?
    ensures r.Ends? && r.value.Some? ==> exists j :: 0 <= j < |t.entries| && t.entries[j] == Bound(sym, r.value.value)
  {
    var start := Hash(sym) % t.cap;
    match ProbeFrom(t.entries, sym, start, 0)
    case Hit(k) => Ends(Some(t.entries[(start + k) % t.cap].obj))
    case Stop(_) => Ends(None)
    case Exhausted =>
      ExhaustedIsFull(t.entries, sym, start);
      Diverges
  }

  predicate ChainWf<V>(chain: seq<Symtab<V>>)
  {
    forall i | 0 <= i < |chain| :: Wf(chain[i])
  }

  predicate ChainInv<V>(chain: seq<Symtab<V>>)
  {
    forall i | 0 <= i < |chain| :: Inv(chain[i])
  }

  /** env_find (src/env.c:65-81): the innermost scope that binds `sym`
      decides; None (NULL) when no scope does. */
  function Find<V>(chain: seq<Symtab<V>>, sym: string): (r: Run<Option<V>>)
    requires ChainWf(chain)
    ensures ChainInv(chain) ==> r.Ends?
    ensures r.Ends? && r.value.Some? ==>
      exists i, j :: 0 <= i < |chain| && 0 <= j < |chain[i].entries| &&
        chain[i].entries[j] == Bound(sym, r.value.value)
  {
    if chain == [] then Ends(None)
    else
      var here :- FindIn(chain[0], sym);
      if here.Some? then Ends(here)
      else
        var r := Find(chain[1..], sym);
        assert r.Ends? && r.value.Some? ==>
          exists i, j :: 0 <= i < |chain| && 0 <= j < |chain[i].entries| &&
            chain[i].entries[j] == Bound(sym, r.value.value) by {
          if r.Ends? && r.value.Some? {
            var i, j :| 0 <= i < |chain[1..]| && 0 <= j < |chain[1..][i].entries| &&
              chain[1..][i].entries[j] == Bound(sym, r.value.value);
            assert chain[i + 1] == chain[1..][i];
          }
        }
        r
  }

  /** env_find_bang (src/env.c:83-91): the exit with "Undefined symbol"
      and the symbol's name exactly when env_find returns NULL, otherwise
      the object env_find returns. */
  function FindBang(chain: seq<Symtab<Ptr>>, sym: string): (r: Res<Ptr>)
    requires ChainWf(chain)
    ensures r.Ok? <==> exists p :: p != Null && Find(chain, sym) == Ends(Some(p))
    ensures r.Ok? ==> Find(chain, sym) == Ends(Some(r.value))
    ensures Find(chain, sym).Ends? && !r.Ok? ==> r == Err(UndefinedExit(sym))
  {
    match Find(chain, sym)
    case Diverges => Err(Spins)
    case Ends(None) => Err(UndefinedExit(sym))
    case Ends(Some(p)) => if p == Null then Err(UndefinedExit(sym)) else Ok(p)
  }

  /** The message env_find_bang writes to stderr before `exit(1)`. */
  function UndefinedExit(sym: string): Fault
  {
    Fatal("ERROR: Undefined symbol '" + sym + "'.\n")
  }

  /** `env_update`, used by `set!` but not defined in the source: this model
      replaces the object of the binding env_find would return, in the scope
      that holds it, and yields None when there is no binding. */
  function Update<V>(chain: seq<Symtab<V>>, sym: string, obj: V): (r: Run<Option<seq<Symtab<V>>>>)
    requires ChainWf(chain)
    ensures r.Ends? && r.value.Some? ==>
      |r.value.value| == |chain| && ChainWf(r.value.value) &&
      (ChainInv(chain) ==> ChainInv(r.value.value))
    decreases |chain|
  {
    if chain == [] then Ends(None)
    else
      var t := chain[0];
      var start := Hash(sym) % t.cap;
      match ProbeFrom(t.entries, sym, start, 0)
      case Exhausted => Diverges
      case Hit(k) =>
        var i := (start + k) % t.cap;
        OccUpdate(t.entries, i, Bound(sym, obj));
        Ends(Some([t.(entries := t.entries[i := Bound(sym, obj)])] + chain[1..]))
      case Stop(_) =>
        var rest :- Update(chain[1..], sym, obj);
        if rest.None? then Ends(None)
        else
          var c := [t] + rest.value;
          assert forall i | 1 <= i < |c| :: c[i] == rest.value[i - 1];
          Ends(Some(c))
  }

  /** The objects `env_for_each` (used at src/gc.c:109, not defined in the
      source) hands to its visitor: every bound object of every scope, scope
      by scope from the innermost, each scope in slot order. */
  function Bindings<V>(chain: seq<Symtab<V>>): (r: seq<V>)
  {
    if chain == [] then [] else SlotObjects(chain[0].entries) + Bindings(chain[1..])
  }

  function SlotObjects<V>(e: seq<Binding<V>>): (r: seq<V>)
    ensures |r| == Occ(e)
  {
    if e == [] then []
    else SlotObjects(e[..|e| - 1]) + (if e[|e| - 1].Bound? then [e[|e| - 1].obj] else [])
  }

  // ---------------------------------------------------------------------
  // Counting and probing lemmas
  // ---------------------------------------------------------------------

  lemma {:induction false} OccEmpties<V>(n: nat)
    ensures Occ(Empties<V>(n)) == 0
  {
    if n > 0 {
      assert Empties<V>(n)[..n - 1] == Empties<V>(n - 1);
      OccEmpties<V>(n - 1);
    }
  }

  lemma OccSnoc<V>(e: seq<Binding<V>>, i: nat)
    requires i < |e|
    ensures Occ(e[..i + 1]) == Occ(e[..i]) + (if e[i].Bound? then 1 else 0)
  {
    assert e[..i + 1][..i] == e[..i];
  }

  lemma {:induction false} OccPrefix<V>(e: seq<Binding<V>>, j: nat)
    requires j <= |e|
    ensures Occ(e[..j]) <= Occ(e)
    decreases |e| - j
  {
    if j == |e| {
      assert e[..j] == e;
    } else {
      OccSnoc(e, j);
      OccPrefix(e, j + 1);
    }
  }

  lemma {:induction false} OccUpdate<V>(e: seq<Binding<V>>, i: nat, b: Binding<V>)
    requires i < |e|
    ensures Occ(e[i := b]) == Occ(e) - (if e[i].Bound? then 1 else 0) + (if b.Bound? then 1 else 0)
    decreases |e|
  {
    var n := |e| - 1;
    if i == n {
      assert e[i := b][..n] == e[..n];
    } else {
      assert e[i := b][..n] == e[..n][i := b];
      OccUpdate(e[..n], i, b);
    }
  }

  /** A table with no empty slot has every slot bound. */
  lemma {:induction false} OccAllBound<V>(e: seq<Binding<V>>)
    requires forall j | 0 <= j < |e| :: e[j].Bound?
    ensures Occ(e) == |e|
  {
    if e != [] {
      OccAllBound(e[..|e| - 1]);
    }
  }

  /** A probe run that passes `cap` bound slots has seen every slot. */
  lemma {:induction false} ExhaustedIsFull<V>(e: seq<Binding<V>>, sym: string, start: nat)
    requires |e| > 0 && start < |e| && ProbeFrom(e, sym, start, 0).Exhausted?
    ensures Occ(e) == |e|
  {
    forall j | 0 <= j < |e|
      ensures e[j].Bound?
    {
      var k := Cover(start, j, |e|);
      assert At(e, start, k) == e[j];
    }
    OccAllBound(e);
  }

  lemma ThreeQuarters(c: int)
    requires c >= 1
    ensures (c * 3) / 4 <= c - 1
  {
  }

  // ---------------------------------------------------------------------
  // Properties
  // ---------------------------------------------------------------------

  /** Without growth, env_add probes from `hash % cap`: it stops at
      "Duplicate symbol definition" exactly when that run meets the symbol,
      and otherwise stores the pair in the first empty slot of the run and
      counts one more in `len`; env_find then returns the stored object. */
  lemma {:induction false} AddThenFind<V>(t: Symtab<V>, sym: string, obj: V)
    requires Inv(t) && t.len < (t.cap * 3) / 4
    ensures var p := ProbeFrom(t.entries, sym, Hash(sym) % t.cap, 0);
      Add(t, sym, obj) == Ends(Duplicate) <==> p.Hit?
    ensures Add(t, sym, obj) != Ends(Duplicate) ==>
      var p := ProbeFrom(t.entries, sym, Hash(sym) % t.cap, 0);
      Add(t, sym, obj) == Ends(Added(Symtab(t.len + 1, t.cap,
        t.entries[(Hash(sym) % t.cap + p.k) % t.cap := Bound(sym, obj)]))) &&
      FindIn(Add(t, sym, obj).value.t, sym) == Ends(Some(obj))
  {
    var start := Hash(sym) % t.cap;
    assert Add(t, sym, obj) == Place(t, start, sym, obj);
    var p := ProbeFrom(t.entries, sym, start, 0);
    if p.Stop? {
      var e2 := t.entries[(start + p.k) % t.cap := Bound(sym, obj)];
      ProbeAfterStore(t.entries, sym, obj, start, p.k, 0);
      assert ProbeFrom(e2, sym, start, 0) == Hit(p.k);
    }
  }

  /** A fresh scope takes any symbol: env_add on the table env_init made
      stores the pair without growing, and env_find then yields it. */
  lemma {:induction false} AddToInit<V>(sym: string, obj: V)
    ensures Add(Init<V>(), sym, obj).Ends? && Add(Init<V>(), sym, obj).value.Added?
    ensures FindIn(Add(Init<V>(), sym, obj).value.t, sym) == Ends(Some(obj))
  {
    var t := Init<V>();
    var start := Hash(sym) % t.cap;
    assert At(t.entries, start, 0) == Empty;
    assert ProbeFrom(t.entries, sym, start, 0) == Stop(0);
    AddThenFind(t, sym, obj);
  }

  /** A probe run that ended at step `k` (at the symbol or at an empty slot)
      is unchanged up to that step when slot `k` is overwritten with the
      symbol, and then it hits there. */
  lemma {:induction false} ProbeAfterStore<V>(e: seq<Binding<V>>, sym: string, obj: V, start: nat, k: nat, m: nat)
    requires |e| > 0 && m <= k
    requires ProbeFrom(e, sym, start, 0) == Stop(k) || ProbeFrom(e, sym, start, 0) == Hit(k)
    ensures ProbeFrom(e[(start + k) % |e| := Bound(sym, obj)], sym, start, m) == Hit(k)
    decreases k - m
  {
    var e2 := e[(start + k) % |e| := Bound(sym, obj)];
    if m < k {
      assert At(e2, start, m) == At(e, start, m);
      ProbeAfterStore(e, sym, obj, start, k, m + 1);
    }
  }

  /** env_find: inner scopes shadow outer ones. Looking a symbol up in the
      chain `inner + outer` consults `outer` only when no scope of `inner`
      binds it. */
  lemma {:induction false} FindShadows<V>(inner: seq<Symtab<V>>, outer: seq<Symtab<V>>, sym: string)
    requires ChainWf(inner) && ChainWf(outer)
    ensures ChainWf(inner + outer)
    ensures Find(inner + outer, sym) ==
      match Find(inner, sym)
      case Ends(None) => Find(outer, sym)
      case other => other
    decreases |inner|
  {
    var c := inner + outer;
    assert ChainWf(c) by {
      forall i | 0 <= i < |c| ensures Wf(c[i]) {
        if i < |inner| { assert c[i] == inner[i]; } else { assert c[i] == outer[i - |inner|]; }
      }
    }
    if inner != [] {
      assert c[0] == inner[0];
      assert c[1..] == inner[1..] + outer;
      FindShadows(inner[1..], outer, sym);
    } else {
      assert c == outer;
    }
  }

  /** The model of env_update agrees with env_find: it reports no binding
      exactly when env_find returns NULL, and afterwards env_find returns the
      new object. */
  lemma {:induction false} UpdateThenFind<V>(chain: seq<Symtab<V>>, sym: string, obj: V)
    requires ChainWf(chain)
    ensures Update(chain, sym, obj) == Ends(None) <==> Find(chain, sym) == Ends(None)
    ensures Update(chain, sym, obj).Ends? && Update(chain, sym, obj).value.Some? ==>
      Find(Update(chain, sym, obj).value.value, sym) == Ends(Some(obj))
    decreases |chain|
  {
    if chain != [] {
      var t := chain[0];
      var p := ProbeFrom(t.entries, sym, Hash(sym) % t.cap, 0);
      if p.Hit? {
        UpdateHit(chain, sym, obj);
      } else if p.Stop? {
        UpdateThenFind(chain[1..], sym, obj);
        UpdateMiss(chain, sym, obj);
      }
    }
  }

  /** Under the table invariant no probe is exhausted, so env_update
      returns. */
  lemma {:induction false} UpdateEnds<V>(chain: seq<Symtab<V>>, sym: string, obj: V)
    requires ChainWf(chain) && ChainInv(chain)
    ensures Update(chain, sym, obj).Ends?
    decreases |chain|
  {
    if chain != [] {
      var t := chain[0];
      assert Inv(t);
      var start := Hash(sym) % t.cap;
      if ProbeFrom(t.entries, sym, start, 0).Exhausted? {
        ExhaustedIsFull(t.entries, sym, start);
      }
      assert forall i | 0 <= i < |chain| - 1 :: chain[1..][i] == chain[i + 1];
      UpdateEnds(chain[1..], sym, obj);
    }
  }

  /** The innermost scope binds the symbol: env_update overwrites it there. */
  lemma {:induction false} UpdateHit<V>(chain: seq<Symtab<V>>, sym: string, obj: V)
    requires ChainWf(chain) && chain != []
    requires ProbeFrom(chain[0].entries, sym, Hash(sym) % chain[0].cap, 0).Hit?
    ensures Update(chain, sym, obj).Ends? && Update(chain, sym, obj).value.Some?
    ensures Find(Update(chain, sym, obj).value.value, sym) == Ends(Some(obj))
  {
    var t := chain[0];
    var start := Hash(sym) % t.cap;
    var k := ProbeFrom(t.entries, sym, start, 0).k;
    var i := (start + k) % t.cap;
    var t2 := t.(entries := t.entries[i := Bound(sym, obj)]);
    assert Update(chain, sym, obj) == Ends(Some([t2] + chain[1..]));
    assert FindIn(t2, sym) == Ends(Some(obj)) by {
      ProbeAfterStore(t.entries, sym, obj, start, k, 0);
    }
    FindHead(t2, chain[1..], sym);
  }

  /** A scope that binds the symbol decides the lookup of a chain it heads. */
  lemma {:induction false} FindHead<V>(t: Symtab<V>, rest: seq<Symtab<V>>, sym: string)
    requires Wf(t) && ChainWf(rest) && FindIn(t, sym).Ends? && FindIn(t, sym).value.Some?
    ensures ChainWf([t] + rest) && Find([t] + rest, sym) == FindIn(t, sym)
  {
    var c := [t] + rest;
    assert c[0] == t;
    assert ChainWf(c) by {
      forall j | 0 <= j < |c| ensures Wf(c[j]) {
        if j > 0 { assert c[j] == rest[j - 1]; }
      }
    }
  }

  /** The innermost scope does not bind the symbol: env_update moves on to
      the outer scopes and leaves this one as it is. */
  lemma {:induction false} UpdateMiss<V>(chain: seq<Symtab<V>>, sym: string, obj: V)
    requires ChainWf(chain) && chain != []
    requires ProbeFrom(chain[0].entries, sym, Hash(sym) % chain[0].cap, 0).Stop?
    ensures Find(chain, sym) == Find(chain[1..], sym)
    ensures Update(chain, sym, obj) ==
      match Update(chain[1..], sym, obj)
      case Ends(Some(rest)) => Ends(Some([chain[0]] + rest))
      case other => other
    ensures forall rest: seq<Symtab<V>> | ChainWf(rest) ::
      Find([chain[0]] + rest, sym) == Find(rest, sym)
  {
    forall rest: seq<Symtab<V>> | ChainWf(rest)
      ensures Find([chain[0]] + rest, sym) == Find(rest, sym)
    {
      var c := [chain[0]] + rest;
      assert c[0] == chain[0] && c[1..] == rest;
    }
  }

  /** Every object env_for_each visits is bound in some scope, and every
      bound object is visited. */
  lemma {:induction false} BindingsComplete<V>(chain: seq<Symtab<V>>, i: nat, j: nat)
    requires i < |chain| && j < |chain[i].entries| && chain[i].entries[j].Bound?
    ensures chain[i].entries[j].obj in Bindings(chain)
    decreases |chain|
  {
    if i == 0 {
      SlotObjectsComplete(chain[0].entries, j);
    } else {
      assert chain[1..][i - 1] == chain[i];
      BindingsComplete(chain[1..], i - 1, j);
    }
  }

  lemma {:induction false} SlotObjectsComplete<V>(e: seq<Binding<V>>, j: nat)
    requires j < |e| && e[j].Bound?
    ensures e[j].obj in SlotObjects(e)
    decreases |e|
  {
    if j < |e| - 1 {
      assert e[..|e| - 1][j] == e[j];
      SlotObjectsComplete(e[..|e| - 1], j);
    }
  }

  /** env_add for each pair in turn, from the table the previous one left,
      as a run of top-level definitions does. */
  function AddAll<V>(t: Symtab<V>, binds: seq<(string, V)>): (r: Run<Added<V>>)
    requires Wf(t)
    ensures r.Ends? && r.value.Added? ==> Wf(r.value.t)
    decreases |binds|
  {
    if binds == [] then Ends(Added(t))
    else
      var a :- Add(t, binds[0].0, binds[0].1);
      match a
      case Duplicate => Ends(Duplicate)
      case Added(t1) => AddAll(t1, binds[1..])
  }

  /** The one-character symbol whose djb2 hash is `n` modulo both 16 and
      32: the characters from '\\' (92) to 'g' (103). */
  function Sym(n: nat): (s: string)
    requires 1 <= n <= 12
    ensures |s| == 1
  {
    [(91 + n) as char]
  }

  /** A table of `cap` slots whose slots 1 to `n` bind `Sym(1)` to
      `Sym(n)`, each to 0. */
  function Filled(cap: nat, n: nat): (e: seq<Binding<int>>)
    requires n <= 12 && n < cap
    ensures |e| == cap
  {
    seq(cap, j requires 0 <= j < cap => if 1 <= j <= n then Bound(Sym(j), 0) else Empty)
  }

  /** Twelve definitions, none of the symbol "k". */
  function Twelve(): (binds: seq<(string, int)>)
    ensures |binds| == 12
  {
    seq(12, j requires 0 <= j < 12 => (Sym(j + 1), 0))
  }

  lemma SymHash(n: nat)
    requires 1 <= n <= 12
    ensures Hash(Sym(n)) % 16 == n && Hash(Sym(n)) % 32 == n
  {
    var c := (91 + n) as char;
    assert Sym(n) == [c] && [c][1..] == [];
    assert CharCode(c) == 91 + n;
    assert Hash(Sym(n)) == HashFrom((HASH_SEED * 33 + CharCode(c)) % WORD, []);
  }

  lemma {:induction false} OccFilled(cap: nat, n: nat, i: nat)
    requires n <= 12 && n < cap && i <= cap
    ensures Occ(Filled(cap, n)[..i]) == (if i == 0 then 0 else if i - 1 < n then i - 1 else n)
  {
    if i > 0 {
      OccSnoc(Filled(cap, n), i - 1);
      OccFilled(cap, n, i - 1);
    }
  }

  /** Adding `Sym(n)` to a table holding `Sym(1)` to `Sym(n - 1)`, below the
      growth threshold, binds slot `n`. */
  lemma AddFilled(cap: nat, len: int, n: nat)
    requires cap == 16 || cap == 32
    requires 1 <= n <= 12 && len < (cap * 3) / 4
    ensures Add(Symtab(len, cap, Filled(cap, n - 1)), Sym(n), 0)
      == Ends(Added(Symtab(len + 1, cap, Filled(cap, n))))
  {
    var t := Symtab(len, cap, Filled(cap, n - 1));
    SymHash(n);
    PlaceFilled(cap, len, n);
    assert Add(t, Sym(n), 0) == Place(t, n, Sym(n), 0);
  }

  lemma PlaceFilled(cap: nat, len: int, n: nat)
    requires cap == 16 || cap == 32
    requires 1 <= n <= 12
    ensures Place(Symtab(len, cap, Filled(cap, n - 1)), n, Sym(n), 0)
      == Ends(Added(Symtab(len + 1, cap, Filled(cap, n))))
  {
    var e := Filled(cap, n - 1);
    assert n % cap == n;
    assert e[n] == Empty;
    assert ProbeFrom(e, Sym(n), n, 0) == Stop(0);
    FilledUpdate(cap, n);
  }

  lemma FilledUpdate(cap: nat, n: nat)
    requires cap == 16 || cap == 32
    requires 1 <= n <= 12
    ensures Filled(cap, n - 1)[n := Bound(Sym(n), 0)] == Filled(cap, n)
  {
    var e, f := Filled(cap, n - 1)[n := Bound(Sym(n), 0)], Filled(cap, n);
    forall j | 0 <= j < cap
      ensures e[j] == f[j]
    {
      if j != n {
        assert e[j] == Filled(cap, n - 1)[j];
      }
    }
  }

  lemma {:induction false} AddAllFilled(n: nat, rest: seq<(string, int)>)
    requires n <= 12
    ensures AddAll(Symtab(n, INIT_CAP, Filled(INIT_CAP, n)), Twelve()[n..] + rest)
      == AddAll(Symtab(12, INIT_CAP, Filled(INIT_CAP, 12)), rest)
    decreases 12 - n
  {
    if n == 12 {
      assert Twelve()[n..] + rest == rest;
    } else {
      var b := Twelve()[n..] + rest;
      assert b[0] == (Sym(n + 1), 0) && b[1..] == Twelve()[n + 1..] + rest;
      AddFilled(INIT_CAP, n, n + 1);
      AddAllFilled(n + 1, rest);
    }
  }

  /** The loop of env_grow over the twelve bindings: each lands in the slot
      of the same number, and `len` ends at 24. */
  lemma {:induction false} GrowFilled(i: nat)
    requires i <= INIT_CAP
    ensures var p := if i == 0 then 0 else if i - 1 < 12 then i - 1 else 12;
      Occ(Filled(INIT_CAP, 12)[..i]) == p && Occ(Filled(32, p)) == p &&
      GrowLoop(Filled(INIT_CAP, 12), i, Symtab(12 + p, 32, Filled(32, p)))
        == Ends(Added(Symtab(24, 32, Filled(32, 12))))
    decreases INIT_CAP - i
  {
    var p := if i == 0 then 0 else if i - 1 < 12 then i - 1 else 12;
    var prev := Filled(INIT_CAP, 12);
    OccFilled(INIT_CAP, 12, i);
    OccFilled(32, p, 32);
    assert Filled(32, p)[..32] == Filled(32, p);
    if i == INIT_CAP {
      assert prev[..i] == prev;
    } else {
      OccSnoc(prev, i);
      OccPrefix(prev, i + 1);
      if 1 <= i <= 12 {
        AddFilled(32, 12 + p, i);
      }
      GrowFilled(i + 1);
    }
  }

  /** The twelve definitions from a fresh scope, then one more. */
  lemma TwelveFromInit(rest: seq<(string, int)>)
    ensures AddAll(Init(), Twelve() + rest) == AddAll(Symtab(12, INIT_CAP, Filled(INIT_CAP, 12)), rest)
  {
    assert Init<int>() == Symtab(0, INIT_CAP, Filled(INIT_CAP, 0));
    assert Twelve()[0..] == Twelve();
    AddAllFilled(0, rest);
  }

  /** env_grow of the scope the twelve definitions leave. */
  lemma GrowTwelve()
    ensures Grow(Symtab(12, INIT_CAP, Filled(INIT_CAP, 12))) == Ends(Added(Symtab(24, 32, Filled(32, 12))))
  {
    OccFilled(32, 0, 32);
    assert Filled(32, 0)[..32] == Filled(32, 0);
    assert Symtab(12, 32, Empties<int>(32)) == Symtab(12, 32, Filled(32, 0));
    GrowFilled(0);
  }

  /** As written, a lookup can miss the binding it was just given. After
      twelve definitions (slots 1 to 12 of 16) `len` has reached `3*cap/4`,
      so the thirteenth, of "k" (hash 177680), grows the scope to 32 slots
      but is still placed from `hash % 16`, slot 0; the lookup starts at
      `hash % 32`, slot 16, which is empty. */
  lemma GrowthMissesBinding()
    ensures Hash("k") == 177680
    ensures forall j | 0 <= j < |Twelve()| :: Twelve()[j].0 != "k"
    ensures exists t1 ::
      AddAll(Init(), Twelve() + [("k", 7)]) == Ends(Added(t1)) && FindIn(t1, "k") == Ends(None)
  {
    assert Hash("k") == 177680 by {
      assert "k"[1..] == [];
    }
    forall j | 0 <= j < |Twelve()|
      ensures Twelve()[j].0 != "k"
    {
      assert Twelve()[j].0[0] != 'k';
    }
    TwelveFromInit([("k", 7)]);
    GrowTwelve();
    var t := Symtab(12, INIT_CAP, Filled(INIT_CAP, 12));
    var g := Symtab(24, 32, Filled(32, 12));
    assert g.entries[0] == Empty && g.entries[16] == Empty;
    assert ProbeFrom(g.entries, "k", 0, 0) == Stop(0);
    var t1 := Symtab(25, 32, g.entries[0 := Bound("k", 7)]);
    assert Add(t, "k", 7) == Ends(Added(t1));
    assert [("k", 7)][1..] == [];
    assert AddAll(t, [("k", 7)]) == Ends(Added(t1));
    assert At(t1.entries, 16, 0) == Empty;
    assert ProbeFrom(t1.entries, "k", 16, 0) == Stop(0);
  }

  /** env_add as evidently intended: the start slot is taken modulo the
      capacity of the table the pair is placed in, after any growth. */
  function AddRehashed<V>(t: Symtab<V>, sym: string, obj: V): (r: Run<Added<V>>)
    requires Wf(t)
    ensures Inv(t) ==> r.Ends?
  {
    if t.len >= (t.cap * 3) / 4 then
      var g :- Grow(t);
      match g
      case Duplicate => Ends(Duplicate)
      case Added(t1) => Place(t1, Hash(sym) % t1.cap, sym, obj)
    else
      ThreeQuarters(t.cap);
      Place(t, Hash(sym) % t.cap, sym, obj)
  }

  /** Placing from `hash % cap` makes env_find return the stored object. */
  lemma {:induction false} PlaceThenFind<V>(t: Symtab<V>, sym: string, obj: V)
    requires Inv(t)
    ensures var r := Place(t, Hash(sym) % t.cap, sym, obj);
      r.Ends? && r.value.Added? ==> FindIn(r.value.t, sym) == Ends(Some(obj))
  {
    var start := Hash(sym) % t.cap;
    var p := ProbeFrom(t.entries, sym, start, 0);
    if p.Stop? {
      ProbeAfterStore(t.entries, sym, obj, start, p.k, 0);
    }
  }

  /** With the start slot taken after growth, a lookup in the table
      returned finds the pair just added, whether or not the table grew. */
  lemma {:induction false} RehashedThenFind<V>(t: Symtab<V>, sym: string, obj: V)
    requires Inv(t)
    ensures AddRehashed(t, sym, obj).value.Added? ==>
      FindIn(AddRehashed(t, sym, obj).value.t, sym) == Ends(Some(obj))
  {
    if t.len >= (t.cap * 3) / 4 {
      var g := Grow(t).value;
      if g.Added? {
        PlaceThenFind(g.t, sym, obj);
      }
    } else {
      PlaceThenFind(t, sym, obj);
    }
  }

  /** Growing a table that has no bindings adds nothing. */
  lemma {:induction false} GrowLoopSkipsEmpty<V>(prev: seq<Binding<V>>, i: nat, nt: Symtab<V>)
    requires i <= |prev| && Wf(nt) && Occ(nt.entries) == 0
    requires forall j | 0 <= j < |prev| :: prev[j].Empty?
    ensures Occ(prev[..i]) == 0
    ensures GrowLoop(prev, i, nt) == Ends(Added(nt))
    decreases |prev| - i
  {
    EmptyPrefix(prev, i);
    if i < |prev| {
      GrowLoopSkipsEmpty(prev, i + 1, nt);
    }
  }

  lemma {:induction false} EmptyPrefix<V>(prev: seq<Binding<V>>, i: nat)
    requires i <= |prev| && forall j | 0 <= j < |prev| :: prev[j].Empty?
    ensures Occ(prev[..i]) == 0
  {
    if i > 0 {
      OccSnoc(prev, i - 1);
      EmptyPrefix(prev, i - 1);
    }
  }

  // ---------------------------------------------------------------------
  // The tables in place
  // ---------------------------------------------------------------------

  /** One more step of a probe run that has neither hit nor stopped: it
      stays inside the table, since some slot is empty. */
  lemma ProbeStep<V>(e: seq<Binding<V>>, sym: string, start: nat, k: nat)
    requires start < |e| && k < |e| && Occ(e) < |e|
    requires ProbeFrom(e, sym, start, k) == ProbeFrom(e, sym, start, 0)
    requires At(e, start, k).Bound? && At(e, start, k).sym != sym
    ensures k + 1 < |e| && ProbeFrom(e, sym, start, k + 1) == ProbeFrom(e, sym, start, 0)
  {
    if k + 1 == |e| {
      assert ProbeFrom(e, sym, start, k + 1) == Exhausted;
      ExhaustedIsFull(e, sym, start);
    }
  }

  /** One iteration of the loop of env_grow. */
  lemma GrowLoopStep<V>(prev: seq<Binding<V>>, i: nat, nt: Symtab<V>)
    requires i < |prev| && Wf(nt) && Occ(nt.entries) == Occ(prev[..i])
    ensures Occ(prev[..i + 1]) == Occ(prev[..i]) + (if prev[i].Bound? then 1 else 0)
    ensures Occ(prev[..i + 1]) <= Occ(prev)
    ensures !prev[i].Bound? ==> GrowLoop(prev, i, nt) == GrowLoop(prev, i + 1, nt)
    ensures prev[i].Bound? && Add(nt, prev[i].sym, prev[i].obj) == Ends(Duplicate) ==>
      GrowLoop(prev, i, nt) == Ends(Duplicate)
    ensures (prev[i].Bound? && Add(nt, prev[i].sym, prev[i].obj).Ends? &&
      Add(nt, prev[i].sym, prev[i].obj).value.Added?) ==>
      GrowLoop(prev, i, nt) == GrowLoop(prev, i + 1, Add(nt, prev[i].sym, prev[i].obj).value.t)
  {
    OccSnoc(prev, i);
    OccPrefix(prev, i + 1);
  }

  /** The probe step `idx = (idx + 1) % cap` of env_add and env_find: from
      slot `start + k` to slot `start + k + 1`, counted modulo `cap`. */
  method NextSlot(idx: nat, ghost start: nat, ghost k: nat, cap: nat) returns (next: nat)
    requires cap > 0 && idx == (start + k) % cap
    ensures next == (start + k + 1) % cap
  {
    ModStep(start + k, cap);
    next := (idx + 1) % cap;
  }

  /** One `env_t` scope: its symbol table, updated in place. */
  class Scope<V> {
    var len: int
    var cap: int
    var entries: array<Binding<V>>

    ghost function Abs(): Symtab<V>
      reads this, entries
    {
      Symtab(len, cap, entries[..])
    }

    ghost predicate Valid()
      reads this, entries
    {
      entries.Length == cap && Inv(Abs())
    }

    /** env_init (src/env.c:36-42), without the `outer` link (a chain is a
        sequence of scopes). */
    constructor ()
      ensures Valid() && Abs() == Init()
    {
      len := 0;
      cap := INIT_CAP;
      entries := new Binding<V>[INIT_CAP](_ => Empty);
      new;
      assert entries[..] == Empties(INIT_CAP);
      OccEmpties<V>(INIT_CAP);
    }

    /** env_add (src/env.c:44-63). `ok` is false where the C code exits with
        "Duplicate symbol definition". */
    method Bind(sym: string, obj: V) returns (ok: bool)
      requires Valid()
      modifies this, entries
      ensures entries == old(entries) || fresh(entries)
      ensures ok ==> Valid() && Add(old(Abs()), sym, obj) == Ends(Added(Abs()))
      ensures !ok ==> Add(old(Abs()), sym, obj) == Ends(Duplicate)
      decreases Occ(entries[..]), 2
    {
      ghost var t := Abs();
      var h := StrHash(sym);
      var idx := h % cap;
      if len >= (cap * 3) / 4 {
        ok := Enlarge();
        if !ok {
          return;
        }
      } else {
        ThreeQuarters(cap);
      }
      ok := Store(idx, sym, obj);
    }

    /** The probe-and-store part of env_add (src/env.c:53-62). */
    method Store(start: nat, sym: string, obj: V) returns (ok: bool)
      requires Valid() && start < cap
      modifies this, entries
      ensures entries == old(entries) && entries.Length == cap
      ensures ok ==> Place(old(Abs()), start, sym, obj) == Ends(Added(Abs()))
      ensures !ok ==> Place(old(Abs()), start, sym, obj) == Ends(Duplicate)
    {
      ghost var t := Abs();
      ghost var s := entries[..];
      var idx := start;
      ModUnique(start, cap, 0, start);
      ghost var k := 0;
      while entries[idx].Bound?
        invariant 0 <= k < cap && idx == (start + k) % cap
        invariant entries == old(entries) && entries[..] == s && len == t.len && cap == t.cap
        invariant ProbeFrom(s, sym, start, k) == ProbeFrom(s, sym, start, 0)
        decreases cap - k
      {
        if entries[idx].sym == sym {
          assert ProbeFrom(s, sym, start, k) == Hit(k);
          return false;
        }
        ProbeStep(s, sym, start, k);
        idx := NextSlot(idx, start, k, cap);
        k := k + 1;
      }
      assert ProbeFrom(s, sym, start, k) == Stop(k);
      entries[idx] := Bound(sym, obj);
      len := len + 1;
      assert entries[..] == s[idx := Bound(sym, obj)];
      return true;
    }

    /** env_grow (src/env.c:19-34). */
    method Enlarge() returns (ok: bool)
      requires Valid()
      modifies this
      ensures fresh(entries)
      ensures ok ==> Valid() && Grow(old(Abs())) == Ends(Added(Abs()))
      ensures !ok ==> Grow(old(Abs())) == Ends(Duplicate)
      decreases Occ(entries[..]), 1
    {
      ghost var t := Abs();
      ghost var goal := Grow(t);
      var prev := entries;
      ghost var p := prev[..];
      var oldCap := cap;
      cap := cap * 2;
      entries := new Binding<V>[cap](_ => Empty);
      assert entries[..] == Empties(cap);
      OccEmpties<V>(cap);
      assert p[..0] == [];
      assert Abs() == Symtab(t.len, 2 * t.cap, Empties(2 * t.cap));
      var i := 0;
      while i < oldCap
        invariant 0 <= i <= oldCap == prev.Length && prev[..] == p
        invariant Valid() && fresh(entries)
        invariant Occ(entries[..]) == Occ(p[..i])
        invariant GrowLoop(p, i, Abs()) == goal
        decreases oldCap - i
      {
        ok := Regrow(p, i, prev[i]);
        if !ok {
          return;
        }
        i := i + 1;
      }
      assert p[..i] == p;
      ok := true;
    }

    /** One turn of the loop of env_grow: slot `i` of the old table `p`,
        added to this new table when it is bound. */
    method Regrow(ghost p: seq<Binding<V>>, i: nat, b: Binding<V>) returns (ok: bool)
      requires Valid() && i < |p| && p[i] == b && Occ(entries[..]) == Occ(p[..i])
      modifies this, entries
      ensures entries == old(entries) || fresh(entries)
      ensures ok ==> Valid() && Occ(entries[..]) == Occ(p[..i + 1])
      ensures ok ==> GrowLoop(p, i, old(Abs())) == GrowLoop(p, i + 1, Abs())
      ensures !ok ==> GrowLoop(p, i, old(Abs())) == Ends(Duplicate)
      decreases Occ(p), 0
    {
      GrowLoopStep(p, i, Abs());
      ok := true;
      if b.Bound? {
        ok := Bind(b.sym, b.obj);
      }
    }

    /** The lookup in this scope (src/env.c:70-77). */
    method FindHere(sym: string) returns (r: Option<V>)
      requires Valid()
      ensures FindIn(Abs(), sym) == Ends(r)
    {
      ghost var s := entries[..];
      var h := StrHash(sym);
      var start := h % cap;
      var idx := start;
      ModUnique(start, cap, 0, start);
      ghost var k := 0;
      while entries[idx].Bound?
        invariant 0 <= k < cap && idx == (start + k) % cap
        invariant ProbeFrom(s, sym, start, k) == ProbeFrom(s, sym, start, 0)
        decreases cap - k
      {
        if entries[idx].sym == sym {
          assert ProbeFrom(s, sym, start, k) == Hit(k);
          return Some(entries[idx].obj);
        }
        ProbeStep(s, sym, start, k);
        idx := NextSlot(idx, start, k, cap);
        k := k + 1;
      }
      assert ProbeFrom(s, sym, start, k) == Stop(k);
      return None;
    }
  }

  /** env_find (src/env.c:65-81): the walk along the `outer` links, over the
      scopes `chain` whose tables are `tables`. */
  method FindInChain<V>(chain: seq<Scope<V>>, ghost tables: seq<Symtab<V>>, sym: string) returns (r: Option<V>)
    requires |chain| == |tables|
    requires forall i | 0 <= i < |chain| :: chain[i].Valid() && chain[i].Abs() == tables[i]
    ensures ChainWf(tables) && Find(tables, sym) == Ends(r)
  {
    assert ChainInv(tables);
    var n := 0;
    while n < |chain|
      invariant 0 <= n <= |chain|
      invariant Find(tables, sym) == Find(tables[n..], sym)
    {
      assert tables[n..][0] == tables[n] && tables[n..][1..] == tables[n + 1..];
      r := chain[n].FindHere(sym);
      if r.Some? {
        return r;
      }
      n := n + 1;
    }
    return None;
  }
}
