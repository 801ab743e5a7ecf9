/**
 * The open-addressing dictionary of src/dict.c.
 *
 * A table is an array of `cap` entries. An entry never written is all zero
 * (`Unused`: the C key pointer is NULL); a written entry holds a key, a value
 * and a `valid` flag, and an entry whose flag was cleared by a removal is a
 * tombstone that keeps its key. `obj_hash` is a stub that always returns 0, so
 * every probe run starts at slot 0. The key comparison `obj_equals` is a
 * parameter `eq` here, so the module does not depend on the object model.
 *
 * The functions below are the specification; class `Dictionary` at the end
 * performs the same operations in place on an array and is proved to agree.
 */
module Dict {
  import opened Base

  const MIN_CAP: int := 8

  datatype Entry<T> = Unused | Slot(key: T, val: T, valid: bool)

  datatype Table<T> = Table(len: int, cap: int, entries: seq<Entry<T>>)

  /** Where a probe run ended: `k` is the number of steps taken from the start slot. */
  datatype Probe = Hit(k: nat) | Stop(k: nat) | Exhausted

  datatype InsOut<T> = InsOut(t: Table<T>, previous: Option<T>)

  datatype RemOut<T> = RemOut(t: Table<T>, removed: Option<T>)

  predicate IsValid<T>(e: Entry<T>) { e.Slot? && e.valid }

  /** The shape every table has: a positive capacity and that many entries. */
  predicate Wf<T>(t: Table<T>) { t.cap >= 1 && |t.entries| == t.cap }

  /** The number of valid entries. */
  function ValidCount<T>(s: seq<Entry<T>>): nat
  {
    if s == [] then 0
    else ValidCount(s[..|s| - 1]) + (if IsValid(s[|s| - 1]) then 1 else 0)
  }

  /** The invariant the operations keep: `len` never under-counts the valid
      entries, the written entries form a prefix of the array (every probe
      starts at slot 0), and the last slot is still unused, so every probe run
      ends. */
  predicate Inv<T>(t: Table<T>)
  {
    && Wf(t)
    && ValidCount(t.entries) <= t.len
    && t.entries[t.cap - 1].Unused?
    && Prefixed(t.entries)
  }

  /** Once a slot is unused, so is every slot after it. */
  predicate Prefixed<T>(s: seq<Entry<T>>)
  {
    forall i, j | 0 <= i < j < |s| :: s[i].Unused? ==> s[j].Unused?
  }

  /** `obj_hash` (src/core.c:25-42) is a stub returning 0. */
  function ObjHash<T>(key: T): nat { 0 }

  function Unuseds<T>(n: nat): seq<Entry<T>>
  {
    seq(n, _ => Unused)
  }

  function Empty<T>(len: int, cap: nat): Table<T>
  {
    Table(len, cap, Unuseds(cap))
  }

  /** dict_new (src/dict.c:7-14). */
  function New<T>(): (t: Table<T>)
    ensures t.len == 0 && t.cap == MIN_CAP && t.entries == Unuseds(MIN_CAP)
    ensures Inv(t)
  {
    EmptyCount<T>(MIN_CAP);
    Empty(0, MIN_CAP)
  }

  function Slot_<T>(s: seq<Entry<T>>, start: nat, k: nat): Entry<T>
    requires |s| > 0
  {
    s[(start + k) % |s|]
  }

  /** The probe loop of dict_ins (src/dict.c:48-55): it passes valid entries
      whose key differs and stops at an equal valid key or a non-valid slot. */
  function ProbeIns<T>(s: seq<Entry<T>>, key: T, start: nat, k: nat, eq: (T, T) -> bool): (r: Probe)
    requires |s| > 0 && k <= |s|
    ensures !r.Exhausted? ==> k <= r.k < |s|
    ensures r.Hit? ==> IsValid(Slot_(s, start, r.k)) && eq(Slot_(s, start, r.k).key, key)
    ensures r.Stop? ==> !IsValid(Slot_(s, start, r.k))
    ensures forall j | k <= j < (if r.Exhausted? then |s| else r.k) ::
              IsValid(Slot_(s, start, j)) && !eq(Slot_(s, start, j).key, key)
    decreases |s| - k
  {
    if k == |s| then Exhausted
    else
      var e := Slot_(s, start, k);
      if IsValid(e) then
        if eq(e.key, key) then Hit(k) else ProbeIns(s, key, start, k + 1, eq)
      else Stop(k)
  }

  /** The probe loop of dict_get_internal (src/dict.c:66-76): it passes every
      written slot (tombstones included) until an equal valid key or an unused
      slot. */
  function ProbeGet<T>(s: seq<Entry<T>>, key: T, start: nat, k: nat, eq: (T, T) -> bool): (r: Probe)
    requires |s| > 0 && k <= |s|
    ensures !r.Exhausted? ==> k <= r.k < |s|
    ensures r.Hit? ==> IsValid(Slot_(s, start, r.k)) && eq(Slot_(s, start, r.k).key, key)
    ensures r.Stop? ==> Slot_(s, start, r.k).Unused?
    ensures forall j | k <= j < (if r.Exhausted? then |s| else r.k) ::
              Slot_(s, start, j).Slot? && !(Slot_(s, start, j).valid && eq(Slot_(s, start, j).key, key))
    decreases |s| - k
  {
    if k == |s| then Exhausted
    else
      var e := Slot_(s, start, k);
      if e.Unused? then Stop(k)
      else if e.valid && eq(e.key, key) then Hit(k)
      else ProbeGet(s, key, start, k + 1, eq)
  }

  /** dict_ins (src/dict.c:39-61): grow to twice the capacity when
      `len >= 3*cap/4`, then probe and place the pair. */
  function Ins<T>(t: Table<T>, key: T, val: T, eq: (T, T) -> bool): (r: Run<InsOut<T>>)
    requires Wf(t)
    ensures r.Ends? ==> Wf(r.value.t) && r.value.t.cap >= t.cap
    ensures r.Ends? ==> ValidCount(r.value.t.entries) <= ValidCount(t.entries) + 1
    ensures r.Ends? ==> r.value.t.len - t.len >= ValidCount(r.value.t.entries) - ValidCount(t.entries)
    ensures r.Ends? && r.value.previous.None? ==> r.value.t.len >= t.len + 1
    ensures r.Ends? && r.value.previous.Some? && t.len < (t.cap * 3) / 4 ==> r.value.t.len == t.len
    ensures r.Ends? ==> ValidCount(r.value.t.entries) >= 1
    ensures Inv(t) ==> r.Ends? && Inv(r.value.t)
    decreases ValidCount(t.entries), 2, 0
  {
    if t.len >= (t.cap * 3) / 4 then
      var t1 :- Resize(t, t.cap * 2, eq);
      if Inv(t) then
        VCLastUnused(t.entries);
        Place(t1, key, val, eq)
      else Place(t1, key, val, eq)
    else
      ThreeQuarters(t.cap);
      Place(t, key, val, eq)
  }

  /** The part of dict_ins after the growth check (src/dict.c:46-60): replace
      the value of an equal key, returning the old value, or fill the first
      non-valid slot of the probe run and count it in `len`. */
  function Place<T>(t: Table<T>, key: T, val: T, eq: (T, T) -> bool): (r: Run<InsOut<T>>)
    requires Wf(t)
    ensures r.Ends? ==> Wf(r.value.t) && r.value.t.cap == t.cap
    ensures r.Ends? ==> ValidCount(r.value.t.entries) <= ValidCount(t.entries) + 1
    ensures r.Ends? ==> r.value.t.len - t.len == ValidCount(r.value.t.entries) - ValidCount(t.entries)
    ensures r.Ends? ==> (r.value.previous.None? <==> r.value.t.len == t.len + 1)
    ensures r.Ends? && r.value.previous.Some? ==> r.value.t.len == t.len
    ensures r.Ends? ==> ValidCount(r.value.t.entries) >= 1
    ensures Inv(t) && ValidCount(t.entries) < t.cap - 1 ==> r.Ends? && Inv(r.value.t)
  {
    var start := ObjHash(key) % t.cap;
    ModSmall(0, t.cap);
    ProbeInsEnds(t, key, eq);
    match ProbeIns(t.entries, key, start, 0, eq)
    case Exhausted => Diverges
    case Hit(k) =>
      ModSmall(k, t.cap);
      VCUpdate(t.entries, k, t.entries[k].(val := val));
      VCUpdate(t.entries[k := t.entries[k].(val := val)], k, Unused);
      Overwrite(t.entries, k, t.entries[k].(val := val));
      Ends(InsOut(t.(entries := t.entries[k := t.entries[k].(val := val)]), Some(t.entries[k].val)))
    case Stop(k) =>
      ModSmall(k, t.cap);
      VCUpdate(t.entries, k, Slot(key, val, true));
      PlaceKeepsInv(t, key, val, k, eq);
      Ends(InsOut(Table(t.len + 1, t.cap, t.entries[k := Slot(key, val, true)]), None))
  }

  /** dict_resize (src/dict.c:22-37): a fresh zeroed array of the new capacity
      into which every valid entry is inserted again with dict_ins; `len` is not
      reset first. */
  function Resize<T>(t: Table<T>, cap: int, eq: (T, T) -> bool): (r: Run<Table<T>>)
    requires Wf(t) && cap >= 1
    ensures r.Ends? ==> Wf(r.value) && r.value.cap >= cap
    ensures r.Ends? ==> ValidCount(r.value.entries) <= ValidCount(t.entries)
    ensures r.Ends? ==> r.value.len >= t.len + ValidCount(r.value.entries)
    ensures r.Ends? && ValidCount(t.entries) >= 1 ==> ValidCount(r.value.entries) >= 1
    ensures Inv(t) ==> r.Ends? && Inv(r.value)
    decreases ValidCount(t.entries), 1, 0
  {
    EmptyCount<T>(cap);
    ResizeLoop(t.entries, 0, Empty(t.len, cap), eq)
  }

  function ResizeLoop<T>(prev: seq<Entry<T>>, i: nat, nt: Table<T>, eq: (T, T) -> bool): (r: Run<Table<T>>)
    requires i <= |prev| && Wf(nt) && ValidCount(nt.entries) <= ValidCount(prev[..i])
    ensures r.Ends? ==> Wf(r.value) && r.value.cap >= nt.cap
    ensures r.Ends? ==> ValidCount(r.value.entries) <= ValidCount(prev)
    ensures r.Ends? ==> r.value.len - nt.len >= ValidCount(r.value.entries) - ValidCount(nt.entries)
    ensures r.Ends? && (ValidCount(nt.entries) >= 1 || ValidCount(prev[..i]) < ValidCount(prev)) ==>
              ValidCount(r.value.entries) >= 1
    ensures Inv(nt) ==> r.Ends? && Inv(r.value)
    decreases ValidCount(prev), 0, |prev| - i
  {

    if i == |prev| then
      assert prev[..i] == prev;
      Ends(nt)
    else
      VCSnoc(prev, i);
      VCPrefix(prev, i + 1);
      if IsValid(prev[i]) then
        var o :- Ins(nt, prev[i].key, prev[i].val, eq);
        ResizeLoop(prev, i + 1, o.t, eq)
      else
        ResizeLoop(prev, i + 1, nt, eq)
  }

  /** dict_get (src/dict.c:80-84). */
  function Get<T>(t: Table<T>, key: T, eq: (T, T) -> bool): (r: Run<Option<T>>)
    requires Wf(t)
    ensures Inv(t) ==> r.Ends?
  {
    var start := ObjHash(key) % t.cap;
    var p := ProbeGet(t.entries, key, start, 0, eq);
    ProbeGetEnds(t, key, eq);
    match p
    case Exhausted => Diverges
    case Stop(_) => Ends(None)
    case Hit(k) => Ends(Some(t.entries[(start + k) % t.cap].val))
  }

  /** dict_rem (src/dict.c:86-99) with the value read before the table may be
      resized; see `RemReadsFreedEntry` for the order the C code uses. */
  function Rem<T>(t: Table<T>, key: T, eq: (T, T) -> bool): (r: Run<RemOut<T>>)
    requires Wf(t)
    ensures r.Ends? ==> Wf(r.value.t)
    ensures r.Ends? && r.value.removed.None? ==> r.value.t == t
    ensures Inv(t) ==> r.Ends? && Inv(r.value.t)
  {
    var start := ObjHash(key) % t.cap;
    ProbeGetEnds(t, key, eq);
    match ProbeGet(t.entries, key, start, 0, eq)
    case Exhausted => Diverges
    case Stop(_) => Ends(RemOut(t, None))
    case Hit(k) =>
      var i := (start + k) % t.cap;
      var v := t.entries[i].val;
      var t1 := Table(t.len - 1, t.cap, t.entries[i := t.entries[i].(valid := false)]);
      VCUpdate(t.entries, i, t.entries[i].(valid := false));
      Overwrite(t.entries, i, t.entries[i].(valid := false));
      if t1.cap >= 2 * MIN_CAP && t1.len < t1.cap / 4 then
        var t2 :- Resize(t1, t1.cap / 2, eq);
        Ends(RemOut(t2, Some(v)))
      else
        Ends(RemOut(t1, Some(v)))
  }

  /** dict_len (src/dict.c:101-104). */
  function Len<T>(t: Table<T>): int { t.len }

  /** The (key, value) pairs dict_for_each (src/dict.c:106-115) hands to its
      visitor, in the order it visits them. */
  function Visits<T>(s: seq<Entry<T>>): (r: seq<(T, T)>)
    ensures |r| == ValidCount(s)
  {
    if s == [] then []
    else Visits(s[..|s| - 1]) + (if IsValid(s[|s| - 1]) then [(s[|s| - 1].key, s[|s| - 1].val)] else [])
  }

  // ---------------------------------------------------------------------
  // Counting lemmas
  // ---------------------------------------------------------------------

  lemma EmptyCount<T>(n: nat)
    ensures ValidCount(Unuseds<T>(n)) == 0
  {
    if n > 0 {
      var s: seq<Entry<T>> := Unuseds(n);
      assert s[..n - 1] == Unuseds(n - 1);
      EmptyCount<T>(n - 1);
    }
  }

  lemma VCSnoc<T>(s: seq<Entry<T>>, i: nat)
    requires i < |s|
    ensures ValidCount(s[..i + 1]) == ValidCount(s[..i]) + (if IsValid(s[i]) then 1 else 0)
  {
    assert s[..i + 1][..i] == s[..i];
  }

  lemma {:induction false} VCPrefix<T>(s: seq<Entry<T>>, j: nat)
    requires j <= |s|
    ensures ValidCount(s[..j]) <= ValidCount(s)
    decreases |s| - j
  {
    if j == |s| {
      assert s[..j] == s;
    } else {
      VCSnoc(s, j);
      VCPrefix(s, j + 1);
    }
  }

  lemma {:induction false} VCUpdate<T>(s: seq<Entry<T>>, i: nat, e: Entry<T>)
    requires i < |s|
    ensures ValidCount(s[i := e]) == ValidCount(s) - (if IsValid(s[i]) then 1 else 0) + (if IsValid(e) then 1 else 0)
    decreases |s|
  {
    var n := |s| - 1;
    if i == n {
      assert s[i := e][..n] == s[..n];
    } else {
      assert s[i := e][..n] == s[..n][i := e];
      VCUpdate(s[..n], i, e);
    }
  }

  lemma {:induction false} VCValidPrefix<T>(s: seq<Entry<T>>, k: nat)
    requires k <= |s|
    requires forall j | 0 <= j < k :: IsValid(s[j])
    ensures ValidCount(s) >= k
  {
    VCPrefix(s, k);
    var j := 0;
    while j < k
      invariant j <= k
      invariant ValidCount(s[..j]) == j
    {
      VCSnoc(s, j);
      j := j + 1;
    }
  }

  lemma {:induction false} VCLastUnused<T>(s: seq<Entry<T>>)
    requires |s| > 0 && s[|s| - 1].Unused?
    ensures ValidCount(s) <= |s| - 1
  {
    var n := |s| - 1;
    VCBound(s[..n]);
  }

  lemma {:induction false} VCBound<T>(s: seq<Entry<T>>)
    ensures ValidCount(s) <= |s|
    decreases |s|
  {
    if s != [] {
      VCBound(s[..|s| - 1]);
    }
  }

  // ---------------------------------------------------------------------
  // Invariant preservation
  // ---------------------------------------------------------------------

  /** After a probe from slot 0 stops at step k, filling that slot keeps the
      invariant: the slots before it are all valid, so there are at most `len`
      of them, and the growth rule leaves at least one unused slot behind it. */
  lemma PlaceKeepsInv<T>(t: Table<T>, key: T, val: T, k: nat, eq: (T, T) -> bool)
    requires Wf(t)
    requires ProbeIns(t.entries, key, ObjHash(key) % t.cap, 0, eq) == Stop(k)
    ensures Inv(t) && ValidCount(t.entries) < t.cap - 1 ==>
              Inv(Table(t.len + 1, t.cap, t.entries[k := Slot(key, val, true)]))
  {
    if Inv(t) && ValidCount(t.entries) < t.cap - 1 {
      var s := t.entries;
      ModSmall(0, t.cap);
      assert ObjHash(key) % t.cap == 0;
      forall j | 0 <= j < k ensures IsValid(s[j]) {
        ModSmall(j, |s|);
        assert Slot_(s, 0, j) == s[j];
      }
      VCValidPrefix(s, k);
      VCUpdate(s, k, Slot(key, val, true));
      Fill(s, k, Slot(key, val, true));
    }
  }

  lemma ThreeQuarters(c: int)
    requires c >= 1
    ensures (c * 3) / 4 <= c - 1
  {
  }

  lemma ModSmall(x: int, n: int)
    requires 0 <= x < n
    ensures x % n == x
  {
  }

  /** The result of dict_rem once the probe has found the entry at slot i. */
  lemma RemHit<T>(t: Table<T>, key: T, eq: (T, T) -> bool, i: nat)
    requires Inv(t) && i < t.cap && ProbeGet(t.entries, key, 0, 0, eq) == Hit(i)
    ensures var t1 := Table(t.len - 1, t.cap, t.entries[i := t.entries[i].(valid := false)]);
      Rem(t, key, eq) ==
        if t1.cap >= 2 * MIN_CAP && t1.len < t1.cap / 4 then
          (match Resize(t1, t1.cap / 2, eq)
           case Ends(t2) => Ends(RemOut(t2, Some(t.entries[i].val)))
           case Diverges => Diverges)
        else Ends(RemOut(t1, Some(t.entries[i].val)))
  {
    ModSmall(0, t.cap);
    ModSmall(i, t.cap);
  }

  /** Clearing the flag of a valid entry, and decrementing `len`, keeps the invariant. */
  lemma TombstoneKeepsInv<T>(t: Table<T>, i: nat)
    requires Inv(t) && i < t.cap && IsValid(t.entries[i])
    ensures Inv(Table(t.len - 1, t.cap, t.entries[i := t.entries[i].(valid := false)]))
  {
    VCUpdate(t.entries, i, t.entries[i].(valid := false));
    Overwrite(t.entries, i, t.entries[i].(valid := false));
  }

  /** Overwriting a written slot with another written entry keeps the shape. */
  lemma Overwrite<T>(s: seq<Entry<T>>, i: nat, e: Entry<T>)
    requires i < |s| && s[i].Slot? && e.Slot?
    ensures Prefixed(s) ==> Prefixed(s[i := e])
  {
  }

  /** Writing the first slot after a run of written slots keeps the shape. */
  lemma Fill<T>(s: seq<Entry<T>>, k: nat, e: Entry<T>)
    requires k < |s| && e.Slot?
    requires forall j | 0 <= j < k :: s[j].Slot?
    ensures Prefixed(s) ==> Prefixed(s[k := e])
  {
    var s' := s[k := e];
    if Prefixed(s) {
      forall i, j | 0 <= i < j < |s'| && s'[i].Unused? ensures s'[j].Unused? {
        assert i != k && s[i].Unused?;
      }
    }
  }

  /** Under the invariant the insertion probe ends: the last slot is unused. */
  lemma ProbeInsEnds<T>(t: Table<T>, key: T, eq: (T, T) -> bool)
    requires Wf(t)
    ensures Inv(t) ==> !ProbeIns(t.entries, key, ObjHash(key) % t.cap, 0, eq).Exhausted?
  {
    if Inv(t) {
      ModSmall(0, t.cap);
      ModSmall(t.cap - 1, t.cap);
      assert Slot_(t.entries, 0, t.cap - 1) == t.entries[t.cap - 1];
    }
  }

  /** Under the invariant the lookup probe ends: the last slot is unused. */
  lemma ProbeGetEnds<T>(t: Table<T>, key: T, eq: (T, T) -> bool)
    requires Wf(t)
    ensures Inv(t) ==> !ProbeGet(t.entries, key, ObjHash(key) % t.cap, 0, eq).Exhausted?
  {
    var s := t.entries;
    if Inv(t) {
      ModSmall(0, t.cap);
      ModSmall(t.cap - 1, t.cap);
      assert Slot_(s, 0, |s| - 1) == s[|s| - 1];
    }
  }

  // ---------------------------------------------------------------------
  // Properties of the dictionary operations
  // ---------------------------------------------------------------------

  /** A lookup probe from slot 0 hits the first valid equal key when every
      slot before it is valid with a different key. */
  lemma {:induction false} ProbeGetFinds<T>(s: seq<Entry<T>>, key: T, m: nat, k: nat, eq: (T, T) -> bool)
    requires m <= k < |s|
    requires forall j | 0 <= j < k :: IsValid(s[j]) && !eq(s[j].key, key)
    requires IsValid(s[k]) && eq(s[k].key, key)
    ensures ProbeGet(s, key, 0, m, eq) == Hit(k)
    decreases k - m
  {
    ModSmall(m, |s|);
    assert Slot_(s, 0, m) == s[m];
    if m < k {
      ProbeGetFinds(s, key, m + 1, k, eq);
    }
  }

  lemma PlaceThenGet<T>(t: Table<T>, key: T, val: T, eq: (T, T) -> bool)
    requires Wf(t) && eq(key, key) && Place(t, key, val, eq).Ends?
    ensures Get(Place(t, key, val, eq).value.t, key, eq) == Ends(Some(val))
  {
    ModSmall(0, t.cap);
    var p := ProbeIns(t.entries, key, 0, 0, eq);
    var s := t.entries;
    var t' := Place(t, key, val, eq).value.t;
    assert !p.Exhausted?;
    ModSmall(p.k, t.cap);
    forall j | 0 <= j < p.k ensures IsValid(s[j]) && !eq(s[j].key, key) {
      ModSmall(j, t.cap);
      assert Slot_(s, 0, j) == s[j];
    }
    assert Slot_(s, 0, p.k) == s[p.k];
    ProbeGetFinds(t'.entries, key, 0, p.k, eq);
  }

  /** When the probe run meets a valid equal key, dict_ins overwrites only
      that entry's value and hands back the old one: the value dict_get found
      before, while dict_get now finds the new value and `len` is unchanged. */
  lemma {:induction false} PlaceHit<T>(t: Table<T>, key: T, val: T, eq: (T, T) -> bool)
    requires Wf(t) && Place(t, key, val, eq).Ends? && Place(t, key, val, eq).value.previous.Some?
    ensures var o := Place(t, key, val, eq).value;
      && Get(t, key, eq) == Ends(o.previous)
      && Get(o.t, key, eq) == Ends(Some(val))
      && o.t.len == t.len && o.t.cap == t.cap
      && ProbeIns(t.entries, key, 0, 0, eq).Hit?
      && var i := ProbeIns(t.entries, key, 0, 0, eq).k;
         i < t.cap && IsValid(t.entries[i]) && o.t.entries == t.entries[i := t.entries[i].(val := val)]
  {
    ModSmall(0, t.cap);
    var p := ProbeIns(t.entries, key, 0, 0, eq);
    var s := t.entries;
    var t' := Place(t, key, val, eq).value.t;
    assert p.Hit?;
    ModSmall(p.k, t.cap);
    assert t'.entries == s[p.k := s[p.k].(val := val)];
    HitFinds(s, key, val, p.k, eq);
  }

  /** The entries before an insertion hit, before and after the value of the
      hit entry is overwritten, lead the lookup probe to that entry. */
  lemma {:induction false} HitFinds<T>(s: seq<Entry<T>>, key: T, val: T, k: nat, eq: (T, T) -> bool)
    requires 0 < |s| && k < |s| && ProbeIns(s, key, 0, 0, eq) == Hit(k)
    ensures ProbeGet(s, key, 0, 0, eq) == Hit(k)
    ensures ProbeGet(s[k := s[k].(val := val)], key, 0, 0, eq) == Hit(k)
  {
    forall j | 0 <= j < k ensures IsValid(s[j]) && !eq(s[j].key, key) {
      ModSmall(j, |s|);
      assert Slot_(s, 0, j) == s[j];
    }
    ModSmall(k, |s|);
    assert Slot_(s, 0, k) == s[k];
    ProbeGetFinds(s, key, 0, k, eq);
    ProbeGetFinds(s[k := s[k].(val := val)], key, 0, k, eq);
  }

  /** dict_ins of a key the table already holds: without growth, `len` stays
      and the returned value is what dict_get found; after growth, it is what
      dict_get finds in the grown table. Either way dict_get then finds the
      new value. */
  lemma {:induction false} InsHit<T>(t: Table<T>, key: T, val: T, eq: (T, T) -> bool)
    requires Wf(t) && Ins(t, key, val, eq).Ends? && Ins(t, key, val, eq).value.previous.Some?
    ensures var o := Ins(t, key, val, eq).value;
      && (t.len < (t.cap * 3) / 4 ==> o.t.len == t.len && Get(t, key, eq) == Ends(o.previous))
      && (t.len >= (t.cap * 3) / 4 ==> Get(Resize(t, t.cap * 2, eq).value, key, eq) == Ends(o.previous))
      && Get(o.t, key, eq) == Ends(Some(val))
  {
    if t.len >= (t.cap * 3) / 4 {
      PlaceHit(Resize(t, t.cap * 2, eq).value, key, val, eq);
    } else {
      PlaceHit(t, key, val, eq);
    }
  }

  /** dict_ins followed by dict_get of the same key yields the value just
      stored, whether the key was new, replaced an old value, or the table grew
      first (obj_equals is reflexive on the keys the interpreter uses). */
  lemma {:induction false} GetAfterIns<T>(t: Table<T>, key: T, val: T, eq: (T, T) -> bool)
    requires Wf(t) && eq(key, key) && Ins(t, key, val, eq).Ends?
    ensures Get(Ins(t, key, val, eq).value.t, key, eq) == Ends(Some(val))
  {
    if t.len >= (t.cap * 3) / 4 {
      PlaceThenGet(Resize(t, t.cap * 2, eq).value, key, val, eq);
    } else {
      PlaceThenGet(t, key, val, eq);
    }
  }

  /** dict_rem removes exactly the entry dict_get finds and hands back its
      value; a key dict_get does not find leaves the table unchanged. */
  lemma RemAgreesWithGet<T>(t: Table<T>, key: T, eq: (T, T) -> bool)
    requires Wf(t) && Rem(t, key, eq).Ends?
    ensures Get(t, key, eq) == Ends(Rem(t, key, eq).value.removed)
  {
  }

  /** Without a shrink, a removal turns the found entry into a tombstone: the
      key stays in its slot, the valid count and `len` each drop by one. */
  lemma RemLeavesTombstone<T>(t: Table<T>, key: T, eq: (T, T) -> bool)
    requires Wf(t) && Rem(t, key, eq).Ends? && Rem(t, key, eq).value.removed.Some?
    requires !(t.cap >= 2 * MIN_CAP && t.len - 1 < t.cap / 4)
    ensures var t' := Rem(t, key, eq).value.t;
      && t'.len == t.len - 1 && t'.cap == t.cap
      && ValidCount(t'.entries) == ValidCount(t.entries) - 1
      && forall j | 0 <= j < t.cap :: t'.entries[j].Slot? == t.entries[j].Slot?
           && (t.entries[j].Slot? ==> t'.entries[j].key == t.entries[j].key && t'.entries[j].val == t.entries[j].val)
  {
    ModSmall(0, t.cap);
    var p := ProbeGet(t.entries, key, 0, 0, eq);
    ModSmall(p.k, t.cap);
    VCUpdate(t.entries, p.k, t.entries[p.k].(valid := false));
  }

  /** The re-insertion in dict_resize keeps the old `len` and adds one for every
      entry it places, so a table holding at least one entry comes out of a
      resize with `len` strictly larger than its number of valid entries. */
  lemma {:induction false} ResizeOverCounts<T>(t: Table<T>, cap: int, eq: (T, T) -> bool)
    requires Inv(t) && cap >= 1 && ValidCount(t.entries) >= 1
    ensures Resize(t, cap, eq).Ends?
    ensures Resize(t, cap, eq).value.len > ValidCount(Resize(t, cap, eq).value.entries)
  {
  }

  /** dict_for_each hands every valid entry to the visitor. */
  lemma {:induction false} VisitsComplete<T>(s: seq<Entry<T>>, i: nat)
    requires i < |s| && IsValid(s[i])
    ensures (s[i].key, s[i].val) in Visits(s)
    decreases |s|
  {
    var n := |s| - 1;
    if i < n {
      assert s[..n][i] == s[i];
      VisitsComplete(s[..n], i);
    }
  }

  /** dict_for_each hands the visitor nothing but valid entries. */
  lemma {:induction false} VisitsSound<T>(s: seq<Entry<T>>, p: (T, T))
    requires p in Visits(s)
    ensures exists i | 0 <= i < |s| :: IsValid(s[i]) && p == (s[i].key, s[i].val)
    decreases |s|
  {
    var n := |s| - 1;
    if p in Visits(s[..n]) {
      VisitsSound(s[..n], p);
      var i :| 0 <= i < n && IsValid(s[..n][i]) && p == (s[..n][i].key, s[..n][i].val);
      assert s[..n][i] == s[i];
    } else {
      assert IsValid(s[n]) && p == (s[n].key, s[n].val);
    }
  }

  /** dict_rem reads the value through the entry pointer after it may have
      shrunk the table, i.e. from the array that dict_resize just freed. This
      predicate says when that happens; `Rem` reads the value first. */
  predicate RemReadsFreedEntry<T>(t: Table<T>, key: T, eq: (T, T) -> bool)
    requires Wf(t)
  {
    match ProbeGet(t.entries, key, ObjHash(key) % t.cap, 0, eq)
    case Hit(_) => t.cap >= 2 * MIN_CAP && t.len - 1 < t.cap / 4
    case _ => false
  }

  /** Removing the only key of a table of capacity 16 shrinks it, so the C code
      reads the removed value from freed memory; `Rem` returns it intact. */
  lemma RemUseAfterFree()
    ensures var t := Table(1, 16, Unuseds<int>(16)[0 := Slot(1, 10, true)]);
            var eq := (a: int, b: int) => a == b;
            Inv(t) && RemReadsFreedEntry(t, 1, eq)
            && Rem(t, 1, eq).Ends? && Rem(t, 1, eq).value.removed == Some(10)
  {
    var t := Table(1, 16, Unuseds<int>(16)[0 := Slot(1, 10, true)]);
    var eq := (a: int, b: int) => a == b;
    ModSmall(0, 16);
    assert Slot_(t.entries, 0, 0) == Slot(1, 10, true);
    assert ProbeGet(t.entries, 1, 0, 0, eq) == Hit(0);
    EmptyCount<int>(16);
    VCUpdate(Unuseds<int>(16), 0, Slot(1, 10, true));
  }

  // ---------------------------------------------------------------------
  // Tables dict_new can reach
  // ---------------------------------------------------------------------

  /** What the `len` over-count of dict_resize guarantees: the capacity is a
      multiple of 4 no smaller than MIN_CAP, and once the table has grown,
      `len` exceeds the number of valid entries by at least `3*cap/8`. */
  predicate OverCounted<T>(t: Table<T>)
  {
    && t.cap >= MIN_CAP && t.cap % 4 == 0
    && (t.cap == MIN_CAP || 8 * (t.len - ValidCount(t.entries)) >= 3 * t.cap)
  }

  /** dict_ins keeps the over-count: a placement raises `len` and the valid
      count alike, and a growth from `cap` starts the new table at the old
      `len`, at least `3*cap/4`. */
  lemma {:induction false} InsOverCounted<T>(t: Table<T>, key: T, val: T, eq: (T, T) -> bool)
    requires Inv(t) && OverCounted(t)
    ensures OverCounted(Ins(t, key, val, eq).value.t)
    decreases ValidCount(t.entries), 2, 0
  {
    if t.len >= (t.cap * 3) / 4 {
      ResizeOverCounted(t, t.cap * 2, eq);
    }
  }

  lemma {:induction false} ResizeOverCounted<T>(t: Table<T>, cap: int, eq: (T, T) -> bool)
    requires Inv(t) && OverCounted(t) && cap == 2 * t.cap && t.len >= (t.cap * 3) / 4
    ensures OverCounted(Resize(t, cap, eq).value)
    decreases ValidCount(t.entries), 1, 0
  {
    EmptyCount<T>(cap);
    GrowthGap(t.cap, t.len);
    var nt: Table<T> := Empty(t.len, cap);
    assert OverCounted(nt) && Inv(nt);
    assert t.entries[..0] == [];
    ResizeLoopOverCounted(t.entries, 0, nt, eq);
  }

  /** Doubling a capacity that is a multiple of 4 at `len >= 3*cap/4`
      leaves `len` at least `3/8` of the new capacity. */
  lemma GrowthGap(c: int, len: int)
    requires c >= MIN_CAP && c % 4 == 0 && len >= (c * 3) / 4
    ensures 8 * len >= 3 * (2 * c) && (2 * c) % 4 == 0
  {
    var m := c / 4;
    assert c == 4 * m;
    assert (c * 3) / 4 == 3 * m;
  }

  lemma {:induction false} ResizeLoopOverCounted<T>(prev: seq<Entry<T>>, i: nat, nt: Table<T>, eq: (T, T) -> bool)
    requires i <= |prev| && Inv(nt) && ValidCount(nt.entries) <= ValidCount(prev[..i]) && OverCounted(nt)
    ensures OverCounted(ResizeLoop(prev, i, nt, eq).value)
    decreases ValidCount(prev), 0, |prev| - i
  {
    if i < |prev| {
      VCSnoc(prev, i);
      VCPrefix(prev, i + 1);
      if IsValid(prev[i]) {
        InsOverCounted(nt, prev[i].key, prev[i].val, eq);
        var o := Ins(nt, prev[i].key, prev[i].val, eq).value;
        ResizeLoopOverCounted(prev, i + 1, o.t, eq);
      } else {
        ResizeLoopOverCounted(prev, i + 1, nt, eq);
      }
    }
  }

  /** Under the over-count the shrink of dict_rem never fires: the entry it
      finds is valid, so `len - 1` is still at least `3*cap/8`. So dict_rem
      never reads the freed entry, and the table it leaves is over-counted
      too. */
  lemma {:induction false} RemOverCounted<T>(t: Table<T>, key: T, eq: (T, T) -> bool)
    requires Inv(t) && OverCounted(t)
    ensures !RemReadsFreedEntry(t, key, eq)
    ensures OverCounted(Rem(t, key, eq).value.t)
  {
    ModSmall(0, t.cap);
    ProbeGetEnds(t, key, eq);
    match ProbeGet(t.entries, key, 0, 0, eq)
    case Stop(_) =>
    case Hit(k) =>
      ModSmall(k, t.cap);
      VCUpdate(t.entries, k, Unused);
      VCUpdate(t.entries, k, t.entries[k].(valid := false));
      RemHit(t, key, eq, k);
  }

  /** A call of dict_ins or dict_rem. */
  datatype Op<T> = InsOp(key: T, val: T) | RemOp(key: T)

  /** The table one call leaves. */
  function Step<T>(t: Table<T>, op: Op<T>, eq: (T, T) -> bool): (r: Table<T>)
    requires Inv(t)
    ensures Inv(r)
  {
    match op
    case InsOp(k, v) => Ins(t, k, v, eq).value.t
    case RemOp(k) => Rem(t, k, eq).value.t
  }

  /** The table left by a sequence of calls, each on the table the previous
      one left. */
  function Apply<T>(t: Table<T>, ops: seq<Op<T>>, eq: (T, T) -> bool): (r: Table<T>)
    requires Inv(t)
    ensures Inv(r)
    decreases |ops|
  {
    if ops == [] then t else Apply(Step(t, ops[0], eq), ops[1..], eq)
  }

  /** Each call keeps the over-count. */
  lemma StepOverCounted<T>(t: Table<T>, op: Op<T>, eq: (T, T) -> bool)
    requires Inv(t) && OverCounted(t)
    ensures OverCounted(Step(t, op, eq))
  {
    match op
    case InsOp(k, v) => InsOverCounted(t, k, v, eq);
    case RemOp(k) => RemOverCounted(t, k, eq);
  }

  /** Every table dict_new and any sequence of dict_ins and dict_rem can
      build is over-counted, so in none of them does dict_rem shrink the
      table: the read of the freed entry is latent. */
  lemma {:induction false} NeverShrinks<T>(t: Table<T>, ops: seq<Op<T>>, key: T, eq: (T, T) -> bool)
    requires Inv(t) && OverCounted(t)
    ensures OverCounted(Apply(t, ops, eq))
    ensures !RemReadsFreedEntry(Apply(t, ops, eq), key, eq)
    decreases |ops|
  {
    if ops == [] {
      RemOverCounted(t, key, eq);
    } else {
      StepOverCounted(t, ops[0], eq);
      NeverShrinks(Step(t, ops[0], eq), ops[1..], key, eq);
    }
  }

  /** From dict_new, no sequence of dict_ins and dict_rem reaches the read of
      a freed entry. */
  lemma NewNeverShrinks<T>(ops: seq<Op<T>>, key: T, eq: (T, T) -> bool)
    ensures !RemReadsFreedEntry(Apply(New(), ops, eq), key, eq)
  {
    NeverShrinks(New(), ops, key, eq);
  }

  // ---------------------------------------------------------------------
  // The dictionary object, updated in place
  // ---------------------------------------------------------------------

  /** `dict_t` (src/dict.c): `len`, `cap` and the heap array of entries. */
  class Dictionary<T> {
    var len: int
    var cap: int
    var entries: array<Entry<T>>
    /** The key comparison, `obj_equals` in the interpreter. */
    const eq: (T, T) -> bool

    ghost function Abs(): Table<T>
      reads this, entries
    {
      Table(len, cap, entries[..])
    }

    ghost predicate Valid()
      reads this, entries
    {
      entries.Length == cap && Inv(Abs())
    }

    /** dict_new (src/dict.c:7-14). */
    constructor (eq: (T, T) -> bool)
      ensures Valid() && Abs() == New() && this.eq == eq
    {
      len := 0;
      cap := MIN_CAP;
      entries := new Entry<T>[MIN_CAP](_ => Unused);
      this.eq := eq;
      new;
      assert entries[..] == Unuseds(MIN_CAP);
      EmptyCount<T>(MIN_CAP);
    }

    /** dict_ins (src/dict.c:39-61). */
    method Insert(key: T, val: T) returns (previous: Option<T>)
      requires Valid()
      modifies this, entries
      ensures Valid() && (entries == old(entries) || fresh(entries))
      ensures Ins(old(Abs()), key, val, eq) == Ends(InsOut(Abs(), previous))
      ensures previous.Some? && old(len) < (old(cap) * 3) / 4 ==>
        len == old(len) && Get(old(Abs()), key, eq) == Ends(previous)
      ensures previous.Some? ==> Get(Abs(), key, eq) == Ends(Some(val))
      decreases ValidCount(entries[..]), 2
    {
      ghost var t := Abs();
      VCLastUnused(t.entries);
      if len >= (cap * 3) / 4 {
        Rehash(cap * 2);
      } else {
        ThreeQuarters(cap);
      }
      previous := Store(key, val);
      if previous.Some? {
        InsHit(t, key, val, eq);
      }
    }

    /** The probe-and-store part of dict_ins (src/dict.c:46-60). */
    method Store(key: T, val: T) returns (previous: Option<T>)
      requires Valid() && ValidCount(entries[..]) < cap - 1
      modifies this, entries
      ensures Valid() && entries == old(entries)
      ensures Place(old(Abs()), key, val, eq) == Ends(InsOut(Abs(), previous))
    {
      ghost var s := entries[..];
      ghost var t := Abs();
      var idx := ObjHash(key) % cap;
      ModSmall(0, cap);
      ProbeInsEnds(Abs(), key, eq);
      ghost var k := 0;
      while entries[idx].Slot? && entries[idx].valid
        invariant 0 <= k < cap && idx == k && entries[..] == s && |s| == cap
        invariant entries == old(entries) && len == t.len && cap == t.cap
        invariant ProbeIns(s, key, 0, k, eq) == ProbeIns(s, key, 0, 0, eq)
        decreases cap - k
      {
        ModSmall(k, cap);
        assert Slot_(s, 0, k) == s[k];
        if eq(entries[idx].key, key) {
          previous := Some(entries[idx].val);
          entries[idx] := entries[idx].(val := val);
          assert Place(t, key, val, eq) == Ends(InsOut(Abs(), previous));
          return;
        }
        if k + 1 < cap {
          ModSmall(k + 1, cap);
        }
        idx := (idx + 1) % cap;
        k := k + 1;
      }
      ModSmall(k, cap);
      assert Slot_(s, 0, k) == s[k];
      assert ProbeIns(s, key, 0, k, eq) == Stop(k);
      assert ProbeIns(t.entries, key, ObjHash(key) % t.cap, 0, eq) == Stop(k);
      entries[idx] := Slot(key, val, true);
      len := len + 1;
      previous := None;
      assert entries[..] == s[k := Slot(key, val, true)];
      assert Abs() == Table(t.len + 1, t.cap, s[k := Slot(key, val, true)]);
      assert Place(t, key, val, eq) == Ends(InsOut(Abs(), previous));
    }

    /** dict_resize (src/dict.c:22-37). */
    method Rehash(newCap: int)
      requires Valid() && newCap >= 1
      modifies this
      ensures Valid() && fresh(entries)
      ensures Resize(old(Abs()), newCap, eq) == Ends(Abs())
      decreases ValidCount(entries[..]), 1
    {
      var prev := entries;
      ghost var p := prev[..];
      ghost var t := Abs();
      entries := new Entry<T>[newCap](_ => Unused);
      cap := newCap;
      assert entries[..] == Unuseds(newCap);
      EmptyCount<T>(newCap);
      var i := 0;
      while i < prev.Length
        invariant 0 <= i <= prev.Length && prev[..] == p
        invariant Valid() && fresh(entries)
        invariant ValidCount(entries[..]) <= ValidCount(p[..i])
        invariant ResizeLoop(p, i, Abs(), eq) == ResizeLoop(p, 0, Empty(t.len, newCap), eq)
        decreases prev.Length - i
      {
        VCSnoc(p, i);
        VCPrefix(p, i + 1);
        if prev[i].Slot? && prev[i].valid {
          var _ := Insert(prev[i].key, prev[i].val);
        }
        i := i + 1;
      }
      assert p[..i] == p;
    }

    /** dict_get_internal (src/dict.c:63-77): the index of the entry found, or -1. */
    method FindEntry(key: T) returns (i: int)
      requires Valid()
      ensures var r := ProbeGet(entries[..], key, ObjHash(key) % cap, 0, eq);
        (r.Hit? ==> i == r.k % cap) && (!r.Hit? ==> i == -1)
    {
      ghost var s := entries[..];
      var idx := ObjHash(key) % cap;
      ModSmall(0, cap);
      ProbeGetEnds(Abs(), key, eq);
      ghost var k := 0;
      while entries[idx].Slot?
        invariant 0 <= k < cap && idx == k && |s| == cap
        invariant ProbeGet(s, key, 0, k, eq) == ProbeGet(s, key, 0, 0, eq)
        decreases cap - k
      {
        ModSmall(k, cap);
        assert Slot_(s, 0, k) == s[k];
        if entries[idx].valid && eq(entries[idx].key, key) {
          return idx;
        }
        if k + 1 < cap {
          ModSmall(k + 1, cap);
        }
        idx := (idx + 1) % cap;
        k := k + 1;
      }
      ModSmall(k, cap);
      assert Slot_(s, 0, k) == s[k];
      return -1;
    }

    /** dict_get (src/dict.c:80-84). */
    method Lookup(key: T) returns (r: Option<T>)
      requires Valid()
      ensures Get(Abs(), key, eq) == Ends(r)
    {
      var i := FindEntry(key);
      ModSmall(0, cap);
      if i < 0 {
        return None;
      }
      ModSmall(i, cap);
      return Some(entries[i].val);
    }

    /** dict_rem (src/dict.c:86-99), with the removed value read before the
        table may shrink. */
    method Remove(key: T) returns (removed: Option<T>)
      requires Valid()
      modifies this, entries
      ensures Valid()
      ensures Rem(old(Abs()), key, eq) == Ends(RemOut(Abs(), removed))
    {
      ghost var t := Abs();
      var i := FindEntry(key);
      ModSmall(0, cap);
      ghost var p := ProbeGet(t.entries, key, 0, 0, eq);
      if i < 0 {
        assert !p.Hit?;
        ProbeGetEnds(t, key, eq);
        return None;
      }
      assert p.Hit?;
      ModSmall(p.k, cap);
      assert i == p.k;
      removed := Some(entries[i].val);
      TombstoneKeepsInv(t, i);
      ghost var t1 := Table(t.len - 1, t.cap, t.entries[i := t.entries[i].(valid := false)]);
      RemHit(t, key, eq, i);
      entries[i] := entries[i].(valid := false);
      len := len - 1;
      assert Abs() == t1;
      if cap >= 2 * MIN_CAP && len < cap / 4 {
        Rehash(cap / 2);
      }
    }

    /** dict_len (src/dict.c:101-104). */
    function Length(): (n: int)
      reads this
      ensures n == len
    {
      len
    }

    /** dict_for_each (src/dict.c:106-115): the pairs handed to the visitor. */
    method ForEach() returns (visited: seq<(T, T)>)
      requires Valid()
      ensures visited == Visits(entries[..])
    {
      visited := [];
      var i := 0;
      while i < cap
        invariant 0 <= i <= cap
        invariant visited == Visits(entries[..i])
      {
        assert entries[..i + 1][..i] == entries[..i];
        if entries[i].Slot? && entries[i].valid {
          visited := visited + [(entries[i].key, entries[i].val)];
        }
        i := i + 1;
      }
      assert entries[..i] == entries[..];
    }
  }
}
