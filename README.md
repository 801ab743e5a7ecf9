# tlisp in Dafny

tlisp is a small Lisp interpreter written in C. This project models its
core and proves properties of the model:

* **The evaluator.** This covers `eval`, `tlisp_apply` and the callees they
  reach: native functions, lambdas, macros, struct definitions and struct
  instances. It also covers the special forms and the list, arithmetic,
  comparison and logical builtins (src/builtins.c).
  - It is a functional interpreter over one object store, `seq<Obj>`,
    indexed by `Ptr`. It carries a chain of scopes, innermost first.
  - Every evaluation step takes one unit of fuel.
  - A `proc_fatal` exit is `Err(Fatal(message))`, with the message the C
    code prints. Undefined behaviour of the C code (a NULL or dangling
    dereference, a signed overflow, a read of the wrong union member, a
    message formatted from bytes nobody wrote) is `Err(Undefined)`.
* **The scope tables of src/env.c.** These use djb2 hashing, open
  addressing and linear probing. They are modelled as a functional
  `Symtab` and as the class `Env.Scope` over an array.
* **The object arena of src/process.c and the collector of src/gc.c.**
  These are the class `Process.Process` and the module `Gc`. The module
  covers marking with the alternating epoch, and conditional compaction
  that keeps the survivors in order.
* **The object utilities of src/core.c.** These cover tag names,
  `obj_equals`, rendering into a bounded buffer, the line-info list and
  the expression array.
* **The reader of src/read.c.**
* **The dictionary of src/dict.c, the vector of src/vector.c, the field
  lookup of src/struct.c and list_len / list_get of src/list.c.**

Each imperative C file becomes a class or a method with loops. It is
proved against a functional specification, and the properties the C code
promises are lemmas about that specification. Each pure part becomes
functions and lemmas.

Modules:

| module | file | models |
|---|---|---|
| `Base` | base.dfy | results, C `int` range, small arithmetic facts |
| `Core` | core.dfy | objects, `tag_str`, `obj_equals`, line info, the source expression array |
| `Env` | env.dfy | `str_hash`, scope tables, scope chains |
| `Dict` | dict.dfy | the open-addressing dictionary |
| `Vector` | vector.dfy | the growable vector |
| `Structs` | structs.dfy | struct field lookup and `struct_setq` |
| `Lists` | lists.dfy | list walks, `list_len`, `list_get` |
| `Render` | render.dfy | `obj_nstr` and its helpers |
| `Reader` | reader.dfy | the reader |
| `Gc` | gc.dfy | marking, survivors, collection |
| `Process` | process.dfy | the arena, the file table, the collector as methods |
| `Builtins` | eval.dfy | the evaluator and its builtins |
| `EvalFacts`, `FormFacts`, `ValueForms`, `ListForms` | eval_facts.dfy, eval_forms.dfy, value_forms.dfy, list_forms.dfy | properties of `eval`, the special forms and the builtins |
| `ListSpec`, `ListBuild`, `ListFilter`, `ListFold`, `ListWalk`, `ListQuote` | list_spec.dfy, list_build.dfy, list_filter.dfy, list_fold.dfy, list_walk.dfy, list_quote.dfy | `list`, `map`, `filter`, `reduce` and backquote over whole lists |

## Model

| member | source | states |
|---|---|---|
| Core.TagStr | src/core.c:8-23 | tag_str has no name exactly for STRUCTDEF and STRUCT, where the switch falls off its end; every other tag has a name of at least three characters |
| Core.ObjEquals | src/core.c:44-67 | obj_equals is defined exactly when both operands are live objects that are not two STRUCTDEFs or two STRUCTs; objects of different tags are never equal |
| Core.ObjEqualsIdentity | src/core.c:49-66 | two distinct BOOL, CONS, DICT, VEC, LAMBDA, MACRO or NIL objects are never equal: these tags compare by identity |
| Core.ObjEqualsByValue | src/core.c:49-58 | NUMs are equal exactly when their numbers are, STRINGs and SYMBOLs exactly when their texts are |
| Core.ObjEqualsEquivalence | src/core.c:44-67 | where defined, obj_equals is reflexive, symmetric and transitive |
| Core.FindEntry | src/core.c:261-273 | find_entry yields nothing exactly when no entry is for the object, and otherwise the first (most recent) entry for it |
| Core.FindAfterAdd | src/core.c:249-273 | after line_info_add, find_entry returns the new entry for its object and what it returned before for every other object |
| Core.LineInfo.constructor | src/core.c:243-247 | line_info_init: the text, and no entries |
| Core.LineInfo.Add | src/core.c:249-259 | line_info_add prepends exactly one entry and keeps the text |
| Core.LineInfo.Find | src/core.c:261-273 | the walk from the head returns the entry FindEntry specifies |
| Core.Source.constructor | src/core.c:309-315 | source_init: no expressions and the initial capacity, with an empty line-info list |
| Core.Source.AddExpr | src/core.c:317-327 | source_add_expr appends the expression and a line-info entry for it. It doubles the capacity exactly when the array is full and otherwise keeps the array |
| Core.AddExprOverflowsOnGrowth | src/core.c:320-323 | every growth of the expression array writes past its end: the reallocation is `2 * cap` bytes, which holds fewer than `cap` pointers |
| Dict.New | src/dict.c:7-14 | dict_new: `len` 0, `cap` 8, all entries unused, and the table invariant holds |
| Dict.ProbeIns | src/dict.c:48-55 | the insertion probe stops at a valid equal key (Hit) or at the first non-valid slot (Stop), and every slot it passes is valid with a different key |
| Dict.ProbeGet | src/dict.c:66-76 | the lookup probe passes tombstones; it stops at a valid equal key or at an unused slot, and every slot it passes is written and not a valid equal key |
| Dict.Place | src/dict.c:46-60 | dict_ins after its growth check: `len` grows by one exactly when no old value is returned, it is unchanged otherwise, and the invariant is kept |
| Dict.Ins | src/dict.c:39-61 | dict_ins returns under the invariant and keeps it; the valid count grows by at most one, `len` by at least as much, and a NULL return means `len` grew |
| Dict.Resize | src/dict.c:22-37 | dict_resize returns under the invariant and keeps it; it keeps the old `len` and adds one per entry placed, so `len` is at least the old `len` plus the valid count |
| Dict.Get | src/dict.c:80-84 | dict_get returns under the invariant |
| Dict.Rem | src/dict.c:86-99 | dict_rem of a missing key changes nothing; the invariant is kept |
| Dict.Visits | src/dict.c:106-115 | dict_for_each hands over exactly as many pairs as there are valid entries |
| Dict.PlaceThenGet | src/dict.c:46-84 | after the probe-and-place part of dict_ins, dict_get of the key finds the new value |
| Dict.PlaceHit | src/dict.c:48-53 | hitting an equal key overwrites only that entry's value and returns the old one, which dict_get found before; `len` and `cap` are unchanged and dict_get now finds the new value |
| Dict.InsHit | src/dict.c:39-61 | dict_ins of a key already present returns the value dict_get found (in the grown table when a growth came first), keeps `len` when there was no growth, and dict_get then finds the new value |
| Dict.GetAfterIns | src/dict.c:39-84 | dict_ins followed by dict_get of the same key yields the value just stored, whether the key was new, was replaced, or a growth came first |
| Dict.RemAgreesWithGet | src/dict.c:86-99 | dict_rem removes and returns exactly what dict_get finds; a key dict_get does not find is not removed |
| Dict.RemLeavesTombstone | src/dict.c:92-94 | without a shrink, dict_rem clears only the valid flag of the found entry: keys and values stay in place, and `len` and the valid count each drop by one |
| Dict.ResizeOverCounts | src/dict.c:22-37 | a resize of a non-empty table leaves `len` strictly larger than the number of valid entries |
| Dict.VisitsComplete | src/dict.c:106-115 | dict_for_each hands every valid entry to the visitor |
| Dict.VisitsSound | src/dict.c:106-115 | dict_for_each hands the visitor only valid entries |
| Dict.RemHit | src/dict.c:86-99 | once the lookup finds the key at slot i, dict_rem tombstones that slot, returns its value and shrinks to half when `cap >= 16` and `len < cap/4` |
| Dict.PlaceKeepsInv | src/dict.c:54-60 | filling the slot where the insertion probe stopped keeps the table invariant |
| Dict.TombstoneKeepsInv | src/dict.c:92-94 | clearing the valid flag of an entry and decrementing `len` keeps the invariant |
| Dict.ProbeInsEnds | src/dict.c:48-55 | under the invariant the insertion probe ends |
| Dict.ProbeGetEnds | src/dict.c:66-76 | under the invariant the lookup probe ends |
| Dict.RemUseAfterFree | src/dict.c:95-98 | on a table with its only key in 16 slots and `len` 1, dict_rem finds the key and shrinks the table, so the C code would read the value from a freed entry; the model returns the value. Such a table is not reachable from dict_new (Dict.NewNeverShrinks) |
| Dict.InsOverCounted | src/dict.c:39-61 | dict_ins keeps the table over-counted: the capacity stays a multiple of 4 no smaller than 8, and once it has grown `len` exceeds the valid entries by at least `3*cap/8` |
| Dict.ResizeOverCounted | src/dict.c:22-37 | the growth dict_ins makes (to twice the capacity, at `len >= 3*cap/4`) leaves an over-counted table, because dict_resize keeps the old `len` |
| Dict.ResizeLoopOverCounted | src/dict.c:28-33 | the re-insertion loop of dict_resize keeps the over-count |
| Dict.RemOverCounted | src/dict.c:86-99 | on an over-counted table the shrink of dict_rem never fires, so dict_rem never reads a freed entry, and the table it leaves is over-counted |
| Dict.Step | src/dict.c:39-99 | one call of dict_ins or dict_rem keeps the table invariant |
| Dict.Apply | src/dict.c:39-99 | any sequence of dict_ins and dict_rem calls keeps the table invariant |
| Dict.StepOverCounted | src/dict.c:39-99 | one call of dict_ins or dict_rem keeps the over-count |
| Dict.NeverShrinks | src/dict.c:95-98 | from an over-counted table, no sequence of dict_ins and dict_rem reaches a dict_rem that shrinks the table and reads the freed entry |
| Dict.NewNeverShrinks | src/dict.c:7-14 | from dict_new, no sequence of dict_ins and dict_rem calls reaches the read of a freed entry in dict_rem |
| Dict.Dictionary.constructor | src/dict.c:7-14 | dict_new: the table New specifies |
| Dict.Dictionary.Insert | src/dict.c:39-61 | dict_ins: the new table and the return value are what Ins specifies; an old value means `len` is kept (without growth) and is what dict_get found, and dict_get then finds the new value |
| Dict.Dictionary.Store | src/dict.c:46-60 | the probe-and-store part of dict_ins, in place: the table and return value Place specifies |
| Dict.Dictionary.Rehash | src/dict.c:22-37 | dict_resize into a fresh array: the table Resize specifies |
| Dict.Dictionary.FindEntry | src/dict.c:63-77 | dict_get_internal: the slot of the probe's hit, or -1 |
| Dict.Dictionary.Lookup | src/dict.c:80-84 | dict_get: the value Get specifies, without changing the table |
| Dict.Dictionary.Remove | src/dict.c:86-99 | dict_rem: the table and removed value Rem specifies |
| Dict.Dictionary.Length | src/dict.c:101-104 | dict_len is the `len` field |
| Dict.Dictionary.ForEach | src/dict.c:106-115 | dict_for_each: the pairs Visits specifies, in slot order |
| Env.CharCode | src/env.c:13 | a character enters the hash as a signed C `char`, a value in [-128, 128) |
| Env.Hash | src/env.c:8-17 | str_hash is below 2^64 |
| Env.HashSteps | src/env.c:8-17 | djb2: the hash of the empty string is 5381, and each further character `c` takes `h` to `(h * 33 + c) mod 2^64` |
| Env.StrHash | src/env.c:11-16 | the loop of str_hash computes Hash |
| Env.Init | src/env.c:36-42 | env_init: `len` 0, `cap` 16, every slot empty, no binding, and the table invariant holds |
| Env.ProbeFrom | src/env.c:53-59 | the probe stops at the symbol (Hit) or at an empty slot (Stop); every slot it passes holds another symbol; Exhausted when every slot does, where the C loop never ends |
| Env.Place | src/env.c:53-62 | env_add after its growth check: "Duplicate symbol definition" exactly when the probe run meets the symbol; otherwise one more bound slot and `len` one larger; it ends whenever some slot is empty |
| Env.Add | src/env.c:44-63 | env_add ends under the invariant and keeps it; a success adds exactly one bound slot and at least one to `len` |
| Env.Grow | src/env.c:19-34 | env_grow at least doubles `cap`, keeps the number of bindings, and leaves `len` at least the old `len` plus the bindings re-added (it is not reset) |
| Env.GrowLoop | src/env.c:28-32 | the re-adding loop of env_grow places every old binding and counts each one in `len` |
| Env.FindIn | src/env.c:70-77 | the lookup in one scope ends under the invariant; it yields NULL exactly when the probe stops at an empty slot, and any object it yields is bound to the symbol in some slot |
| Env.Find | src/env.c:65-81 | env_find ends on a chain of tables that keep the invariant, and any object it yields is bound to the symbol in some scope |
| Env.FindBang | src/env.c:83-91 | env_find_bang succeeds exactly when env_find yields a non-NULL object, returns that object, and otherwise fails with `ERROR: Undefined symbol '<sym>'.` followed by a newline, the message it writes before `exit(1)` |
| Env.Update | src/builtins.c:457-461 | env_update keeps the number of scopes and the table invariant |
| Env.AddThenFind | src/env.c:44-81 | without growth, env_add is "Duplicate symbol definition" exactly when the probe run from `hash % cap` meets the symbol; otherwise it binds the first empty slot of the run, `len` grows by one, and env_find in that scope returns the object |
| Env.AddToInit | src/env.c:36-63 | env_add on a table env_init just made never grows it and never meets a duplicate: it stores the pair, and env_find then yields the object |
| Env.FindShadows | src/env.c:65-81 | inner scopes shadow outer ones: a lookup in `inner + outer` consults `outer` only when `inner` yields NULL |
| Env.UpdateThenFind | src/builtins.c:457-461 | env_update reports no binding exactly when env_find yields NULL; after an update env_find yields the new object |
| Env.UpdateEnds | src/builtins.c:457-461 | under the table invariant, env_update returns |
| Env.UpdateHit | src/builtins.c:457-461 | when the innermost scope binds the symbol, env_update replaces the binding there and env_find then yields the new object |
| Env.UpdateMiss | src/env.c:65-81 | when the innermost scope does not bind the symbol, env_find and env_update both go on to the outer scopes, and that scope stays as it was |
| Env.FindHead | src/env.c:70-80 | a scope that binds the symbol decides the lookup of any chain it heads |
| Env.BindingsComplete | src/gc.c:109 | the objects env_for_each hands over include every object bound in any scope |
| Env.ExhaustedIsFull | src/env.c:53-59 | a probe run that never ends has seen a table in which every slot is bound |
| Env.GrowthMissesBinding | src/env.c:46-52 | after twelve definitions of symbols other than "k" in a fresh scope, a thirteenth of "k" (hash 177680) grows the table but places the binding from the old start slot 0; the lookup starts at slot 16, finds it empty and returns NULL |
| Env.AddAll | src/env.c:44-63 | env_add of each pair in turn keeps the table well formed |
| Env.SymHash | src/env.c:8-17 | the djb2 hash of each of the one-character symbols from `\` to `g` is its number 1 to 12 modulo both 16 and 32 |
| Env.OccFilled | src/env.c:44-63 | a table holding those symbols in slots 1 to `n` has as many bindings in each prefix as slots 1 to `n` it covers |
| Env.AddFilled | src/env.c:44-63 | below the growth threshold, env_add of the `n`th symbol binds slot `n` and raises `len` by one |
| Env.PlaceFilled | src/env.c:53-62 | the probe of env_add from slot `n` stops at once at the empty slot `n` and binds it there |
| Env.AddAllFilled | src/env.c:44-63 | the twelve definitions from a fresh scope leave slots 1 to 12 bound and `len` at 12 |
| Env.GrowFilled | src/env.c:19-34 | env_grow of that scope puts each binding in the slot of the same number of a 32-slot table and leaves `len` at 24 |
| Env.TwelveFromInit | src/env.c:36-63 | env_init followed by the twelve definitions leaves slots 1 to 12 of 16 bound, `len` at 12, before whatever definitions follow |
| Env.GrowTwelve | src/env.c:19-34 | env_grow of that scope yields 32 slots with slots 1 to 12 bound and `len` 24 |
| Env.AddRehashed | src/env.c:44-63 | env_add as evidently intended, with the start slot taken after growth: it ends under the invariant |
| Env.PlaceThenFind | src/env.c:53-81 | placing a pair from `hash % cap` in a table under the invariant makes env_find in that scope return its object |
| Env.RehashedThenFind | src/env.c:44-81 | with the start slot taken after growth, env_find returns the object just added, whether or not the table grew |
| Env.NextSlot | src/env.c:58 | the probe step `idx = (idx + 1) % cap` moves from slot `start + k` to `start + k + 1`, modulo `cap` |
| Env.Scope.constructor | src/env.c:36-42 | env_init: the table Init specifies |
| Env.Scope.Bind | src/env.c:44-63 | env_add in place: on success the table Add specifies; false exactly where env_add exits with "Duplicate symbol definition" |
| Env.Scope.Store | src/env.c:53-62 | the probe-and-store part of env_add in the same array: the table Place specifies, or Duplicate |
| Env.Scope.Enlarge | src/env.c:19-34 | env_grow into a fresh array of twice the size: the table Grow specifies, or Duplicate |
| Env.Scope.Regrow | src/env.c:28-32 | one turn of the loop of env_grow: the state GrowLoop reaches after slot `i` |
| Env.Scope.FindHere | src/env.c:70-77 | the lookup in one scope's array: what FindIn specifies |
| Env.FindInChain | src/env.c:65-81 | env_find across the `outer` links: what Find specifies for the chain of the scopes' tables |
| Gc.Marked | src/gc.c:91-98 | the objects carrying the epoch's mark and those not carrying it together make up the arena |
| Gc.Mark | src/gc.c:19-56 | gc_mark only ever adds marks, counts every object it marks in `nalive`, and on success the object carries the epoch's mark; it fails only on a spine walk that never ends and, as undefined behaviour, on a pointer that is NULL or outside the arena. In C such a pointer may be a `malloc`ed object (`tlisp_nil`, the true and false singletons, NFUNCs, reader objects) that gc_mark marks and counts; the model does not capture that count or its effect on the shrink decision |
| Gc.MarkSpine | src/gc.c:46-50 | the `cdr` loop of gc_mark only adds marks and counts every object it marks in `nalive` |
| Gc.MarkCell | src/gc.c:47-49 | one pass of the loop's body marks the cell and its `car` and counts the cell, whatever its mark was |
| Gc.SpineStep | src/gc.c:46-50 | a turn of the `cdr` loop is MarkCell on a cell, then the loop from its `cdr` with the same outcome |
| Gc.MarkSpineCovers | src/gc.c:46-50 | the `cdr` loop ends only at NULL; it marks every spine cell and its `car`, and counts at least one per cell |
| Gc.CoveredCells | src/gc.c:46-50 | the spine the loop covered is a list of the arena whose cells and elements are all marked |
| Gc.MarkPairs | src/gc.c:12-17 | marking a dictionary's pairs (the dict_for_each of src/gc.c:52-54) marks every key and every value handed over and counts every object it marks |
| Gc.MarkRoots | src/gc.c:109 | marking from the bindings env_for_each hands over marks every root and counts every object it marks |
| Gc.Survivors | src/gc.c:91-98 | heap_shrink keeps as many objects as carry the epoch's mark, and each kept object carries it |
| Gc.NextEpoch | src/gc.c:115 | `ALIVE` alternates: the new epoch is 1 or 2 and differs from the old one |
| Gc.Collect | src/gc.c:104-116 | a collection that returns leaves the next epoch |
| Gc.MonotoneUnmarked | src/gc.c:24-28 | marking never adds unmarked objects |
| Gc.MonotoneMarked | src/gc.c:24-28 | marking never lowers the number of marked objects |
| Gc.MarkConsCovers | src/gc.c:44-51 | marking an unmarked cons cell marks its `car` and walks the spine from its `cdr` to NULL; that spine is a list whose cells and elements are all marked, and `nalive` grows by at least one plus its length |
| Gc.MarkDictCovers | src/gc.c:52-54 | marking an unmarked dictionary marks the key and the value of every valid entry |
| Gc.MarkSkipsMarked | src/gc.c:24-28 | an object already carrying the epoch's mark changes nothing and is not counted; any other object raises `nalive` |
| Gc.SurvivorAt | src/gc.c:91-98 | heap_shrink keeps each marked object, at the position given by the number of marked objects before it |
| Gc.SurvivorOrigin | src/gc.c:91-98 | every kept object is a marked object of the arena, at the position its rank gives |
| Gc.SurvivorsInOrder | src/gc.c:91-98 | kept objects keep their relative order |
| Gc.CollectShape | src/gc.c:104-116 | gc counts from `nalive` 0 and marks every root; when `nalive < heap_len/4` and the arena is large enough it compacts to the marked objects in order with `heap_cap = 2*nalive`, and otherwise keeps the arena and `heap_cap` |
| Gc.StaleSurvives | src/gc.c:24-25 | an object that carried the epoch's mark before the collection, set two collections earlier, survives a compaction whether or not a root reaches it |
| Gc.StaleOverflow | src/gc.c:89-98 | when more objects carry a stale mark than twice what marking counts, the compacted arena holds more objects than the new `heap_cap` |
| Gc.ClearMarks | src/gc.c:24-28 | an arena of the same objects in which none carries the epoch's mark |
| Gc.CollectCleared | src/gc.c:104-116 | gc as evidently intended, started without stale marks: a collection that returns leaves the next epoch |
| Gc.ClearedFits | src/gc.c:89-98 | without stale marks, a compaction keeps no more objects than marking counted, so they fit in the `2*nalive` slots heap_shrink allocates |
| Process.InitialCap | src/process.c:33 | the initial `heap_cap` is MIN_HEAP_SIZE divided by the object size, rounded up: the least number of objects that fill MIN_HEAP_SIZE bytes |
| Process.GrownCap | src/process.c:14-22 | the capacity new_obj leaves is either the old one or its double, and always exceeds `heap_len` |
| Process.Shifted | src/process.c:134-137 | closing entry `k` of the first `n` moves the later entries down by one and leaves the slots from `n - 1` on as they were |
| Process.CloseDropsOne | src/process.c:123-139 | a close keeps the entries before the closed one, and each later entry moves down one slot |
| Process.Process.constructor | src/process.c:29-36 | proc_init: an empty arena, `nalive` 0, `heap_cap` InitialCap, a NULL current expression, and the epoch 1 of src/gc.c:8; the file count starts at 0 here although proc_init leaves it unset (see "## Left out") |
| Process.Process.NewObj | src/process.c:9-27 | new_obj: the arena grows by exactly the new object, unmarked, at index `heap_len`; `heap_cap` doubles exactly when the arena was full, and `heap_len <= heap_cap` is kept |
| Process.Process.NewPlain | src/process.c:48-62 | the DEF_CONSTRUCTOR constructors: a new object of the given tag at index `heap_len` |
| Process.Process.NewCons | src/process.c:64-70 | proc_new_cons: a new cell whose `cdr` is NULL |
| Process.Process.NewDict | src/process.c:72-78 | proc_new_dict: a new object holding an empty dictionary |
| Process.Process.NewVec | src/process.c:80-86 | proc_new_vec: a new object holding an empty vector |
| Process.Process.Open | src/process.c:96-113 | proc_open returns NULL and changes nothing when the table is full or the file does not open; otherwise a new NUM holding the old `nfiles` as its handle, the file stored in that slot, and `nfiles` one larger |
| Process.Process.GetF | src/process.c:115-121 | proc_getf finds a file exactly for NUM handles `0 <= num < nfiles` (proc_fcheck), and it is the file in that slot |
| Process.Process.Close | src/process.c:123-139 | proc_close of an invalid handle returns 0 and changes nothing; otherwise it removes that entry, shifts the later ones down, decrements `nfiles`, and returns whether `fclose` succeeded |
| Process.Process.GcMark | src/gc.c:19-56 | gc_mark in place: the arena and `nalive` Gc.Mark specifies |
| Process.Process.MarkSpine | src/gc.c:46-50 | the `cdr` loop in place: the arena and `nalive` Gc.MarkSpine specifies |
| Process.Process.MarkCell | src/gc.c:47-49 | the loop body in place: the arena and `nalive` Gc.MarkCell specifies |
| Process.Process.MarkPairs | src/gc.c:12-17 | dict_for_each with gc_mark_dict (src/gc.c:52-54) in place: the arena and `nalive` Gc.MarkPairs specifies |
| Process.Process.HeapShrink | src/gc.c:82-102 | heap_shrink: the arena becomes the survivors in order and `heap_cap` becomes `2*nalive` |
| Process.Process.Collect | src/gc.c:104-116 | gc in place: the arena, `heap_cap`, `nalive` and epoch Gc.Collect specifies |
| Vector.ResizedCapBounds | src/vector.c:20-34 | vec_check_resize never takes `cap` below 8 and always leaves room for one more element than `len` |
| Vector.InsAtPastEndExactly | src/vector.c:50-53 | the shift loop of vec_ins_at as written writes `elems[len+1]` out of bounds exactly when the vector is one short of full before the call (vec_check_resize does not grow it then) |
| Vector.FirstMatch | src/vector.c:71-76 | the index vec_rem finds is the first element equal to the argument; there is none exactly when no element is equal |
| Vector.ShiftedIsInsert | src/vector.c:51-54 | a vector that keeps the elements before `idx`, holds the new object at `idx` and the old elements shifted up by one after it is the old one with the object inserted at `idx` |
| Vector.Vec.constructor | src/vector.c:8-13 | vec_init: no elements and `cap` 8 |
| Vector.Vec.Realloc | src/vector.c:25-31 | the `realloc` of vec_check_resize keeps the elements in a fresh array of the new capacity |
| Vector.Vec.CheckResize | src/vector.c:20-34 | vec_check_resize keeps the elements and sets `cap` to the doubled, halved or unchanged capacity ResizedCap gives |
| Vector.Vec.Insert | src/vector.c:36-41 | vec_ins appends: the elements are the old ones followed by the object |
| Vector.Vec.ShiftUp | src/vector.c:51-53 | the shift of vec_ins_at, as intended: slots `(idx, len]` take the old slots `[idx, len)` and every other slot is unchanged |
| Vector.Vec.InsertAt | src/vector.c:43-57 | vec_ins_at succeeds exactly when `0 <= idx <= len`; a failure changes nothing; a success inserts the object at `idx` with the later elements one place up |
| Vector.Vec.Get | src/vector.c:59-65 | vec_get is `elems[idx]` inside `[0, len)` and NULL outside |
| Vector.Vec.RemoveAt | src/vector.c:80-95 | vec_rem_at outside `[0, len)` returns NULL and changes nothing; inside it returns `elems[idx]`, removes it with the later elements one place down, and resizes |
| Vector.Vec.Remove | src/vector.c:67-78 | vec_rem reports a match exactly when some element is equal; it removes only the first such element and changes nothing when there is none |
| Vector.Vec.Length | src/vector.c:97-100 | vec_len is the number of elements |
| Vector.Vec.ForEach | src/vector.c:102-109 | vec_for_each visits the elements in index order |
| Vector.FirstAt | src/vector.c:71-76 | the first equal element the scan reaches is the one FirstMatch names |
| Structs.FieldIndex | src/struct.c:21-33 | the lookup finds the first position whose field name is the requested one, and finds nothing exactly when no field name matches |
| Structs.GetField | src/struct.c:21-33 | struct_get_field returns the field at the first matching name and NULL when no name matches |
| Structs.Setq | src/struct.c:35-43 | struct_setq as written reports success exactly when the lookup yields a non-NULL object, and leaves the fields as they were |
| Structs.SetField | src/struct.c:41 | the intended update fails exactly when no field has the name, and keeps the number of fields |
| Structs.SetqLosesUpdate | src/struct.c:41 | a successful struct_setq with a new object leaves fields that differ from those of the intended update |
| Structs.GetAfterSet | src/struct.c:21-43 | after the intended update the field yields the new object, and every other name yields what it did before |
| Lists.CellsFrom | src/list.c:16-21 | a walk along `cdr` visits only cons cells and starts at the head cell; it is empty exactly for NULL; its only failures are a non-cell (undefined) and a spine that never reaches NULL |
| Lists.Elements | src/list.c:16-21 | the elements are the `car`s of the cells, one per cell, in order; they exist exactly when the walk ends |
| Lists.ListLen | src/list.c:14-23 | list_len is the number of cells along `cdr` up to NULL, and fails exactly where the walk does |
| Lists.CellsPrepend | src/builtins.c:552-566 | a new cell whose `cdr` is a list heads a list of one more cell |
| Lists.CellsGrow | src/process.c:23-26 | a walk that ends is unchanged when an object is appended to the store |
| Lists.CellsRelink | src/builtins.c:580-584 | relinking the last cell of a walk to `q` makes the walk go on along `q` |
| Lists.Get | src/list.c:4-12 | list_get of NULL is NULL |
| Lists.ListGet | src/list.c:4-12 | the loop of list_get, stopping at the first cell whose arena index lies at least `idx` above the head's, computes Get |
| Lists.GetHead | src/list.c:7-11 | list_get with `idx <= 0` returns the head's `car` |
| Lists.Nth | src/list.c:4-12 | the element at position `idx` of the list, and NULL outside the list |
| Lists.GetContiguous | src/list.c:4-12 | where the cells are consecutive in the arena, list_get returns the element at position `idx` |
| Lists.GetByDistance | src/list.c:8 | on the list `(list (list 1 2) 3 4)` builds, whose cells lie at 4, 7 and 8, list_get of index 2 returns the second element 3, not the third element 4 |
| Lists.ListNth | src/list.c:4-12 | list_get counting cells, as intended, returns the element at position `idx` of any list, and NULL outside it |
| Render.CStr | src/core.c:177-188 | the C string a `%s` argument denotes: the longest prefix without NUL |
| Render.Snprintf | src/core.c:177-188 | snprintf with `%s` changes only the `maxlen` bytes at `off`, and nothing when `maxlen` is 0 |
| Render.SnprintfAt | src/core.c:177-188 | snprintf writes the first `maxlen - 1` characters of the string (up to its NUL) followed by a NUL terminator |
| Render.SnprintfFits | src/core.c:177-188 | a string shorter than `maxlen` is written whole and terminated |
| Render.SnprintfTruncates | src/core.c:177-188 | a string of at least `maxlen` characters is cut to `maxlen - 1` and terminated |
| Render.Strncpy | src/core.c:198-209 | strncpy changes only the `maxlen` bytes at `off` |
| Render.StrncpyAt | src/core.c:198-209 | strncpy writes the source up to its NUL and pads the rest of the `maxlen` bytes with NUL, leaving no terminator when the source is as long as `maxlen` |
| Render.Digits | src/core.c:181 | the decimal digits of a natural number are a non-empty string of `0`-`9` |
| Render.Decimal | src/core.c:181 | `%d` prints a non-empty string with no NUL |
| Render.Scan | src/core.c:80-82 | the scan `while (*end && REMAINING > 2)` stops at the first NUL or at the limit, and passes only non-NUL bytes |
| Render.Scalar | src/core.c:174-212 | booleans, numbers, strings, symbols, functions, lambdas, macros and nil change only the `maxlen` bytes at `off` |
| Render.Rendered | src/core.c:174-212 | obj_nstr changes only the `maxlen` bytes at `off`; it fails only on an object the C code cannot dereference |
| Render.RenderedCons | src/core.c:70-91 | cons_nstr writes nothing when `maxlen < 3`, and otherwise a `(` at `off`, then a `)` and a NUL inside the bound |
| Render.ConsLoop | src/core.c:78-87 | the element loop of cons_nstr stays between the current end and two bytes before the bound |
| Render.RenderedVec | src/core.c:150-172 | vec_nstr writes nothing when `maxlen < 3`, and otherwise `[`, then `]` and a NUL inside the bound |
| Render.VecLoop | src/core.c:160-168 | the element loop of vec_nstr stays inside its bound |
| Render.RenderedDict | src/core.c:130-148 | dict_nstr writes nothing when `maxlen < 4`, and otherwise `#(`, then `)` and a NUL inside the bound |
| Render.DictLoop | src/core.c:145 | dict_for_each with the visitor stays inside the bound |
| Render.Visited | src/core.c:101-128 | one visit stays inside the bound and counts the entry at most once |
| Render.KeyVisited | src/core.c:108-113 | rendering a key does not count it, and does nothing once no room is left |
| Render.ValueVisited | src/core.c:115-126 | rendering a value puts a space before it and counts the entry |
| Render.SpaceAfter | src/core.c:84-86 | a separating space is written exactly when another element follows and room is left, and it ends the output |
| Render.PutSnprintf | src/core.c:177-188 | the buffer after the call is Snprintf of the buffer before it |
| Render.PutStrncpy | src/core.c:198-209 | the buffer after the call is Strncpy of the buffer before it |
| Render.SkipWritten | src/core.c:80-82 | the loop stops where Scan does |
| Render.ObjNstr | src/core.c:174-212 | obj_nstr on an array succeeds exactly when Rendered does, and leaves the buffer Rendered computes |
| Render.PutScalar | src/core.c:174-212 | the scalar cases leave the buffer Scalar computes |
| Render.ConsNstr | src/core.c:70-91 | cons_nstr on an array succeeds exactly when RenderedCons does, and leaves its buffer |
| Render.ConsElem | src/core.c:79-86 | one turn of the cons_nstr loop moves to the `cdr` and replaces the rest of the loop by the loop from the next cell |
| Render.VecNstr | src/core.c:150-172 | vec_nstr on an array succeeds exactly when RenderedVec does, and leaves its buffer |
| Render.VecElem | src/core.c:161-167 | one turn of the vec_nstr loop replaces the rest of the loop by the loop from the next index |
| Render.DictNstr | src/core.c:130-148 | dict_nstr on an array succeeds exactly when RenderedDict does, and leaves its buffer |
| Render.DictStrVisitor | src/core.c:101-128 | the visitor on an array computes the buffer, the end and the count that Visited does |
| Render.VisitKey | src/core.c:108-113 | the key half of the visitor computes KeyVisited |
| Render.VisitValue | src/core.c:115-126 | the value half of the visitor computes ValueVisited and counts one entry |
| Render.PutSpaceAfter | src/core.c:84-86 | the separator step leaves the buffer and end SpaceAfter computes |
| Render.ConsStep | src/core.c:79-86 | rendering the `car`, scanning and separating turns the loop at one cell into the loop at its `cdr` |
| Render.VecStep | src/core.c:161-167 | rendering an element, scanning and separating turns the loop at index `i` into the loop at `i + 1` |
| Render.CStrPlain | src/core.c:177-188 | a string without NUL is its own C string |
| Render.RenderedScalar | src/core.c:174-212 | every object that is not a list, dict or vector renders as Scalar says |
| Render.RenderedBool | src/core.c:177-179 | a boolean renders as `true` or `false` when there is room for it |
| Render.RenderedNum | src/core.c:180-182 | a number renders as its decimal form when there is room for it |
| Render.RenderedText | src/core.c:183-188 | a string or symbol renders as itself, cut to `maxlen - 1` characters |
| Render.RenderedNil | src/core.c:207-209 | nil renders as `nil`, terminated when `maxlen > 3` and unterminated when it is exactly 3 |
| Render.ConsSeparates | src/core.c:78-87 | two elements are separated by a space when another cell follows and room is left, and the loop ends after the last cell |
| Render.TightList | src/core.c:70-91 | a list of two or more cells whose first element is a number, rendered into 4 bytes, gives `( )`: the number is dropped, because only one byte is left for it and snprintf uses that byte for the NUL |
| Reader.AdvanceBy | src/read.c:26-34 | `k` calls of reader_adv move the cursor by exactly `k` |
| Reader.LineStart | src/read.c:28-31 | the start of the last line in a stretch of text: just after its last newline, and no newline follows |
| Reader.LineColumn | src/read.c:26-34 | after `k` steps the line has grown by the number of newlines passed, and the column counts from the last of them (or from the old column when there was none) |
| Reader.AdvanceInLine | src/read.c:26-34 | stepping over `k` characters without a newline adds `k` to the column and keeps the line |
| Reader.TokenEnd | src/read.c:79 | a symbol token, like a number token (the loop at src/read.c:47), runs to the first NUL, whitespace or `)`, and contains none of them |
| Reader.TokenEndAt | src/read.c:79 | the token ends at the first delimiter |
| Reader.StringEnd | src/read.c:64-67 | a string literal runs to the first `"` or NUL, and contains neither |
| Reader.NumValue | src/read.c:47-51 | `num = num * 10 + (c - '0')` over the token, failing with undefined behaviour once an intermediate value leaves the 32-bit range; any value it yields is a 32-bit int |
| Reader.NumValueFails | src/read.c:48-49 | once one step overflows, the whole number does |
| Reader.DigitsValue | src/read.c:47-51 | a token of the decimal digits of `n <= INT_MAX` reads as `n` |
| Reader.DecimalSnoc | src/read.c:47-51 | the value by place of digits followed by one more digit is ten times their value plus that digit |
| Reader.NumPrefix | src/read.c:47-51 | over the first `k` digits of a token the fold of read_num is their value by place while that fits in an `int`, and undefined once it does not |
| Reader.DigitsRead | src/read.c:47-51 | a token of decimal digits, leading zeros included, reads as its value by place exactly when that fits in an `int`, and is undefined behaviour otherwise |
| Reader.DigitsDecimal | src/read.c:47-51 | the canonical decimal form of `n` has the value `n` |
| Reader.ZerosDecimal | src/read.c:47-51 | leading zeros do not change the value of a digit string |
| Reader.ZeroPaddedReads | src/read.c:47-51 | `n <= INT_MAX` written with any number of leading zeros reads as `n` |
| Reader.Number | src/read.c:41-54 | read_num allocates one number object after the existing ones, changes no other object, and stops at the end of the token |
| Reader.DigitsToken | src/read.c:47-51 | a run of digits followed by a delimiter is one token, read on one line |
| Reader.ReadsDigits | src/read.c:41-54 | the decimal form of `n <= INT_MAX` reads back as the number `n`, with the column moved by its length |
| Reader.PrintedNumberReadsBack | src/read.c:41-54 | a non-negative number printed by obj_nstr with room to spare reads back as the same number |
| Reader.LettersInNumber | src/read.c:47-49 | read_num does not check for digits: `1a` reads as `10 + ('a' - '0')`, that is 59 |
| Reader.Str | src/read.c:56-71 | read_str allocates one string object holding the text up to the closing quote, which has no quote and no NUL in it, and moves the cursor past both quotes |
| Reader.UnterminatedString | src/read.c:64-69 | an unterminated string moves the cursor past the NUL at the end of the text, so what happens next is undefined |
| Reader.Sym | src/read.c:73-86 | read_sym allocates one symbol object holding the token and moves the cursor to the end of the token, leaving the line and column as they were |
| Reader.MinusStartsSymbol | src/read.c:106-114 | `-5` starts with a non-digit and reads as the symbol `-5` |
| Reader.Element | src/read.c:106-114 | one element of a list moves the cursor forward and only appends objects |
| Reader.DigitElement | src/read.c:108-109 | an element that is one digit reads as that number |
| Reader.List | src/read.c:88-123 | read_list moves the cursor past the `(`, only appends objects, and returns NULL or the cons cell allocated first |
| Reader.ListFrom | src/read.c:95-121 | the loop of read_list, with its head and last cell, ends in a state where the cells are linked from the head |
| Reader.ListItem | src/read.c:105-120 | one element of the loop: a new cell, its `car` read, and the cell linked after the last one |
| Reader.ListFromElements | src/read.c:95-121 | the list the loop builds holds the elements it read, in order, after those already linked |
| Reader.ListItemElements | src/read.c:105-120 | the same for one element turn |
| Reader.ItemStep | src/read.c:105-120 | one element turn appends its element to the linked cells and leaves the rest of the loop to read from the new position |
| Reader.LinkItem | src/read.c:115-120 | linking the new cell after the last one appends its `car` to the elements of the list |
| Reader.ListElements | src/read.c:88-123 | the list read_list returns has exactly the elements read in order, and it is NULL exactly when none were read |
| Reader.ThirdOfThree | src/read.c:95-121 | the last turn of reading `(1 2 3)` |
| Reader.SecondOfThree | src/read.c:95-121 | the second and third turns of reading `(1 2 3)` |
| Reader.FirstOfThree | src/read.c:94-121 | reading `(1 2 3)` makes cells 0, 2 and 4 and numbers 1, 3 and 5 |
| Reader.ReadsThreeNumbers | src/read.c:125-157 | `(1 2 3)` reads as one form, the list of the numbers 1, 2 and 3 |
| Reader.FormsFrom | src/read.c:135-154 | the loop of read keeps every form read, every form is a list, and objects are only appended |
| Reader.Forms | src/read.c:125-157 | read returns only lists and only appends objects |
| Reader.EmptyFormFails | src/read.c:140-143 | `()` stops the program with "Empty form." |
| Reader.StrayAtomFails | src/read.c:150-153 | an atom at top level stops the program with "Unexpected symbol" naming its first character |
| Reader.Replay | src/read.c:140-147 | reading the list at each of a chain of starts, one after the other, yields one form per start |
| Reader.Opens | src/read.c:135-154 | the top-level `(` at which the loop of read starts a list, with increasing cursors, each a non-empty list, the first read in the starting store and each later one in the store the one before it left |
| Reader.FormsPerOpen | src/read.c:135-154 | the loop of read succeeds exactly when the scan for top-level `(` does and fails the same way; on success its forms are, in order, the lists read_list builds at those `(`, and its store is the one the last of them leaves |
| Reader.FormsPerList | src/read.c:140-147 | the same at a top-level `(`: the list read_list builds there is the next form, and the loop goes on in the store it leaves |
| Reader.ListsInExtend | src/read.c:140-147 | forms already read stay lists when objects are appended, and the new list joins them |
| Reader.FormsCount | src/read.c:125-157 | read of a whole text yields the lists read_list builds at its top-level `(`, one form for each, in order, and ends in the store the last of them leaves |
| Reader.ReadState.constructor | src/read.c:19-24 | reader_init starts at cursor 0, line 1, column 1 |
| Reader.ReadState.Adv | src/read.c:26-34 | reader_adv moves one character; a newline starts the next line at column 1 |
| Reader.ReadState.AdvN | src/read.c:36-39 | reader_adv_n moves the cursor only, leaving line and column |
| Reader.ReadState.New | src/core.c:221-241 | an allocation appends one object and leaves the reader where it was |
| Reader.ReadState.ReadNum | src/read.c:41-54 | read_num on the reader computes Number, failing exactly where it does |
| Reader.ReadState.ReadStr | src/read.c:56-71 | read_str on the reader computes Str |
| Reader.ReadState.ReadSym | src/read.c:73-86 | read_sym on the reader computes Sym |
| Reader.ReadState.ReadElement | src/read.c:106-114 | the element dispatch on the reader computes Element |
| Reader.ReadState.ReadItem | src/read.c:105-120 | one turn of the read_list loop leaves the rest of the loop computing what ListItem does |
| Reader.ReadState.ReadList | src/read.c:88-123 | read_list on the reader computes List, failing exactly where it does |
| Reader.Read | src/read.c:125-157 | read succeeds exactly when Forms does, with the same failure, and its array holds the forms Forms gives |
| Reader.Push | src/read.c:144-149 | storing a form doubles the array when it is full and leaves the earlier forms in place, followed by the new one |
| Builtins.Bounded | src/builtins.c:49-50 | a message formatted into a buffer of `size` bytes keeps at most `size - 1` of its characters, a prefix, and all of them when it fits |
| Builtins.ObjText | src/builtins.c:47-50 | the text the assertion messages quote; reading it fails only where the rendering is undefined |
| Builtins.TypeNamed | src/builtins.c:61-62 | the message naming a tag is undefined exactly for the two tags tag_str has no name for |
| Builtins.Car | src/builtins.c:588-599 | `p->car` is defined exactly on cons cells, and is the cell's `car` |
| Builtins.Cdr | src/builtins.c:601-609 | `p->cdr` is defined exactly on cons cells, and is the cell's `cdr` |
| Builtins.Expect | src/builtins.c:56-65 | assert_type passes exactly when the object's tag is the expected one, and otherwise stops with the "Wrong type" message |
| Builtins.ExpectFn | src/builtins.c:44-53 | assert_fn passes exactly on native functions and lambdas |
| Builtins.Nargs | src/builtins.c:38-41 | nargs is defined exactly on lists that end, and is their number of cells |
| Builtins.ExpectNargs | src/builtins.c:68-77 | assert_nargs passes exactly when the count is `n`, and otherwise stops with "Wrong number of arguments" giving both counts |
| Builtins.SymbolOf | src/builtins.c:104 | `p->sym` is defined exactly on SYMBOL objects |
| Builtins.Alloc | src/process.c:9-27 | an allocation appends the new object, with mark 0, and returns its index |
| Builtins.Put | src/builtins.c:133 | writing an object replaces its value only, and changes neither the store's size nor the chain |
| Builtins.SetCar | src/builtins.c:133 | `p->car = x` is defined exactly on cons cells and changes only that cell's `car` |
| Builtins.SetCdr | src/builtins.c:580-584 | `p->cdr = x` is defined exactly on cons cells and changes only that cell's `cdr` |
| Builtins.SetNum | src/builtins.c:1121 | `res->num = n` is defined exactly on NUM objects and changes only that number |
| Builtins.Push | src/builtins.c:147-151 | env_init puts a fresh scope in front of the chain, which stays well formed, and leaves the store alone |
| Builtins.Pop | src/builtins.c:151 | env_destroy drops the innermost scope and leaves the caller's chain |
| Builtins.AddTo | src/env.c:44-63 | env_add into a table succeeds exactly when it adds a binding, keeps the table well formed, and stops with "Duplicate symbol" on a symbol already bound |
| Builtins.Define | src/builtins.c:433-446 | adding to the innermost scope changes that scope only, keeps the chain's depth, and succeeds exactly when env_add does |
| Builtins.Lookup | src/builtins.c:235-243 | a symbol evaluates exactly when env_find gives it a non-NULL object, to that object; otherwise "Undefined symbol" |
| Builtins.FromBits | src/builtins.c:1106-1131 | a 32-bit pattern read as a C `int` lies in the `int` range |
| Builtins.CArith | src/builtins.c:1106-1131 | `a op b` on C `int`s yields an `int` whenever it is defined (signed overflow and division by zero are undefined) |
| Builtins.Op | src/builtins.c:1106-1131 | the step the reducers take is CArith of their operator |
| Builtins.Eval | src/builtins.c:227-251 | a successful call leaves a well-formed scope chain of the caller's depth; its cases are EvalFacts.EvalLiteral, EvalSymbol and EvalOther |
| Builtins.Apply | src/builtins.c:264-302 | a successful call leaves a well-formed scope chain of the caller's depth; its dispatch is stated by FormFacts.ApplyLiteralHead, ListForms.ApplyCallable and ListForms.ApplyStructHead |
| Builtins.CallFn | src/builtins.c:141-154 | a successful call leaves a well-formed scope chain of the caller's depth: the lambda's scope is dropped again |
| Builtins.Apply1 | src/builtins.c:156-164 | a successful call leaves a well-formed scope chain of the caller's depth |
| Builtins.Apply2 | src/builtins.c:167-180 | a successful call leaves a well-formed scope chain of the caller's depth |
| Builtins.CallLambda | src/builtins.c:91-113 | a successful call leaves a well-formed scope chain of the caller's depth; see FormFacts.LambdaBindsInNewScope, ListForms.LambdaArity, ListForms.LambdaLiteralBody and ListForms.LambdaReturnsArgument |
| Builtins.BindArgs | src/builtins.c:97-107 | a successful binding keeps the chain's depth |
| Builtins.EvalBody | src/builtins.c:108-111 | a successful call leaves a well-formed scope chain of the caller's depth; see EvalFacts.EvalBodyLiterals |
| Builtins.CallMacro | src/builtins.c:115-139 | a successful call leaves a well-formed scope chain of the caller's depth; see FormFacts.MacroBindsInCallerScope and ListForms.MacroRewritesBody |
| Builtins.BindQuoted | src/builtins.c:122-132 | a successful binding keeps the chain's depth and changes no object |
| Builtins.CreateStruct | src/builtins.c:183-205 | a successful call leaves a well-formed scope chain of the caller's depth; see FormFacts.CreateStructTooMany and FormFacts.CreateStructLiterals |
| Builtins.EvalArgs | src/builtins.c:195-199 | a successful run keeps the chain's depth and yields at least the values it started with |
| Builtins.Native | src/tlisp.c:53-98 | a successful call leaves a well-formed scope chain of the caller's depth |
| Builtins.NativeForm | src/tlisp.c:53-98 | a successful call leaves a well-formed scope chain of the caller's depth |
| Builtins.NativeList | src/tlisp.c:53-98 | a successful call leaves a well-formed scope chain of the caller's depth |
| Builtins.NativeNum | src/tlisp.c:53-98 | a successful call leaves a well-formed scope chain of the caller's depth |
| Builtins.NativeTest | src/tlisp.c:53-98 | a successful call leaves a well-formed scope chain of the caller's depth |
| Builtins.EvalArg | src/builtins.c:253-262 | a successful call leaves a well-formed scope chain of the caller's depth |
| Builtins.Quote | src/builtins.c:304-310 | quote returns its argument list unchanged, and stops with "quote requires at least one argument" exactly when there is none |
| Builtins.Backquote | src/builtins.c:312-346 | a successful call leaves a well-formed scope chain of the caller's depth; see ListQuote.BackquoteFlat and ListQuote.BackquoteUnbound |
| Builtins.BackquoteLoop | src/builtins.c:322-344 | the loop of tlisp_backquote_fn; a successful call leaves a well-formed scope chain of the caller's depth |
| Builtins.Expand | src/builtins.c:325-336 | a successful call leaves a well-formed scope chain of the caller's depth; see ListQuote.ExpandFlat and ListQuote.ExpandUnbound |
| Builtins.TypeOf | src/builtins.c:348-359 | a successful call leaves a well-formed scope chain of the caller's depth; see ValueForms.TypeOfKnown |
| Builtins.Let | src/builtins.c:361-389 | a successful call leaves a well-formed scope chain of the caller's depth; see EvalFacts.LetYieldsNil |
| Builtins.LetBind | src/builtins.c:369-385 | a successful run keeps the chain's depth and the table well formed; see ListForms.LetBindKnown and ListForms.LetUnpaired |
| Builtins.Do | src/builtins.c:391-400 | a successful call leaves a well-formed scope chain of the caller's depth; see ValueForms.DoLiterals |
| Builtins.If | src/builtins.c:402-416 | a successful call leaves a well-formed scope chain of the caller's depth; see FormFacts.IfLiterals |
| Builtins.While | src/builtins.c:418-431 | a successful call leaves a well-formed scope chain of the caller's depth; see EvalFacts.WhileYieldsNil |
| Builtins.WhileLoop | src/builtins.c:427-429 | a successful call leaves a well-formed scope chain of the caller's depth; see EvalFacts.WhileLoopNil |
| Builtins.Def | src/builtins.c:433-446 | a successful call leaves a well-formed scope chain of the caller's depth; see FormFacts.DefLiteral and FormFacts.DefThenFind |
| Builtins.SetBang | src/builtins.c:448-463 | a successful call leaves a well-formed scope chain of the caller's depth; see FormFacts.SetBangLiteral and FormFacts.SetBangThenFind |
| Builtins.Lambda | src/builtins.c:518-534 | a successful call leaves a well-formed scope chain of the caller's depth; see ValueForms.LambdaMakes, LambdaNoBody and LambdaBadParams |
| Builtins.Macro | src/builtins.c:536-550 | a successful call leaves a well-formed scope chain of the caller's depth; see ValueForms.MacroMakes and MacroNargs |
| Builtins.Cons | src/builtins.c:552-566 | a successful call leaves a well-formed scope chain of the caller's depth; see ListForms.ConsKnown |
| Builtins.LastCell | src/builtins.c:580-583 | the walk to the end of a spine returns a cons cell whose `cdr` is NULL |
| Builtins.Append | src/builtins.c:568-586 | a successful call leaves a well-formed scope chain of the caller's depth; see ListForms.AppendKnown and ListForms.AppendOntoOther |
| Builtins.CarFn | src/builtins.c:588-599 | a successful call leaves a well-formed scope chain of the caller's depth; see ListForms.CarKnown |
| Builtins.CdrFn | src/builtins.c:601-609 | a successful call leaves a well-formed scope chain of the caller's depth; see ListForms.CdrKnown |
| Builtins.List | src/builtins.c:647-664 | a successful call leaves a well-formed scope chain of the caller's depth; see ListBuild.ListResult |
| Builtins.ListLoop | src/builtins.c:658-662 | a successful call leaves a well-formed scope chain of the caller's depth |
| Builtins.Len | src/builtins.c:905-937 | a successful call leaves a well-formed scope chain of the caller's depth; see ValueForms.LenKnown |
| Builtins.ListAndFn | src/builtins.c:945-951 | the checks the list walkers share, passing on nil or on a list with a function; a successful check keeps the chain's depth and a walk it passes starts at a cell; see ListForms.ListAndFnKnown |
| Builtins.ApplyAt | src/builtins.c:156-164 | apply_1arity_fn of a fixed function is an evaluator: it keeps the chain's depth |
| Builtins.Apply2At | src/builtins.c:167-180 | apply_2arity_fn of a fixed function is a combiner: it keeps the chain's depth |
| Builtins.ForEach | src/builtins.c:939-957 | a successful call leaves a well-formed scope chain of the caller's depth; see ListForms.WalkNil |
| Builtins.ForEachLoop | src/builtins.c:952-955 | a successful call leaves a well-formed scope chain of the caller's depth |
| Builtins.Map | src/builtins.c:959-983 | a successful call leaves a well-formed scope chain of the caller's depth; see ListWalk.MapWalked |
| Builtins.MapList | src/builtins.c:974-982 | a successful call leaves a well-formed scope chain of the caller's depth; see ListBuild.MapListResult |
| Builtins.MapLoop | src/builtins.c:977-981 | the loop of tlisp_map; a successful call leaves a well-formed scope chain of the caller's depth |
| Builtins.Filter | src/builtins.c:985-1016 | a successful call leaves a well-formed scope chain of the caller's depth; see ListWalk.FilterWalked |
| Builtins.FilterLoop | src/builtins.c:1000-1015 | a successful call leaves a well-formed scope chain of the caller's depth; see ListFilter.FilterLoopResult |
| Builtins.Reduce | src/builtins.c:1018-1042 | a successful call leaves a well-formed scope chain of the caller's depth; see ListFold.ReduceWalked |
| Builtins.ReduceList | src/builtins.c:1032-1041 | a successful call leaves a well-formed scope chain of the caller's depth; see ListFold.ReduceListResult |
| Builtins.ReduceLoop | src/builtins.c:1037-1040 | the loop of tlisp_reduce; a successful call leaves a well-formed scope chain of the caller's depth |
| Builtins.Arith | src/builtins.c:1106-1131 | a successful call leaves a well-formed scope chain of the caller's depth; see EvalFacts.ArithNums |
| Builtins.EvalAt | src/builtins.c:227-251 | eval with a fixed fuel is an evaluator: it keeps the chain's depth |
| Builtins.ArithLoop | src/builtins.c:1118-1122 | a successful call leaves a well-formed scope chain of the caller's depth; see EvalFacts.ArithLoopNums |
| Builtins.Sub | src/builtins.c:1133-1154 | a successful call leaves a well-formed scope chain of the caller's depth; see EvalFacts.SubNums |
| Builtins.EvalTwo | src/builtins.c:1156-1186 | a successful run keeps the chain's depth; see ValueForms.EvalTwoKnown and EvalTwoNargs |
| Builtins.Compare | src/builtins.c:1156-1176 | a successful call leaves a well-formed scope chain of the caller's depth; see ValueForms.CompareKnown |
| Builtins.Equals | src/builtins.c:1178-1186 | a successful call leaves a well-formed scope chain of the caller's depth; see ValueForms.EqualsKnown |
| Builtins.Logic | src/builtins.c:1188-1206 | a successful call leaves a well-formed scope chain of the caller's depth; see ValueForms.LogicKnown |
| Builtins.Not | src/builtins.c:1208-1216 | a successful call leaves a well-formed scope chain of the caller's depth; see ValueForms.NotKnown |
| EvalFacts.EvalLiteral | src/builtins.c:230-234 | eval returns a BOOL, NUM, STRING or NIL object itself and changes nothing |
| EvalFacts.EvalSymbol | src/builtins.c:235-243 | a SYMBOL yields the object the innermost binding gives it, and fails with "Undefined symbol" when no scope binds it or its object is NULL |
| EvalFacts.EvalOther | src/builtins.c:244-249 | a cons cell is a call; eval of any other object (a function, a dict, a vector, a struct) is a fatal internal error, or undefined where the message would print an unnamed tag |
| EvalFacts.EvalArgsLiterals | src/builtins.c:195-199 | evaluating a list of literals appends them, in order, and changes nothing |
| EvalFacts.EvalBodyLiterals | src/builtins.c:108-111 | the body loops of lambdas, macros and `do` over literal forms yield the last form (`last` when there is none) and change nothing |
| EvalFacts.WhileLoopNil | src/builtins.c:427-430 | the loop of tlisp_while yields nil whenever it ends, whatever its evaluator |
| EvalFacts.WhileYieldsNil | src/builtins.c:418-431 | `while` yields nil whenever it ends |
| EvalFacts.LetYieldsNil | src/builtins.c:361-389 | `let` yields nil whatever its body yields, and drops its scope |
| EvalFacts.Numbers | src/builtins.c:1118-1122 | the numbers the list holds, first to last |
| EvalFacts.ArithStep | src/builtins.c:1119-1121 | one turn of the loop of DEF_ARITH_OP on a NUM literal: `res->num` becomes `acc op x`, or the operation is undefined |
| EvalFacts.ArithLoopNums | src/builtins.c:1118-1122 | the loop of DEF_ARITH_OP over the numbers after `args` leaves their fold in `res`, which is the only object it changes, or stops at the first undefined operation |
| EvalFacts.ArithFrom | src/builtins.c:1115-1123 | the loop of DEF_ARITH_OP started, as the macro starts it, on a fresh copy `x` of the first number: the fold ends up in that copy |
| EvalFacts.ArithNums | src/builtins.c:1106-1131 | DEF_ARITH_OP over a list of numbers, with an evaluator that gives numbers back unchanged: nil without arguments; otherwise a fresh NUM holding the left fold of the numbers under `step`, the only change to the store, or the first undefined operation |
| EvalFacts.SubNums | src/builtins.c:1133-1154 | tlisp_sub over a list of numbers: nil without arguments, the negation of a single number (undefined when it overflows, as for INT_MIN), and otherwise the left fold of C subtraction, in a fresh NUM |
| FormFacts.ArgAtLiterals | src/builtins.c:80-88 | arg_at below the length of a list of literals yields a literal |
| FormFacts.ApplyLiteralHead | src/builtins.c:294-299 | a call whose head evaluates to anything but a function, a lambda, a macro, a struct definition or a struct is "apply cannot be called" with the head's tag name |
| FormFacts.LambdaBindsInNewScope | src/builtins.c:97-107 | a lambda binds each parameter in the fresh scope it pushes, to the argument evaluated there |
| FormFacts.MacroBindsInCallerScope | src/builtins.c:122-132 | a macro binds each parameter, in the caller's own innermost scope, to the argument as it is written |
| FormFacts.CreateStructTooMany | src/builtins.c:189-191 | constructing a struct from more arguments than it has fields is fatal |
| FormFacts.CreateStructFill | src/builtins.c:192-204 | create_struct once its arguments are evaluated: the new object gets the values and then nils as its fields |
| FormFacts.CreateStructLiterals | src/builtins.c:183-205 | constructing a struct from literal arguments, no more than it has fields: a new STRUCT whose field i is argument i and whose remaining fields are nil, appended to the store, which is the only change |
| FormFacts.IfLiterals | src/builtins.c:402-416 | `if` over literal arguments: anything but 2 or 3 arguments is an invalid if; otherwise the second argument when the first is the `true` singleton, else the third, or nil when there is none |
| FormFacts.DefLiteral | src/builtins.c:433-446 | `def` adds the value to the innermost scope and returns it; the duplicate-definition exit of env_add is its only failure |
| FormFacts.DefThenFind | src/builtins.c:433-446 | without a growth of the innermost scope pending, the symbol `def` binds then finds the value |
| FormFacts.SetBangLiteral | src/builtins.c:448-463 | `set!` replaces, through env_update, the object of the binding the symbol finds and returns the value; no binding is "No previous value" |
| FormFacts.SetBangThenFind | src/builtins.c:448-463 | "No previous value" exactly when no scope binds the symbol (under the table invariant); afterwards the symbol finds the new value |
| ValueForms.EvalTwoKnown | src/builtins.c:1156-1176 | two known arguments evaluate, first to last, to their values |
| ValueForms.EvalTwoNargs | src/builtins.c:68-77 | any argument count but two is the assert_nargs error, whatever the operator |
| ValueForms.CompareKnown | src/builtins.c:1156-1176 | a comparison of two known values: the `true` singleton when the C comparison of the two numbers holds, `false` otherwise; a value that is not a NUM, the first checked first, is a type error. Nothing changes |
| ValueForms.EqualsKnown | src/builtins.c:1178-1186 | `eq` of two known values: obj_equals as the `true` or `false` singleton; undefined where obj_equals is (two struct definitions or two structs) |
| ValueForms.LogicKnown | src/builtins.c:1188-1206 | `and` and `or` of two known values: both must be BOOLs, and each counts as true only when it is the `true` singleton |
| ValueForms.NotKnown | src/builtins.c:1208-1216 | `not` of a known BOOL: `false` for the `true` singleton and `true` for any other BOOL; anything else is a type error |
| ValueForms.ExpectBool | src/builtins.c:56-65 | assert_type of BOOL passes exactly on BOOLs |
| ValueForms.NotEval | src/builtins.c:1208-1216 | `not` of one argument that evaluates to `v`, in the caller's world: `false` for the `true` singleton, `true` for any other BOOL, and the type error for anything else |
| ValueForms.DoLiterals | src/builtins.c:391-400 | `do` over literal forms yields the last one, and nil when there are none; nothing changes |
| ValueForms.LenFill | src/builtins.c:905-937 | `len` of a known value once it is evaluated: a new NUM holding the count, or the count's error |
| ValueForms.LenKnown | src/builtins.c:905-937 | `len` of a known value: a new NUM holding 0 for nil, the number of elements of a list (or the walk's error on a malformed one), the dict's counter or the vector's length; any other type is "Wrong arg type to len" |
| ValueForms.TypeOfKnown | src/builtins.c:348-359 | `type-of` of a known value: a new STRING holding its tag's name, or, for a struct instance, its definition's name |
| ValueForms.LambdaNoBody | src/builtins.c:518-534 | `lambda` with no argument or no body form is an error |
| ValueForms.LambdaBadParams | src/builtins.c:518-534 | `lambda` whose parameter list is not a CONS is a type error |
| ValueForms.LambdaMakes | src/builtins.c:518-534 | `lambda` with a CONS of SYMBOLs and at least one body form: a new LAMBDA at the end of the store holding the parameter list and the body forms; nothing else changes |
| ValueForms.MacroMakes | src/builtins.c:536-550 | `macro` with exactly two arguments, the first a CONS of SYMBOLs: a new MACRO at the end of the store holding the parameter list and the rest of the argument list; nothing else changes |
| ValueForms.MacroNargs | src/builtins.c:536-550 | `macro` with any other number of arguments is the assert_nargs error |
| ListForms.ConsFillNil | src/builtins.c:552-566 | cons once both arguments are evaluated, the second to nil: the cell allocated first, filled in place with the first value and NULL |
| ListForms.ConsFillOnto | src/builtins.c:552-566 | cons once both arguments are evaluated, the second to anything but nil: the cell filled with both values, when the second is a list |
| ListForms.ConsKnown | src/builtins.c:552-566 | cons of a known value onto nil or a list: a fresh cell holding the value and, as its cdr, NULL for nil and the list otherwise, appended to the store; onto anything else, a type error after the cell is built |
| ListForms.CarKnown | src/builtins.c:588-599 | car of a known value: nil for nil, the car of a list, a type error for anything else |
| ListForms.CdrKnown | src/builtins.c:601-609 | cdr of a known value: the cdr of a list, nil when that is NULL; a type error for anything else, nil included |
| ListForms.LastOfCells | src/builtins.c:580-583 | the walk to the last cell of a list ends at the last of its cells |
| ListForms.AppendFill | src/builtins.c:568-586 | append once both arguments are evaluated: the cell allocated first holds the first value; onto nil it is the result, onto anything else it is linked after the last cell of the second value |
| ListForms.AppendKnown | src/builtins.c:568-586 | onto nil, a fresh one-element list; onto a list, the list itself, changed in place: its last cell now links to a fresh cell holding the value, so its cells and elements are the old ones followed by the new. No other object of the store changes |
| ListForms.FreshSingleton | src/builtins.c:574-578 | a fresh cell holding `a` and NULL is a one-element list |
| ListForms.LinkAfterLast | src/builtins.c:580-584 | a fresh cell holding `a`, linked after the last cell of a list `l`: `l` then has one cell and one element more, and only its last cell changed |
| ListForms.AppendOntoOther | src/builtins.c:580-583 | append onto a known value that is neither nil nor a cons cell walks off its end: undefined |
| ListForms.ListAndFnKnown | src/builtins.c:944-951 | the argument check the list walkers share: nil is an empty walk; a list must come with a function; anything else is a type error |
| ListForms.WalkNil | src/builtins.c:945-948 | when the list argument evaluates to nil, for-each yields NULL and map, filter and reduce yield nil, in the world that evaluation left, without evaluating the function argument |
| ListForms.WalkErrors | src/builtins.c:949-951 | the walkers fail alike when the list is neither nil nor a list, or the function is not one |
| ListForms.ReduceSingle | src/builtins.c:1032-1034 | reduce over a one-element list yields that element without calling the function |
| ListForms.LetUnpaired | src/builtins.c:376-381 | a binding without an expression is fatal |
| ListForms.LetBindKnown | src/builtins.c:370-385 | a binding `(s x)` adds `s`, bound to the value `x` has in the caller's scopes, to the let's own table, which is not yet visible; it fails only where env_add does |
| ListForms.ApplyCallable | src/builtins.c:276-285 | a call whose head evaluates, without side effects, to a native function, a lambda or a macro passes the unevaluated argument list to that callee in the caller's world |
| ListForms.ApplyStructHead | src/builtins.c:286-293 | a call whose head evaluates to a struct definition constructs a struct of it from the unevaluated arguments; one whose head evaluates to a struct reads the field the argument names, changing nothing |
| ListForms.LambdaArity | src/builtins.c:97-103 | a lambda call with more arguments than parameters, or fewer, is fatal |
| ListForms.ParamBound | src/builtins.c:104 | binding the one parameter in the fresh scope of a lambda call always succeeds, leaves the store as it was, puts the scope in front of the caller's chain, and makes the parameter name find the argument |
| ListForms.LambdaLiteralBody | src/builtins.c:141-154 | a lambda of one parameter called with one literal argument, whose body is `n` literal forms, yields the last of them and leaves the caller's world as it was: the scope it pushed is gone |
| ListForms.LambdaReturnsArgument | src/builtins.c:96-112 | `((lambda (x) x) a)`: the body sees the parameter bound to the argument's value, the call yields that value, and the caller's world is as it was |
| ListForms.MacroParamBound | src/builtins.c:127 | binding a macro's parameter in the caller's innermost scope, when it has room without growing, is a "Duplicate symbol" exit exactly when that scope's probe run meets the name, and otherwise binds the name to the argument as written with the store unchanged |
| ListForms.MacroRewritesBody | src/builtins.c:120-138 | `((macro (x) x) a)`: a duplicate `x` in the caller's innermost scope is a "Duplicate symbol" exit; otherwise `x` stays bound to `a` in the caller's scope, the body's own cell is overwritten to hold `a`, and the call yields `a`; the binding and the rewritten cell are the call's only changes |
| ListForms.StructTextUndefined | src/builtins.c:217-222 | obj_nstr writes nothing for a struct, so the text the "No field" message would quote is whatever the uninitialised buffer held |
| ListForms.StructFieldAccess | src/builtins.c:208-225 | `(s field)` on a struct `s`: the field's object when the definition has the field and it holds an object; otherwise the "No field" message would quote the struct's text, which obj_nstr never writes |
| ListForms.StructFieldErrors | src/builtins.c:213-215 | a struct accessor takes exactly one argument, a SYMBOL |
| ListForms.StructFieldNotSym | src/builtins.c:215 | the field argument must be a SYMBOL |
| ListBuild.WalkChained | src/list.c:14-23 | every list is a chain of its cells and elements |
| ListBuild.LinkedElements | src/builtins.c:655-662 | a chain is the list of its cells, and its elements are its `car`s |
| ListBuild.LinkedGrows | src/process.c:23-26 | a chain survives anything that only adds objects |
| ListBuild.LinkedLink | src/builtins.c:659-660 | a new empty cell allocated and linked after the last cell of a chain extends the chain |
| ListBuild.BuildStep | src/builtins.c:658-662 | one more cell: allocated, linked after the last, then filled with the result for the next element |
| ListBuild.BuildValues | src/builtins.c:658-662 | the objects of the cells after BuildStep: those of the earlier cells are untouched, and the new one holds the function's result, which is neither one of the cells nor in the part of the store they replace |
| ListBuild.BuildDone | src/builtins.c:658-663 | a loop that has filled a cell for every element has built the list of their images |
| ListBuild.MapLoopResult | src/builtins.c:977-981 | the loop of tlisp_map from element `k` on ends with a list whose element `i` holds `f` of the value of element `i`, in fresh cells |
| ListBuild.MapAdvance | src/builtins.c:977-981 | a turn of the loop of tlisp_map keeps `Building`, and leaves the rest of the loop to do from the next element on |
| ListBuild.MapListResult | src/builtins.c:974-982 | for a function that maps the value of each element to `f` of it, a list of new cells whose element `i` holds `f` of the value of element `i` |
| ListBuild.ListLoopResult | src/builtins.c:658-662 | the loop of tlisp_list from argument `k` on ends with a list whose element `i` holds `f` of the value of argument `i`, in fresh cells |
| ListBuild.ListAdvance | src/builtins.c:658-662 | a turn of the loop of tlisp_list keeps `Building`, and leaves the rest of the loop to do from the next element on |
| ListBuild.ListResult | src/builtins.c:647-664 | for arguments whose evaluation gives `f` of their value, a list of new cells whose element `i` holds `f` of the value of argument `i`; nil without arguments |
| ListFilter.Kept | src/builtins.c:1000-1015 | the elements of `xs` that `keep` accepts, in order |
| ListFilter.KeptMembers | src/builtins.c:1000-1015 | an object is kept exactly when it is one of `xs` and `keep` accepts it |
| ListFilter.FilterLoopResult | src/builtins.c:1000-1015 | the loop of tlisp_filter from its `k`-th element on ends with the kept elements of the whole list |
| ListFilter.SiftAdvance | src/builtins.c:1000-1015 | a turn of the loop of tlisp_filter keeps `Sifting`, and leaves the rest of the loop to do from the next element on |
| ListFilter.FilterListResult | src/builtins.c:1000-1015 | for a function that answers `true` on exactly the elements `keep` accepts, a list of fresh cells holding those elements in order, or nil when there are none |
| ListFold.ReduceLoopResult | src/builtins.c:1037-1040 | the loop of tlisp_reduce from element `k` on, with `acc` holding the fold of the elements before it, ends holding `total`, the fold of them all |
| ListFold.ReduceAdvance | src/builtins.c:1037-1040 | a turn of the loop of tlisp_reduce: the new accumulator holds the fold up to element `k`, and the rest of the loop is left to do |
| ListFold.ReduceListResult | src/builtins.c:1032-1041 | for a function that combines values by `h`, an object holding the left fold of `h` over the values of the elements; a one-element list gives its element itself |
| ListFold.ReduceListMore | src/builtins.c:1035-1041 | the case of ReduceListResult with at least two elements: the first two are combined and the loop goes on from the third |
| ListFold.ReduceListOpen | src/builtins.c:1035-1036 | tlisp_reduce on a list of at least two elements combines the first two and goes on from the cell after the second |
| ListFold.ReduceWalked | src/builtins.c:1018-1042 | reduce once its checks have passed, on a list and a function that combines values by `h`: the left fold of `h` over the values of the elements, in the state the checks left |
| ListFold.ReduceAfterWalk | src/builtins.c:1024-1031 | reduce once its checks have passed goes on with the list and the function they gave |
| ListFold.CallXor | src/builtins.c:1131 | calling the native `^` is DEF_ARITH_OP with the C operator `^` |
| ListFold.XorPair | src/builtins.c:1106-1131 | DEF_ARITH_OP for `^` on two NUMs: a fresh NUM holding their xor |
| ListFold.XorCall | src/builtins.c:167-180 | apply_2arity_fn of `^` on two NUMs: a fresh NUM holding their xor |
| ListFold.XorFolds | src/builtins.c:1131 | reduce may be given `^`: it folds NUMs into NUMs by xor |
| ListWalk.MapAfterWalk | src/builtins.c:966-973 | map once its checks have passed goes on with the list and the function they gave |
| ListWalk.MapWalked | src/builtins.c:959-983 | map once its checks have passed, on a list and a function that maps each element's value `v` to `f(v)`: a list of new cells whose element `i` holds `f` of the value of element `i` |
| ListWalk.WalkKnown | src/builtins.c:944-951 | the checks of the walkers pass on a known list and a known native function or lambda, in the state they started from |
| ListWalk.CallSub | src/builtins.c:1133-1154 | calling the native `-` is tlisp_sub |
| ListWalk.SubSingle | src/builtins.c:1133-1154 | tlisp_sub of a single NUM: a fresh NUM holding its negation |
| ListWalk.NegCall | src/builtins.c:156-164 | apply_1arity_fn of `-` on a NUM: a fresh NUM holding its negation |
| ListWalk.NegTransforms | src/builtins.c:959-983 | map may be given `-`: it maps each NUM to its negation |
| ListWalk.MapNeg | src/builtins.c:974-982 | map with `-` once its checks have passed, on a list of NUMs: a fresh list of their negations, in order |
| ListWalk.FilterAfterWalk | src/builtins.c:992-999 | filter once its checks have passed goes on with the list and the function they gave |
| ListWalk.FilterWalked | src/builtins.c:985-1016 | filter once its checks have passed, on a list and a function that answers `true` on exactly the elements that `keep` accepts: those elements, in order, in fresh cells, or nil when there are none |
| ListWalk.CallNot | src/builtins.c:1208-1216 | calling the native `not` is tlisp_not |
| ListWalk.NotSingle | src/builtins.c:1208-1216 | tlisp_not of a single BOOL: `false` for the `true` singleton and `true` for any other |
| ListWalk.NotCall | src/builtins.c:156-164 | apply_1arity_fn of `not` on a BOOL answers `true` exactly when the BOOL is not the `true` singleton |
| ListWalk.NotDecides | src/builtins.c:985-1016 | filter may be given `not`: it answers `true` on the BOOLs other than the `true` singleton |
| ListWalk.FilterNot | src/builtins.c:1000-1015 | filter with `not` once its checks have passed, on a list of BOOLs: the elements other than the `true` singleton, in order, in fresh cells, or nil when every element is `true` |
| ListQuote.Unquote | src/builtins.c:325-336 | what backquote puts in the cells for the flat elements `xs` |
| ListQuote.ExpandFlat | src/builtins.c:325-336 | a flat element expands to what `Unquoted` says, in any state that keeps `w0`'s objects and its scope chain, and changes nothing |
| ListQuote.ExpandUnbound | src/builtins.c:325-331 | an element `~name` whose name is unbound: the message formats a field of the wrong union variant, so the run is undefined |
| ListQuote.QuoteLoopResult | src/builtins.c:322-344 | the loop of tlisp_backquote_fn from its `k`-th element on ends with the copy of the whole list |
| ListQuote.QuoteAdvance | src/builtins.c:322-344 | a turn of the loop of tlisp_backquote_fn keeps `Quoting`, and the loop goes on from the next element with the same outcome |
| ListQuote.QuoteGrow | src/builtins.c:324-342 | a turn after the element `k` expanded: one more fresh cell, holding the expansion, at the end of the chain |
| ListQuote.QuoteLink | src/builtins.c:337-342 | the full new cell made the head, or linked after the last cell: the chain of cells grows by it |
| ListQuote.BackquoteFlat | src/builtins.c:312-346 | tlisp_backquote_fn on a list of flat elements: a list of fresh cells whose element `i` is element `i` of the argument list, or the object it names when it is `~name`; the store only grows, so the argument list and every other old object are unchanged |
| ListQuote.BackquoteUnbound | src/builtins.c:312-346 | tlisp_backquote_fn whose first element is `~name` with `name` unbound: undefined, as ExpandUnbound says |
| Lists.Cells | src/list.c:16-21 | the cells of a list along `cdr`; see CellsFrom |
| Lists.CellsExtend | src/process.c:23-26 | a walk that ends in `st` ends the same way in a store that extends it, with the one step more the larger store allows |
| Lists.CellsSuffix | src/list.c:16-21 | the walk from the `k`th cell of a list lists the remaining cells |
| Lists.CellNext | src/list.c:16-21 | the `cdr` of the `k`th cell of a list is its next cell, or NULL after the last |

## Left out

- Builtins.Eval and the functions it calls: they model the loops of src/builtins.c (argument walks, `let`, `while`, the reducers, `list`, `map`, `filter`) as recursive functions over the store. They are not `while` loops that update a cell pointer. Every call spends one unit of fuel, and a run that exhausts it ends in `OutOfFuel` where the C code may loop forever.
- Builtins.Native: `#`, `get`, `ins`, `rem`, `print` and `str` end in `Unmodelled`. The first four are the dictionary and collection dispatch of src/builtins.c:701-903, which calls list helpers that src/list.c does not define. The last two print or format, which is output.
- Builtins.Native (family grouping): the split of the builtins into forms, lists, numbers and tests is only a device of the model. The C code dispatches through one function pointer per object (src/tlisp.c:53-98).
- File I/O and printing builtins (`open`, `readline`, `write`, `close`, `print_obj`, src/builtins.c:611-645, 1044-1104) are not part of this model.
- Process.Process.constructor: the model starts with an empty file table (`nfiles` 0), although proc_init (src/process.c:29-36) never sets `nfiles`. The process is a stack variable of main (src/tlisp.c:179, 196), so in C the count proc_open reads (src/process.c:101, 109) is indeterminate. The model does not capture that undefined read.
- ListForms.LambdaLiteralBody, ListForms.LambdaReturnsArgument and ListForms.MacroRewritesBody: they are proved for one parameter bound to one literal argument. Calls with several parameters, or with arguments that are themselves calls, follow the same definitions (Builtins.BindArgs, Builtins.BindQuoted) but are not stated as lemmas.
- ListForms.MacroParamBound and ListForms.MacroRewritesBody: they require that the caller's innermost scope satisfies Env.Inv and has room for the binding without growing. When env_add grows the table first, the new binding can be lost (see Env.GrowthMissesBinding under "## Findings"), and these lemmas do not state that case.
- Process.Process.Open and Process.Process.Close: they keep only the bookkeeping of the file table. Whether `fopen` and `fclose` succeed is a parameter.
- Builtins.Alloc and Process.Process.NewObj: a store index stays valid when new_obj moves the arena with `malloc`, `memcpy` and `free` (src/process.c:13-21). The model therefore does not capture that every `tlisp_obj_t*` taken before a growth dangles after it.
- Reader.ReadState.New and the reader: the reader's objects (`malloc`ed by the new_* functions of src/core.c:221-241), the `genv_init` singletons and the NFUNC objects of src/tlisp.c live outside the arena in C. The model keeps them in the same store as arena objects.
- Gc.Mark: a pointer outside the arena is `Undefined`. In C such a pointer may be a `malloc`ed object (`tlisp_nil`, the true and false singletons, NFUNCs, the reader's objects) that gc_mark marks and counts in `nalive` (src/gc.c:24-26). The model does not capture that count, nor its effect on the shrink test and on `heap_cap = 2*nalive`. This is why Process.Process.Collect requires a collection that is defined (`Gc.Collect(...).Ok?`). Real root sets do not meet that requirement, because the global scope binds `tlisp_nil`, which lives outside the arena. gc() has no caller in the sources.
- Builtins.Apply1 and Builtins.Apply2: the argument cells that apply_1arity_fn and apply_2arity_fn build on the C stack are store allocations here.
- Env.CharCode, Env.Hash, Reader.IsDigit, Reader.At and Reader.NumValue: a Dafny `char` is a Unicode code point, while C indexes a `char*` by byte. The model reads each character as one byte (its low byte, taken as signed). It does not capture multi-byte encodings.
- Env.Add and Env.Scope.Bind: the evaluator keeps env_add as written, with the start slot computed before growth (see Findings). The corrected Env.AddRehashed is proved on its own. `len` over-counting after env_grow is also kept as written.
- Gc.Collect and Process.Process.Collect keep the stale-mark behaviour as written (see Findings). The corrected Gc.CollectCleared is proved on its own.
- Gc.Collect and Process.Process.HeapShrink: heap_shrink (src/gc.c:89-101) copies the survivors to a new arena with `memcpy` and rewrites no pointer, so after a compaction in C every pointer into the old arena dangles. In the model an old index names whatever object was compacted into that slot. The model does not capture the dangling pointers.
- Dict.RemUseAfterFree: its table is not reachable. dict_resize keeps `len`, so from dict_new `len` stays at least `3*cap/8` above the valid entries once the table has grown, and the shrink in dict_rem never fires (Dict.NewNeverShrinks). The defect is latent, and the shrink branch of Dict.Rem is never taken on a table the dictionary functions build.
- ListWalk.NotCall, ListWalk.NotDecides and ListWalk.FilterNot require `g.t != g.f`, meaning the `true` and `false` singletons are different objects, as genv_init creates them.
- ListQuote.BackquoteFlat covers backquoted lists whose elements are not cons cells and whose `~name` elements are bound. A nested list element is not covered by an all-inputs lemma. An unbound `~name` is covered separately, by ListQuote.ExpandUnbound and ListQuote.BackquoteUnbound.
- Lists.ListLen returns an unbounded `nat`. The C `int` counter could overflow on a list of more than 2^31-1 cells.
- Core.Source.AddExpr reallocates `2*cap` pointers. The C code reallocates `2*cap` bytes (see Findings).
- `obj_hash` (src/core.c:25-42) is the constant 0, as in the C code (Dict.ObjHash).
- The stderr output of `proc_fatal`, `line_info_print` and `print_lines` (src/core.c:275-307) is left out. A fatal error is `Err(Fatal(message))`, and undefined behaviour is `Err(Undefined)`.
- Memory release (`free`, `free_obj`, `dict_free`, `vec_destroy`, `struct_destroy`) is left out. Freed memory simply stops being referenced.
- src/tlisp.c `main`, `tlisp_repl`, `tlisp_file` and `read_file` are the command-line front end and I/O. They are not part of this model.
- The headers (src/*.h) declare functions that no source file defines (`env_update`, `env_for_each`, `list_ins*`). `env_for_each` is modelled as the sequence of bound objects it hands over (Env.Bindings).
- `defstruct` and `setq` are not registered by genv_init. They are modelled only through the struct functions they call.

## Findings

| source | as written | input that shows it | evidently intended | confidence | as-written member | corrected member |
|---|---|---|---|---|---|---|
| src/env.c:46-52 | env_add computes the start slot `hash % cap` before env_grow doubles `cap`, then probes the grown table from that old slot | a fresh scope given twelve definitions of the one-character symbols from `\` to `g` (slots 1 to 12), then a definition of "k" (hash 177680): the scope grows to 32 slots, "k" is placed at slot 0, but env_find starts at slot 16, which is empty, and returns NULL | take the start slot after growth, so env_find finds the binding just added | high, not executed | Env.GrowthMissesBinding | Env.RehashedThenFind |
| src/gc.c:24-25, 89-98 | marks from two collections earlier still equal the current epoch, so such objects count as visited and survive compaction uncounted | an arena in which more objects carry a stale mark than twice the `nalive` that marking reports: heap_shrink copies more objects than the `2*nalive` slots it allocated | start marking from an arena without stale marks, so the survivors are exactly the counted objects and fit | medium, not executed | Gc.StaleOverflow | Gc.ClearedFits |
| src/dict.c:95-98 | dict_rem may shrink the table (freeing the old entry array) before it reads the removed value through the entry pointer | latent: a table with its only key in 16 slots and `len` 1 meets the shrink test once the key is found; no table built by dict_new, dict_ins and dict_rem does, because dict_resize keeps `len` (Dict.NewNeverShrinks) | read the value before the resize | low (latent), not executed | Dict.RemUseAfterFree | Dict.RemAgreesWithGet |
| src/vector.c:51-53 | the shift loop of vec_ins_at starts at `i = len`, writing `elems[len + 1]` | inserting into a vector whose `len` is `cap - 1` (vec_check_resize does not grow it) | shift `elems[idx..len)` up by one, starting at `len - 1` | high, not executed | Vector.InsAtPastEndExactly | Vector.Vec.InsertAt |
| src/struct.c:41 | struct_setq assigns the new object to its local copy of the field pointer | setting an existing field to a different object: the struct's fields are unchanged | store the object in the struct's field | high, not executed | Structs.SetqLosesUpdate | Structs.GetAfterSet |
| src/core.c:322 | source_add_expr doubles `cap` but reallocates `cap` bytes, not `cap` pointers, then stores at index `cap / 2` | the seventeenth expression of a fresh source: 32 bytes hold 4 pointers, and the store goes to index 16 | reallocate `cap * sizeof(tlisp_obj_t *)` bytes | high, not executed | Core.AddExprOverflowsOnGrowth | Core.Source.AddExpr |
| src/list.c:8 | list_get compares the arena-index distance `curr - list` with `idx` instead of counting cells | `(list (list 1 2) 3 4)`: the outer list's cells are at 4, 7 and 8, and list_get of index 2 returns 3 instead of 4 | count the cells walked | high, not executed | Lists.GetByDistance | Lists.ListNth |
