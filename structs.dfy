/** Struct instances (src/struct.c): a struct definition names its fields,
    an instance holds one object per field, and fields are found by a
    linear search over the names. */
module Structs {
  import opened Base
  import opened Core

  /** The first position at or after `i` whose field name is `name`. */
  function FieldIndexFrom(names: seq<string>, name: string, i: nat): (r: Option<nat>)
    requires i <= |names|
    ensures r.Some? ==> i <= r.value < |names| && names[r.value] == name
    ensures r.Some? ==> forall j | i <= j < r.value :: names[j] != name
    ensures r.None? <==> forall j | i <= j < |names| :: names[j] != name
    decreases |names| - i
  {
    if i == |names| then None
    else if names[i] == name then Some(i)
    else FieldIndexFrom(names, name, i + 1)
  }

  /** The first position whose field name is `name`; None when no field has
      that name. */
  function FieldIndex(names: seq<string>, name: string): (r: Option<nat>)
    ensures r.Some? ==> r.value < |names| && names[r.value] == name
    ensures r.Some? ==> forall j | 0 <= j < r.value :: names[j] != name
    ensures r.None? <==> forall j | 0 <= j < |names| :: names[j] != name
  {
    FieldIndexFrom(names, name, 0)
  }

  /** The object a field lookup yields: the field's object, or NULL. */
  function FieldOf(names: seq<string>, fields: seq<Ptr>, name: string): Ptr
    requires |names| <= |fields|
  {
    match FieldIndex(names, name)
    case Some(i) => fields[i]
    case None => Null
  }

  /** struct_get_field (src/struct.c:21-33): `names` are the definition's
      `field_names` (`nfields` of them), `fields` the instance's objects. */
  method GetField(names: seq<string>, fields: seq<Ptr>, name: string) returns (r: Ptr)
    requires |names| <= |fields|
    ensures FieldIndex(names, name).Some? ==> r == fields[FieldIndex(names, name).value]
    ensures FieldIndex(names, name).None? ==> r == Null
  {
    var i := 0;
    while i < |names|
      invariant 0 <= i <= |names|
      invariant forall j | 0 <= j < i :: names[j] != name
    {
      if names[i] == name {
        assert FieldIndex(names, name) == Some(i);
        return fields[i];
      }
      i := i + 1;
    }
    return Null;
  }

  /** struct_setq (src/struct.c:35-43) as written: it assigns the new object
      to its local copy of the field pointer, so it reports whether the
      lookup found a non-NULL object and returns the instance's fields as
      they were. */
  method Setq(names: seq<string>, fields: seq<Ptr>, name: string, to: Ptr) returns (ok: bool, fields2: seq<Ptr>)
    requires |names| <= |fields|
    ensures ok <==> FieldOf(names, fields, name) != Null
    ensures fields2 == fields
  {
    var field := GetField(names, fields, name);
    if field == Null {
      return false, fields;
    }
    return true, fields;
  }

  /** What struct_setq is evidently meant to do: replace the object of the
      field it names (the first with that name). */
  function SetField(names: seq<string>, fields: seq<Ptr>, name: string, to: Ptr): (r: Option<seq<Ptr>>)
    requires |names| <= |fields|
    ensures r.None? <==> FieldIndex(names, name).None?
    ensures r.Some? ==> |r.value| == |fields|
  {
    match FieldIndex(names, name)
    case Some(i) => Some(fields[i := to])
    case None => None
  }

  /** As written, a successful struct_setq whose new object differs from
      the field's old one leaves fields that differ from the intended
      update's. */
  lemma SetqLosesUpdate(names: seq<string>, fields: seq<Ptr>, name: string, to: Ptr)
    requires |names| <= |fields| && FieldOf(names, fields, name) != Null && to != FieldOf(names, fields, name)
    ensures SetField(names, fields, name, to).Some? && SetField(names, fields, name, to).value != fields
  {
    var i := FieldIndex(names, name).value;
    assert SetField(names, fields, name, to).value[i] == to;
  }

  /** After the intended update the field yields the new object and every
      other field name yields what it did before. */
  lemma GetAfterSet(names: seq<string>, fields: seq<Ptr>, name: string, other: string, to: Ptr)
    requires |names| <= |fields| && SetField(names, fields, name, to).Some?
    ensures FieldOf(names, SetField(names, fields, name, to).value, name) == to
    ensures other != name ==>
      FieldOf(names, SetField(names, fields, name, to).value, other) == FieldOf(names, fields, other)
  {
  }
}
