/** The shape of the result of the list-building loops of src/builtins.c:
    a list of fresh cells whose elements hold given values. */
module ListSpec {
  import opened Base
  import opened Core
  import opened Builtins
  import Lists

  /** The objects `ys` of `st` hold the values `vs`. */
  ghost predicate Holds(st: Store, ys: seq<Ptr>, vs: seq<Val>)
  {
    |ys| == |vs| && forall i | 0 <= i < |ys| :: ys[i].Ref? && ys[i].index < |st| && st[ys[i].index].val == vs[i]
  }

  /** The result of a loop that built a list: a list of new cells whose
      elements hold `vs`, in a state that extends `w0`'s and has its scope
      chain. */
  ghost predicate Built(w0: World, vs: seq<Val>, d: Done)
  {
    && Wf(d.w) && w0.st <= d.w.st && d.w.chain == w0.chain
    && Lists.Cells(d.w.st, d.obj).Ok? && (forall c | c in Lists.Cells(d.w.st, d.obj).value :: |w0.st| <= c)
    && Holds(d.w.st, Lists.Elements(d.w.st, d.obj).value, vs)
  }

  /** A call that ends by having built the list of `vs`. */
  ghost predicate Yields(w0: World, vs: seq<Val>, r: Res<Done>)
  {
    r.Ok? && Built(w0, vs, r.value)
  }
}
