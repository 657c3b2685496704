/** Picking from a set, for the loops over the entries of a map or a directory. */
module Sets {

  lemma Member<T(0)>(s: set<T>) returns (x: T)
    ensures s == {} || x in s
  {
    if y :| y in s {
      x := y;
    } else {
      assert s == {};
      x := *;
    }
  }
}
