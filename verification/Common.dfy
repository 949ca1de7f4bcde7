/** What several of the other modules share. */
module Common {

  datatype Option<+T> = None | Some(value: T)

  /** How a routine ends: normally, with an error throwable, or not at all, because the process dereferences NULL,
      leaves a buffer, or divides by zero. */
  datatype Ending = OK | ERROR | NULL_DEREFERENCE | OUT_OF_BUFFER | DIVISION_BY_ZERO

  lemma CountAppend<T>(a: seq<T>, x: T, y: T)
    ensures multiset(a + [x])[y] == multiset(a)[y] + (if x == y then 1 else 0)
  {
    assert multiset(a + [x]) == multiset(a) + multiset([x]);
  }
}
