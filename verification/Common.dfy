/** Small types and functions that several modules share. */
module Common {

  datatype Option<T> = None | Some(value: T)

  /** Results of readers that consume a list: one more element in front, or what was read before. */
  function Prepend<T>(x: T, rest: Option<seq<T>>): Option<seq<T>> {
    if rest.Some? then Some([x] + rest.value) else None
  }

  function Onto<T>(done: seq<T>, rest: Option<seq<T>>): Option<seq<T>> {
    if rest.Some? then Some(done + rest.value) else None
  }

  lemma {:induction false} OntoNothing<T>(rest: Option<seq<T>>)
    ensures Onto([], rest) == rest
  {
    assert rest.Some? ==> [] + rest.value == rest.value;
  }

  lemma {:induction false} OntoPrepend<T>(done: seq<T>, x: T, rest: Option<seq<T>>)
    ensures Onto(done, Prepend(x, rest)) == Onto(done + [x], rest)
  {
    assert rest.Some? ==> done + ([x] + rest.value) == done + [x] + rest.value;
  }

  function Members<T(==)>(list: seq<T>): set<T> {
    set x | x in list
  }

  /** The largest size_t. */
  const SIZE_MAX: nat := 0xFFFF_FFFF_FFFF_FFFF
}
