/** Small vocabulary shared by every component of the model. */
module Prelude {

  /** Python's `None` or a value. */
  datatype Option<+T> = None | Some(value: T)

  /** What a call does: it returns, or it raises one of the named errors. */
  datatype Result<+T, +E> = Returned(value: T) | Raised(error: E)

  /** No element occurs twice. */
  ghost predicate Distinct<T>(s: seq<T>) {
    forall i, j :: 0 <= i < j < |s| ==> s[i] != s[j]
  }

  lemma SomeMember<T>(s: seq<T>)
    requires s != []
    ensures exists x :: x in s
  {
    assert s[0] in s;
  }

  lemma NoMembers<T>(s: seq<T>)
    requires forall x :: x !in s
    ensures s == []
  {
    if s != [] {
      SomeMember(s);
    }
  }
}
