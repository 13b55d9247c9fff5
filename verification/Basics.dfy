/** What several modules share.

    Two conventions keep the proofs of all modules small.

    `P(x) == true` means P(x).  Dafny checks a bare predicate in a contract one conjunct at
    a time, each with the definition unfolded; the comparison makes it one fact, which the
    next call takes over as it is.

    Some functions choose a value by what is known about it (`var f :| ...; f`) and say in
    their contract, under a trigger, what that is.  Their definitions then show only in the
    proofs that mention the trigger: EngineSpec.PkFn and UkFn, WriteSpec.CellsOf and Flags,
    Sql.LexerOf, Engine.TreeOk and Index. */
module Basics {

  datatype Option<+T> = None | Some(value: T)

  lemma MulLe(a: int, b: int, c: int)
    requires a <= b && 0 <= c
    ensures a * c <= b * c
  {
  }

  lemma SubsetSize<T>(a: set<T>, b: set<T>)
    requires a <= b
    ensures |a| <= |b|
  {
    assert b == a + (b - a);
  }

  lemma Assoc<T>(a: seq<T>, b: seq<T>, c: seq<T>)
    ensures a + (b + c) == a + b + c
  {
  }
}
