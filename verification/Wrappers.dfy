/** What the other modules share: failure-carrying datatypes, the database's free choices, and lower case. */
module Wrappers {
  datatype Option<+T> = None | Some(value: T)

  datatype Result<+T, +E> = Success(value: T) | Failure(error: E)

  lemma NonEmptyHasMember<T>(s: set<T>)
    ensures s == {} || exists t :: t in s
  {
    if !exists t :: t in s {
      assert s == {};
    }
  }

  lemma MemberOf<T>(s: set<T>) returns (t: T)
    requires s != {}
    ensures t in s
  {
    NonEmptyHasMember(s);
    t :| t in s;
  }

  /** Some member of a set: the rows of a query come in no particular order. */
  method PickFrom<T(==)>(s: set<T>) returns (t: T)
    requires s != {}
    ensures t in s
  {
    ghost var member := MemberOf(s);
    t :| t in s;
  }

  /** An id the database hands out: any id that is free at that moment. */
  method FreeId(taken: set<int>) returns (id: int)
    ensures id !in taken
  {
    id := 1;
    var rest := taken;
    while rest != {}
      invariant rest <= taken
      invariant forall t | t in taken && t !in rest :: t < id
      decreases |rest|
    {
      var t := PickFrom(rest);
      rest := rest - {t};
      if id <= t {
        id := t + 1;
      }
    }
  }

  // ----- text in ASCII -----

  function LowerChar(c: char): char {
    if 'A' <= c <= 'Z' then c - 'A' + 'a' else c
  }

  function Lower(s: string): string {
    seq(|s|, i requires 0 <= i < |s| => LowerChar(s[i]))
  }

  lemma LowerIsIdempotent(s: string)
    ensures Lower(Lower(s)) == Lower(s)
  {
  }

  const UPPER := "ABCDEFGHIJKLMNOPQRSTUVWXYZ"
  const LOWER := "abcdefghijklmnopqrstuvwxyz"

  /** Each of the 26 letters becomes its small one, in its place, and everything else stays. */
  lemma LowerLetters(s: string, i: nat, k: nat)
    requires i < |s| && k < 26
    ensures |Lower(s)| == |s|
    ensures s[i] == UPPER[k] ==> Lower(s)[i] == LOWER[k]
    ensures s[i] !in UPPER ==> Lower(s)[i] == s[i]
  {
    assert forall j | 0 <= j < 26 :: UPPER[j] == 'A' + j as char && LOWER[j] == 'a' + j as char;
    if 'A' <= s[i] <= 'Z' {
      assert UPPER[(s[i] - 'A') as int] == s[i];
    }
  }
}
