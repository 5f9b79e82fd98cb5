/** Sequences without repetition. */
module Sequences {

  ghost predicate Distinct<T>(s: seq<T>) {
    forall i, j | 0 <= i < j < |s| :: s[i] != s[j]
  }

  function Elements<T(==)>(s: seq<T>): set<T> {
    set x | x in s
  }

  lemma DistinctFirst<T>(s: seq<T>)
    requires s != []
    ensures Distinct(s) <==> s[0] !in s[1..] && Distinct(s[1..])
  {
    var rest := s[1..];
    if Distinct(s) {
      assert forall j | 0 <= j < |rest| :: rest[j] == s[j + 1];
    } else {
      var i, j :| 0 <= i < j < |s| && s[i] == s[j];
      assert rest[j - 1] == s[j];
      if i > 0 {
        assert rest[i - 1] == s[i];
      }
    }
  }

  /** Comparing the number of different elements with the length finds exactly the sequences that repeat one. */
  lemma {:induction false} ElementCount<T>(s: seq<T>)
    ensures |Elements(s)| <= |s|
    ensures |Elements(s)| == |s| <==> Distinct(s)
  {
    if s == [] {
      assert Elements(s) == {};
    } else {
      var rest := s[1..];
      DistinctFirst(s);
      ElementCount(rest);
      assert Elements(s) == Elements(rest) + {s[0]};
      if s[0] in rest {
        assert Elements(s) == Elements(rest);
      } else {
        assert s[0] !in Elements(rest);
        assert |Elements(s)| == |Elements(rest)| + 1;
      }
    }
  }
}
