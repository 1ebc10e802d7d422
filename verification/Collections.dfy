/** Facts about sequences and finite sets that the other modules share. */
module Collections {

  predicate Distinct<T(==)>(s: seq<T>) {
    forall i, j | 0 <= i < j < |s| :: s[i] != s[j]
  }

  function Elements<T>(s: seq<T>): set<T> {
    set x | x in s
  }

  lemma ElementsOfConcat<T>(s: seq<T>, t: seq<T>)
    ensures Elements(s + t) == Elements(s) + Elements(t)
  {
  }

  lemma DistinctConcat<T>(s: seq<T>, t: seq<T>)
    ensures Distinct(s + t) <==> Distinct(s) && Distinct(t) && Elements(s) !! Elements(t)
  {
    var u := s + t;
    assert forall i | 0 <= i < |s| :: u[i] == s[i];
    assert forall j | 0 <= j < |t| :: u[|s| + j] == t[j];
    if Distinct(u) {
      assert forall i, j | 0 <= i < |s| && 0 <= j < |t| :: s[i] != t[j];
    }
    if Distinct(s) && Distinct(t) && Elements(s) !! Elements(t) {
      forall i, j | 0 <= i < j < |u|
        ensures u[i] != u[j]
      {
        if i < |s| <= j {
          assert u[i] in Elements(s) && u[j] == t[j - |s|] && t[j - |s|] in Elements(t);
        } else if i >= |s| {
          assert u[i] == t[i - |s|] && u[j] == t[j - |s|];
        }
      }
    }
  }
}
