/** Facts about sequences of ids that the handlers' counts rely on. */
module Collections {

  /** No id occurs twice. */
  predicate Distinct<T(==)>(s: seq<T>) {
    forall i, j :: 0 <= i < j < |s| ==> s[i] != s[j]
  }

  /** The set of the elements of a sequence. */
  function Elems<T>(s: seq<T>): set<T> {
    set x | x in s
  }

  /** A sequence has at least as many positions as elements, and exactly as many when no
      element occurs twice. */
  lemma {:induction false} CardElems<T>(s: seq<T>)
    ensures |Elems(s)| <= |s|
    ensures |Elems(s)| == |s| <==> Distinct(s)
    decreases |s|
  {
    if |s| > 0 {
      var t := s[1..];
      CardElems(t);
      assert Elems(s) == Elems(t) + {s[0]};
      if s[0] in t {
        assert Elems(s) == Elems(t);
        var k :| 0 <= k < |t| && t[k] == s[0];
        assert s[0] == s[k + 1];
      } else {
        assert |Elems(s)| == |Elems(t)| + 1;
        if Distinct(s) {
          forall i, j | 0 <= i < j < |t| ensures t[i] != t[j] {
            assert t[i] == s[i + 1] && t[j] == s[j + 1];
          }
        }
        if Distinct(t) {
          forall i, j | 0 <= i < j < |s| ensures s[i] != s[j] {
            assert s[j] == t[j - 1];
            if i > 0 {
              assert s[i] == t[i - 1];
            }
          }
        }
      }
    }
  }

  /** A distinct enumeration of a set has the set's size. */
  lemma DistinctEnumeration<T>(s: seq<T>, xs: set<T>)
    requires Distinct(s)
    requires forall x :: x in s <==> x in xs
    ensures |s| == |xs|
  {
    assert Elems(s) == xs;
    CardElems(s);
  }

  /** Of the ids of `s`, those in `found` are as many as the positions of `s` exactly when `s`
      has no repeated id and every id of `s` is in `found`. */
  lemma FoundAll<T>(s: seq<T>, found: set<T>)
    requires found <= Elems(s)
    ensures |found| == |s| <==> Distinct(s) && Elems(s) <= found
  {
    CardElems(s);
    var rest := Elems(s) - found;
    assert Elems(s) == found + rest && found * rest == {};
    assert |Elems(s)| == |found| + |rest|;
  }
}
