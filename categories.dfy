/** The category registry: an ordered list of category names in which every
    name is non-empty and appears once, and the list operations the registry
    is changed by (`list.append`, `list.remove`). */
module CategoryList {

  predicate NoDuplicates(names: seq<string>)
  {
    forall i, j :: 0 <= i < j < |names| ==> names[i] != names[j]
  }

  /** The registry invariant: names unique and non-empty. */
  predicate WellFormed(names: seq<string>)
  {
    NoDuplicates(names) && forall i :: 0 <= i < |names| ==> names[i] != ""
  }

  /** Position of the first occurrence of `x`. */
  function IndexOf(names: seq<string>, x: string): (k: nat)
    requires x in names
    ensures k < |names| && names[k] == x && x !in names[..k]
  {
    if names[0] == x then 0 else 1 + IndexOf(names[1..], x)
  }

  /** Python's `list.remove(x)` on a list that holds `x`, and the identity on
      one that does not (the annotator tests membership first). */
  function RemoveFirst(names: seq<string>, x: string): seq<string>
  {
    if x in names then names[..IndexOf(names, x)] + names[IndexOf(names, x) + 1..] else names
  }

  /** Removal deletes exactly the first occurrence of `x`: every later name
      moves one place forward, every earlier one stays, and one copy of `x`
      leaves the multiset of names. */
  lemma RemoveFirstShifts(names: seq<string>, x: string)
    requires x in names
    ensures |RemoveFirst(names, x)| == |names| - 1
    ensures forall i :: 0 <= i < |names| - 1 ==>
      RemoveFirst(names, x)[i] == names[if i < IndexOf(names, x) then i else i + 1]
    ensures multiset(RemoveFirst(names, x)) == multiset(names) - multiset{x}
  {
    var k := IndexOf(names, x);
    var before, after := names[..k], names[k + 1..];
    assert RemoveFirst(names, x) == before + after;
    assert names == before + [x] + after;
    assert multiset(names) == multiset(before) + multiset{x} + multiset(after);
  }

  /** Appending a new, non-empty name keeps the registry well formed. */
  lemma AppendKeepsWellFormed(names: seq<string>, x: string)
    requires WellFormed(names)
    requires x !in names && x != ""
    ensures WellFormed(names + [x])
  {
    var r := names + [x];
    forall i, j | 0 <= i < j < |r| ensures r[i] != r[j] {
      if j == |names| {
        assert r[i] == names[i];
      }
    }
  }

  /** Removing a name from a well-formed registry keeps it well formed, takes
      that name out completely and keeps every other name. */
  lemma RemoveKeepsWellFormed(names: seq<string>, x: string)
    requires WellFormed(names)
    ensures WellFormed(RemoveFirst(names, x))
    ensures x !in RemoveFirst(names, x)
    ensures forall y :: y != x ==> (y in RemoveFirst(names, x) <==> y in names)
  {
    if x in names {
      var r := RemoveFirst(names, x);
      var k := IndexOf(names, x);
      RemoveFirstShifts(names, x);
      forall i, j | 0 <= i < j < |r| ensures r[i] != r[j] {
        assert r[i] == names[if i < k then i else i + 1];
        assert r[j] == names[if j < k then j else j + 1];
      }
      forall y | y != x ensures y in r <==> y in names {
        if y in names {
          var j :| 0 <= j < |names| && names[j] == y;
          assert j != k;
          assert r[if j < k then j else j - 1] == y;
        }
      }
    }
  }
}
