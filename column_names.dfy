/** Choosing the name of the exported annotation column so that it does not
    collide with a metadata column the corpus already has. */
module ColumnNames {
  import opened Strings

  /** The column name used when the caller gives none. */
  const DefaultCategoriesCol: string := "annotation"

  /** One renaming step, `f"{name}_{iteration}"`. */
  function Suffixed(name: string, iteration: nat): string
  {
    name + "_" + NatToString(iteration)
  }

  /** Names of `existing` at least as long as `name`; each renaming step makes
      the name longer, so this set shrinks while the name collides. */
  function LongEnough(name: string, existing: set<string>): set<string>
  {
    set s | s in existing && |s| >= |name|
  }

  lemma SuffixedShrinks(name: string, iteration: nat, existing: set<string>)
    requires name in existing
    ensures LongEnough(Suffixed(name, iteration), existing) < LongEnough(name, existing)
  {
    assert name in LongEnough(name, existing);
    assert name !in LongEnough(Suffixed(name, iteration), existing);
  }

  /** The value the renaming loop ends with, when it reaches `name` with
      counter `iteration`. */
  function Probe(name: string, iteration: nat, existing: set<string>): (r: string)
    ensures r !in existing
    decreases LongEnough(name, existing)
  {
    if name !in existing then name
    else
      SuffixedShrinks(name, iteration, existing);
      Probe(Suffixed(name, iteration), iteration + 1, existing)
  }

  /** The name the renaming starts from: the provided one, or the default
      when the provided one is empty. */
  function BaseName(provided: string): (b: string)
    ensures b != ""
  {
    if |provided| == 0 then DefaultCategoriesCol else provided
  }

  /** The name `_get_new_column_name` returns. */
  function NewColumnName(provided: string, existing: set<string>): string
  {
    Probe(BaseName(provided), 0, existing)
  }

  /** The k-th name the loop tries: the base with suffixes `_0`, ..., `_{k-1}`
      appended one after another (each candidate extends the previous one). */
  function Candidate(base: string, k: nat): string
  {
    if k == 0 then base else Suffixed(Candidate(base, k - 1), k - 1)
  }

  /** The loop as written: the name is rebuilt from its own previous value. */
  method GetNewColumnName(provided: string, existing: set<string>) returns (name: string)
    ensures name == NewColumnName(provided, existing)
    ensures name !in existing
  {
    var iteration: nat := 0;
    name := provided;
    if |name| == 0 {
      name := DefaultCategoriesCol;
    }
    while name in existing
      invariant Probe(name, iteration, existing) == NewColumnName(provided, existing)
      decreases LongEnough(name, existing)
    {
      SuffixedShrinks(name, iteration, existing);
      name := name + "_" + NatToString(iteration);
      iteration := iteration + 1;
    }
  }

  lemma {:induction false} ProbeFromCandidate(base: string, k: nat, existing: set<string>) returns (m: nat)
    ensures k <= m
    ensures Probe(Candidate(base, k), k, existing) == Candidate(base, m)
    ensures Candidate(base, m) !in existing
    ensures forall j :: k <= j < m ==> Candidate(base, j) in existing
    decreases LongEnough(Candidate(base, k), existing)
  {
    var c := Candidate(base, k);
    if c !in existing {
      m := k;
    } else {
      SuffixedShrinks(c, k, existing);
      var next := Candidate(base, k + 1);
      assert next == Suffixed(c, k);
      assert Probe(c, k, existing) == Probe(next, k + 1, existing);
      m := ProbeFromCandidate(base, k + 1, existing);
      forall j | k <= j < m ensures Candidate(base, j) in existing {
        if j == k {
          assert Candidate(base, j) == c;
        }
      }
    }
  }

  /** The chosen name is the first free candidate: the base name if it is free,
      otherwise the first of base_0, base_0_1, base_0_1_2, ... that is free. */
  lemma NewColumnNameIsFirstFree(provided: string, existing: set<string>) returns (m: nat)
    ensures NewColumnName(provided, existing) == Candidate(BaseName(provided), m)
    ensures NewColumnName(provided, existing) !in existing
    ensures forall j :: 0 <= j < m ==> Candidate(BaseName(provided), j) in existing
  {
    m := ProbeFromCandidate(BaseName(provided), 0, existing);
  }

  /** A name that does not collide is kept. */
  lemma FreeNameKept(provided: string, existing: set<string>)
    requires BaseName(provided) !in existing
    ensures NewColumnName(provided, existing) == BaseName(provided)
  {
  }

  lemma {:induction false} CandidateExtends(base: string, k: nat)
    requires k >= 1
    ensures |Candidate(base, k)| >= |base| + 2
    ensures Candidate(base, k)[..|base| + 2] == base + "_0"
  {
    if k > 1 {
      CandidateExtends(base, k - 1);
      var c := Candidate(base, k - 1);
      assert Candidate(base, k)[..|c|] == c;
      assert Candidate(base, k)[..|base| + 2] == c[..|base| + 2];
    } else {
      assert NatToString(0) == "0";
    }
  }

  /** A colliding name gets at least one suffix, and the first is always `_0`. */
  lemma CollidingNameSuffixed(provided: string, existing: set<string>)
    requires BaseName(provided) in existing
    ensures |NewColumnName(provided, existing)| >= |BaseName(provided)| + 2
    ensures NewColumnName(provided, existing)[..|BaseName(provided)| + 2] == BaseName(provided) + "_0"
  {
    var m := NewColumnNameIsFirstFree(provided, existing);
    assert m != 0;
    CandidateExtends(BaseName(provided), m);
  }

  /** Suffixes accumulate: with `cat` and `cat_0` taken, `cat` becomes
      `cat_0_1`, not `cat_1`. */
  lemma CumulativeSuffixes()
    ensures NewColumnName("cat", {"cat", "cat_0"}) == "cat_0_1"
  {
    assert NatToString(0) == "0";
    assert NatToString(1) == "1";
    var e: set<string> := {"cat", "cat_0"};
    assert Suffixed("cat", 0) == "cat_0";
    assert Suffixed("cat_0", 1) == "cat_0_1";
    assert "cat_0_1" !in e;
    assert Probe("cat", 0, e) == Probe("cat_0", 1, e) == Probe("cat_0_1", 2, e);
  }
}
