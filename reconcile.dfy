/**
 * The set reconciliation of app.py:63-77: System 1's present identifiers,
 * all of System 2's identifiers, and the intersection, symmetric difference
 * and one-sided differences of the two.
 */
module Reconcile {
  import opened Cells

  /** A column after `apply(limpar_valor)` (app.py:60-61). */
  function Cleaned(cells: seq<Cell>): seq<string> {
    seq(|cells|, i requires 0 <= i < |cells| => Clean(cells[i]))
  }

  /** System 1's identifier set (app.py:64, 67): only identifiers for which `valor_nao_nulo` holds. */
  function PresentIds(ids: seq<string>): set<string> {
    set x | x in ids && IsPresent(Str(x))
  }

  /** System 2's identifier set (app.py:68): every identifier, without a presence filter. */
  function AllIds(ids: seq<string>): set<string> {
    set x | x in ids
  }

  /** Python's `a.symmetric_difference(b)`: the elements in exactly one of the two sets. */
  function SymmetricDifference(a: set<string>, b: set<string>): set<string> {
    (a + b) - (a * b)
  }

  /** The four sets app.py:71-77 computes. */
  datatype Comparison = Comparison(
    matched: set<string>,
    inconsistent: set<string>,
    onlyFirst: set<string>,
    onlySecond: set<string>)

  function Compare(a: set<string>, b: set<string>): Comparison {
    Comparison(a * b, SymmetricDifference(a, b), a - b, b - a)
  }

  /**
   * Among cleaned identifiers, `valor_nao_nulo` holds exactly of the
   * non-empty ones: System 1's set is its cleaned identifiers minus "".
   */
  lemma PresentIdsOfCleaned(cells: seq<Cell>)
    ensures PresentIds(Cleaned(cells)) == AllIds(Cleaned(cells)) - {""}
  {
    var ids := Cleaned(cells);
    forall x | x in ids ensures IsPresent(Str(x)) <==> x != "" {
      var i :| 0 <= i < |ids| && ids[i] == x;
      PresentAfterClean(cells[i]);
    }
  }

  /**
   * The matched, only-in-1 and only-in-2 sets are pairwise disjoint and
   * together make up every identifier seen on either side.
   */
  lemma ComparisonPartition(a: set<string>, b: set<string>)
    ensures var c := Compare(a, b);
            && c.matched !! c.onlyFirst && c.matched !! c.onlySecond && c.onlyFirst !! c.onlySecond
            && c.matched + c.onlyFirst + c.onlySecond == a + b
  {
  }

  /** The symmetric difference is exactly the union of the two one-sided differences. */
  lemma InconsistentIsOneSided(a: set<string>, b: set<string>)
    ensures var c := Compare(a, b);
            c.inconsistent == c.onlyFirst + c.onlySecond
  {
  }

  /**
   * The two counts the engine returns: the number of inconsistent
   * identifiers is the sum of the one-sided counts, and matched plus
   * inconsistent counts every identifier once.
   */
  lemma ComparisonCounts(a: set<string>, b: set<string>)
    ensures var c := Compare(a, b);
            && |c.inconsistent| == |c.onlyFirst| + |c.onlySecond|
            && |c.matched| + |c.inconsistent| == |a + b|
  {
    var c := Compare(a, b);
    InconsistentIsOneSided(a, b);
    assert c.onlyFirst !! c.onlySecond;
    assert c.matched !! c.inconsistent;
    assert c.matched + c.inconsistent == a + b;
  }

  /** Identifiers that are empty or start with a non-whitespace character are present exactly when non-empty. */
  lemma PresentIdsOfTrimmed(ids: seq<string>)
    requires forall i :: 0 <= i < |ids| ==> ids[i] == "" || !Text.IsSpace(ids[i][0])
    ensures PresentIds(ids) == AllIds(ids) - {""}
  {
    forall x | x in ids ensures IsPresent(Str(x)) <==> x != "" {
      PresentSpec(Str(x));
      var i :| 0 <= i < |ids| && ids[i] == x;
      if x != "" {
        assert AsStr(Str(x))[0] == x[0];
      }
    }
  }

  /**
   * System 1's cleaned identifiers A1, a1, "" and B2 against System 2's A1,
   * B2, C3 give matched {A1, B2}, only in 1 {a1}, only in 2 {C3}.
   */
  lemma CompareExample()
    ensures var c := Compare(PresentIds(["A1", "a1", "", "B2"]), AllIds(["A1", "B2", "C3"]));
            && c.matched == {"A1", "B2"} && c.onlyFirst == {"a1"} && c.onlySecond == {"C3"}
  {
    var ids1 := ["A1", "a1", "", "B2"];
    var ids2 := ["A1", "B2", "C3"];
    PresentIdsOfTrimmed(ids1);
    assert AllIds(ids1) == {"A1", "a1", "", "B2"};
    assert AllIds(ids2) == {"A1", "B2", "C3"};
  }
}
