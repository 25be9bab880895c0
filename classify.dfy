/**
 * Classification of System-1 rows (app.py:79-82) and the "THE BEST"
 * anomaly test with its first-occurrence de-duplication (app.py:84-89).
 */
module Classify {
  import opened Text
  import opened Cells
  import opened Reconcile
  import Columns

  /** The three statuses a System-1 row can get. */
  datatype Status = Correct | NotLaunched | NoOrder

  /** The text written into `Status_Comparacao` for each status. */
  function Label(s: Status): string {
    match s
    case Correct => "OK"
    case NotLaunched => "Não Lançado"
    case NoOrder => "Sem Pedido"
  }

  /** The three statuses are written as three different texts. */
  lemma LabelsDiffer(s1: Status, s2: Status)
    requires Label(s1) == Label(s2)
    ensures s1 == s2
  {
    assert Label(Correct)[0] == 'O' && Label(NotLaunched)[0] == 'N' && Label(NoOrder)[0] == 'S';
  }

  /** The status lambda of app.py:80-82, applied to one cleaned identifier. */
  function StatusOf(id: string, c: Comparison): Status {
    if id in c.matched then Correct
    else if id in c.inconsistent then NotLaunched
    else NoOrder
  }

  /**
   * The status of a System-1 row, in terms of its cleaned identifier `x`
   * and System 2's identifiers: OK exactly when `x` is non-empty and occurs
   * in System 2; a non-empty `x` is otherwise 'Não Lançado'; an empty `x` is
   * 'Sem Pedido' only when System 2 has no empty identifier, and
   * 'Não Lançado' when it has one.
   */
  lemma StatusOfSystem1Row(cells1: seq<Cell>, ids2: seq<string>, k: nat)
    requires k < |cells1|
    ensures var ids1 := Cleaned(cells1);
            var x := ids1[k];
            var c := Compare(PresentIds(ids1), AllIds(ids2));
            && (StatusOf(x, c) == Correct <==> x in c.matched)
            && (StatusOf(x, c) == Correct <==> x != "" && x in ids2)
            && (x != "" ==> (StatusOf(x, c) == NotLaunched <==> x !in ids2))
            && (x == "" ==> (StatusOf(x, c) == NoOrder <==> "" !in ids2))
            && (x == "" ==> (StatusOf(x, c) == NotLaunched <==> "" in ids2))
  {
    PresentIdsOfCleaned(cells1);
  }

  /** The marker the anomaly test looks for, case-insensitively. */
  const AnomalyMarker := "THE BEST"

  /** pandas `str.contains('THE BEST', case=False)` on one customer value. */
  predicate MentionsMarker(s: string) {
    Contains(Lower(s), Lower(AnomalyMarker))
  }

  /** The marker test does not depend on the case of the value. */
  lemma MentionsMarkerIgnoresCase(s: string)
    ensures MentionsMarker(Lower(s)) <==> MentionsMarker(s)
  {
    LowerIdempotent(s);
  }

  /** A customer named 'Loja The Best' is flagged whatever the case of the marker. */
  lemma MentionsMarkerExample()
    ensures MentionsMarker("Loja The Best")
  {
    assert Lower(AnomalyMarker) == "the best";
    assert Lower("Loja The Best") == "loja the best";
    assert "the best" <= Lower("Loja The Best")[5..];
  }

  /** A customer named 'Best Loja' is not flagged: the marker must occur as one phrase. */
  lemma MentionsMarkerCounterexample()
    ensures !MentionsMarker("Best Loja")
  {
    assert Lower(AnomalyMarker) == "the best";
    var s := Lower("Best Loja");
    assert s == "best loja";
    assert 'h' !in s;
    forall i | 0 <= i <= |s| ensures !("the best" <= s[i..]) {
      if i + 1 < |s| {
        assert s[i..][1] == s[i + 1] && s[i + 1] in s;
      }
    }
  }

  /** No value occurs twice in `s`. */
  predicate NoDuplicates(s: seq<string>) {
    forall i, j :: 0 <= i < j < |s| ==> s[i] != s[j]
  }

  /**
   * `drop_duplicates()` on one column (app.py:89): keeps the first occurrence
   * of each value. The result has the same values as `s`, each once.
   */
  function Distinct(s: seq<string>): (r: seq<string>)
    ensures forall x :: x in r <==> x in s
    ensures NoDuplicates(r)
  {
    if s == [] then []
    else
      var p := Distinct(s[..|s| - 1]);
      var x := s[|s| - 1];
      assert s == s[..|s| - 1] + [x];
      if x in p then p else p + [x]
  }

  /** Adding a value at the end does not move the first occurrence of any earlier value. */
  lemma IndexOfAppend(s: seq<string>, x: string, y: string)
    requires y in s
    ensures Columns.IndexOf(s + [x], y) == Columns.IndexOf(s, y)
  {
    var i := Columns.IndexOf(s, y);
    var j := Columns.IndexOf(s + [x], y);
    assert (s + [x])[i] == y;
    assert forall k :: 0 <= k < |s| ==> (s + [x])[k] == s[k];
  }

  /**
   * The values `Distinct` keeps appear in the order of their first
   * occurrence in `s`.
   */
  lemma {:induction false} DistinctFirstOccurrenceOrder(s: seq<string>)
    ensures forall i, j :: 0 <= i < j < |Distinct(s)|
              ==> Columns.IndexOf(s, Distinct(s)[i]) < Columns.IndexOf(s, Distinct(s)[j])
  {
    if s != [] {
      var s' := s[..|s| - 1];
      var x := s[|s| - 1];
      assert s == s' + [x];
      DistinctFirstOccurrenceOrder(s');
      var p := Distinct(s');
      forall y | y in p ensures Columns.IndexOf(s, y) == Columns.IndexOf(s', y) {
        IndexOfAppend(s', x, y);
      }
      if x !in p {
        assert Columns.IndexOf(s, x) == |s'|;
        forall i | 0 <= i < |p| ensures Columns.IndexOf(s, p[i]) < |s'| {
          assert p[i] in p;
        }
      }
    }
  }
}
