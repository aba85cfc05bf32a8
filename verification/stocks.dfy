/** The stock page: per-item status, the critical list and the total value. */
module Stocks {
  import Seqs

  /**
   * One row of the stock table. `valeur`, a euro amount in the page, is held
   * here in integer cents.
   */
  datatype StockLine = StockLine(
    mabic: string, reference: string, designation: string,
    quantite: int, seuilMin: int, valeur: int, emplacement: string)

  datatype Status = Critique | Faible | Normal

  /** How alarming a status is: critique 2, faible 1, normal 0. */
  function Severity(s: Status): nat {
    match s
    case Critique => 2
    case Faible => 1
    case Normal => 0
  }

  /**
   * `getStockStatus`. The test `quantite <= seuilMin * 1.5` is exact over
   * integers as `2 * quantite <= 3 * seuilMin`.
   */
  function StockStatus(quantite: int, seuilMin: int): (r: Status)
    ensures r == Critique <==> quantite <= seuilMin
    ensures r == Faible <==> seuilMin < quantite && 2 * quantite <= 3 * seuilMin
    ensures r == Normal <==> seuilMin < quantite && 2 * quantite > 3 * seuilMin
  {
    if quantite <= seuilMin then Critique
    else if 2 * quantite <= 3 * seuilMin then Faible
    else Normal
  }

  /** With a non-negative minimum, normal means strictly above one and a half times the minimum. */
  lemma NormalAboveBand(quantite: int, seuilMin: int)
    requires seuilMin >= 0
    ensures StockStatus(quantite, seuilMin) == Normal <==> 2 * quantite > 3 * seuilMin
  {
  }

  /** The faible band holds some quantity exactly when the minimum is at least 2; for 0 and 1 it is empty. */
  lemma FaibleBandNonEmpty(seuilMin: int)
    ensures seuilMin >= 2 ==> StockStatus(seuilMin + 1, seuilMin) == Faible
    ensures seuilMin < 2 ==> forall q :: StockStatus(q, seuilMin) != Faible
  {
  }

  /** With the minimum fixed, more stock never gives a more severe status. */
  lemma StatusMonotonic(a: int, b: int, seuilMin: int)
    requires a <= b
    ensures Severity(StockStatus(b, seuilMin)) <= Severity(StockStatus(a, seuilMin))
  {
  }

  predicate IsCritical(l: StockLine) {
    l.quantite <= l.seuilMin
  }

  /** `getCriticalItems`: the rows at or below their minimum, in table order. */
  function CriticalItems(lines: seq<StockLine>): (r: seq<StockLine>)
    ensures Seqs.IsSubsequence(r, lines)
    ensures forall l :: l in r <==> l in lines && StockStatus(l.quantite, l.seuilMin) == Critique
    ensures forall l :: multiset(r)[l] == if IsCritical(l) then multiset(lines)[l] else 0
  {
    Seqs.Filter(lines, IsCritical)
  }

  /** The "ALERTES CRITIQUES" card shows exactly when some row has status critique. */
  lemma CriticalCardIffSomeCritique(lines: seq<StockLine>)
    ensures |CriticalItems(lines)| > 0 <==>
      exists i :: 0 <= i < |lines| && StockStatus(lines[i].quantite, lines[i].seuilMin) == Critique
  {
    var r := CriticalItems(lines);
    if |r| > 0 {
      assert r[0] in r;
    }
    if i :| 0 <= i < |lines| && StockStatus(lines[i].quantite, lines[i].seuilMin) == Critique {
      assert lines[i] in r;
    }
  }

  /** A row's value: quantity times unit value. */
  function LineValue(l: StockLine): int {
    l.quantite * l.valeur
  }

  /** The sum of the row values, peeling the last row. */
  function Sum(lines: seq<StockLine>): int {
    if |lines| == 0 then 0 else Sum(lines[..|lines| - 1]) + LineValue(lines[|lines| - 1])
  }

  /** `getTotalValue`: the `reduce` that adds the row values from the first row on, starting at 0. */
  method TotalValue(lines: seq<StockLine>) returns (total: int)
    ensures total == Sum(lines)
    ensures |lines| == 0 ==> total == 0
  {
    total := 0;
    var i := 0;
    while i < |lines|
      invariant 0 <= i <= |lines|
      invariant total == Sum(lines[..i])
    {
      assert lines[..i + 1][..i] == lines[..i];
      total := total + LineValue(lines[i]);
      i := i + 1;
    }
    assert lines[..i] == lines;
  }

  /** The total of two tables laid end to end is the sum of their totals. */
  lemma {:induction false} SumConcat(a: seq<StockLine>, b: seq<StockLine>)
    ensures Sum(a + b) == Sum(a) + Sum(b)
    decreases |b|
  {
    if |b| > 0 {
      var b' := b[..|b| - 1];
      assert (a + b)[..|a + b| - 1] == a + b';
      SumConcat(a, b');
    } else {
      assert a + b == a;
    }
  }

  /** Rows with non-negative quantities and prices give a non-negative total. */
  lemma {:induction false} SumNonNegative(lines: seq<StockLine>)
    requires forall i :: 0 <= i < |lines| ==> lines[i].quantite >= 0 && lines[i].valeur >= 0
    ensures Sum(lines) >= 0
  {
    if |lines| > 0 {
      SumNonNegative(lines[..|lines| - 1]);
    }
  }
}
