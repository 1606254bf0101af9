/**
 * The stock ledger: productStock rows keyed by (productId, storeId) holding a quantity,
 * with the per-line check and the increment/decrement the sale engine applies to them.
 */
module StockLedger {
  import opened Wrappers
  import opened Errors
  import opened Totals

  /** (productId, storeId) -> cantidad. A quantity is an int: nothing in the engine floors it. */
  type Ledger = map<(int, int), int>

  predicate NonNegative(m: Ledger) {
    forall k :: k in m ==> m[k] >= 0
  }

  /** No two lines name the same product. */
  predicate DistinctProducts(lines: seq<Line>) {
    forall i, j :: 0 <= i < j < |lines| ==> lines[i].productId != lines[j].productId
  }

  /** Total cantidad that `lines` ask of product `p`. */
  function Demand(lines: seq<Line>, p: int): int
  {
    if lines == [] then 0
    else
      var last := lines[|lines| - 1];
      Demand(lines[..|lines| - 1], p) + (if last.productId == p then last.cantidad else 0)
  }

  /** Every row of `store` decremented by what `lines` ask of its product. */
  function Debited(m: Ledger, store: int, lines: seq<Line>): (r: Ledger)
    ensures r.Keys == m.Keys
  {
    map k | k in m :: if k.1 == store then m[k] - Demand(lines, k.0) else m[k]
  }

  /** Every row of `store` incremented by what `lines` ask of its product. */
  function Credited(m: Ledger, store: int, lines: seq<Line>): (r: Ledger)
    ensures r.Keys == m.Keys
  {
    map k | k in m :: if k.1 == store then m[k] + Demand(lines, k.0) else m[k]
  }

  predicate HasRow(m: Ledger, store: int, l: Line) {
    (l.productId, store) in m
  }

  /** The row for the line exists and holds at least the line's cantidad. */
  predicate Fits(m: Ledger, store: int, l: Line) {
    HasRow(m, store, l) && m[(l.productId, store)] >= l.cantidad
  }

  /**
   * The error of the first line, from index `from` on, that does not fit. With
   * `reportMissing` a missing row is its own error (create); without it, it is
   * reported as insufficient stock (update).
   */
  function FirstShortfall(m: Ledger, store: int, lines: seq<Line>, reportMissing: bool, from: nat): Option<Error>
    requires from <= |lines|
    decreases |lines| - from
  {
    if from == |lines| then None
    else
      var l := lines[from];
      if !HasRow(m, store, l) then
        Some(if reportMissing then StockNotConfigured(l.productId) else StockInsufficient(l.productId))
      else if m[(l.productId, store)] < l.cantidad then Some(StockInsufficient(l.productId))
      else FirstShortfall(m, store, lines, reportMissing, from + 1)
  }

  /** The product of the first line, from index `from` on, whose row does not exist. */
  function FirstMissing(m: Ledger, store: int, lines: seq<Line>, from: nat): Option<int>
    requires from <= |lines|
    decreases |lines| - from
  {
    if from == |lines| then None
    else if !HasRow(m, store, lines[from]) then Some(lines[from].productId)
    else FirstMissing(m, store, lines, from + 1)
  }

  lemma {:induction false} FirstShortfallNone(m: Ledger, store: int, lines: seq<Line>, reportMissing: bool, from: nat)
    requires from <= |lines|
    ensures FirstShortfall(m, store, lines, reportMissing, from).None?
        <==> forall j :: from <= j < |lines| ==> Fits(m, store, lines[j])
    decreases |lines| - from
  {
    if from < |lines| {
      FirstShortfallNone(m, store, lines, reportMissing, from + 1);
    }
  }

  /** A reported shortfall names a line that does not fit, and every line before it fits. */
  lemma {:induction false} FirstShortfallSome(m: Ledger, store: int, lines: seq<Line>, reportMissing: bool, from: nat)
    requires from <= |lines|
    requires FirstShortfall(m, store, lines, reportMissing, from).Some?
    ensures exists j :: (
      && from <= j < |lines| && !Fits(m, store, lines[j])
      && (forall i :: from <= i < j ==> Fits(m, store, lines[i]))
      && FirstShortfall(m, store, lines, reportMissing, from).value
         == (if !HasRow(m, store, lines[j]) && reportMissing then StockNotConfigured(lines[j].productId)
             else StockInsufficient(lines[j].productId)))
    decreases |lines| - from
  {
    if Fits(m, store, lines[from]) {
      FirstShortfallSome(m, store, lines, reportMissing, from + 1);
    }
  }

  lemma {:induction false} FirstMissingNone(m: Ledger, store: int, lines: seq<Line>, from: nat)
    requires from <= |lines|
    ensures FirstMissing(m, store, lines, from).None?
        <==> forall j :: from <= j < |lines| ==> HasRow(m, store, lines[j])
    decreases |lines| - from
  {
    if from < |lines| {
      FirstMissingNone(m, store, lines, from + 1);
    }
  }

  /** Decrementing one more line's row extends the debit by that line. */
  lemma DebitedStep(m: Ledger, store: int, lines: seq<Line>, i: nat)
    requires i < |lines| && HasRow(m, store, lines[i])
    ensures var k := (lines[i].productId, store);
      Debited(m, store, lines[..i + 1]) == Debited(m, store, lines[..i])[k := Debited(m, store, lines[..i])[k] - lines[i].cantidad]
  {
    assert lines[..i + 1][..i] == lines[..i];
  }

  /** Incrementing one more line's row extends the credit by that line. */
  lemma CreditedStep(m: Ledger, store: int, lines: seq<Line>, i: nat)
    requires i < |lines| && HasRow(m, store, lines[i])
    ensures var k := (lines[i].productId, store);
      Credited(m, store, lines[..i + 1]) == Credited(m, store, lines[..i])[k := Credited(m, store, lines[..i])[k] + lines[i].cantidad]
  {
    assert lines[..i + 1][..i] == lines[..i];
  }

  /** A credit undoes a debit of the same lines at the same store, and the other way round. */
  lemma CreditUndoesDebit(m: Ledger, store: int, lines: seq<Line>)
    ensures Credited(Debited(m, store, lines), store, lines) == m
    ensures Debited(Credited(m, store, lines), store, lines) == m
  {
  }

  lemma {:induction false} DemandNonNegative(lines: seq<Line>, p: int)
    requires forall i :: 0 <= i < |lines| ==> lines[i].cantidad > 0
    ensures Demand(lines, p) >= 0
  {
    if lines != [] {
      DemandNonNegative(lines[..|lines| - 1], p);
    }
  }

  /** A product no line names is asked for nothing. */
  lemma {:induction false} DemandAbsent(lines: seq<Line>, p: int)
    requires forall i :: 0 <= i < |lines| ==> lines[i].productId != p
    ensures Demand(lines, p) == 0
  {
    if lines != [] {
      var n := |lines| - 1;
      DemandAbsent(lines[..n], p);
    }
  }

  /** With distinct products, a product's demand is the cantidad of its one line. */
  lemma {:induction false} DemandDistinct(lines: seq<Line>, j: nat)
    requires DistinctProducts(lines) && j < |lines|
    ensures Demand(lines, lines[j].productId) == lines[j].cantidad
  {
    var n := |lines| - 1;
    var p := lines[j].productId;
    if j == n {
      DemandAbsent(lines[..n], p);
    } else {
      DemandDistinct(lines[..n], j);
    }
  }

  /** Debiting lines of distinct products that each fit their row keeps every row non-negative. */
  lemma DebitedNonNegative(m: Ledger, store: int, lines: seq<Line>)
    requires NonNegative(m) && DistinctProducts(lines)
    requires forall j :: 0 <= j < |lines| ==> Fits(m, store, lines[j])
    ensures NonNegative(Debited(m, store, lines))
  {
    forall k | k in m && k.1 == store ensures m[k] - Demand(lines, k.0) >= 0 {
      if j :| 0 <= j < |lines| && lines[j].productId == k.0 {
        DemandDistinct(lines, j);
      } else {
        DemandAbsent(lines, k.0);
      }
    }
  }

  /** Crediting lines of positive quantity keeps every row non-negative. */
  lemma CreditedNonNegative(m: Ledger, store: int, lines: seq<Line>)
    requires NonNegative(m)
    requires forall i :: 0 <= i < |lines| ==> lines[i].cantidad > 0
    ensures NonNegative(Credited(m, store, lines))
  {
    forall k | k in m && k.1 == store ensures m[k] + Demand(lines, k.0) >= 0 {
      DemandNonNegative(lines, k.0);
    }
  }

  /** The per-line stock check run at the start of a transaction: the first line that
      does not fit its row, or None. Reads the ledger and changes nothing. */
  method CheckStock(m: Ledger, store: int, lines: seq<Line>, reportMissing: bool) returns (shortfall: Option<Error>)
    ensures shortfall == FirstShortfall(m, store, lines, reportMissing, 0)
  {
    for i := 0 to |lines|
      invariant FirstShortfall(m, store, lines, reportMissing, 0) == FirstShortfall(m, store, lines, reportMissing, i)
    {
      var it := lines[i];
      var key := (it.productId, store);
      if key !in m {
        return Some(if reportMissing then StockNotConfigured(it.productId) else StockInsufficient(it.productId));
      }
      if m[key] < it.cantidad {
        return Some(StockInsufficient(it.productId));
      }
    }
    shortfall := None;
  }

  /** Increments, one line at a time, each line's row at `store` by its cantidad, on a
      transaction copy of the ledger; a missing row aborts with RowMissing. */
  method AddBack(m: Ledger, store: int, lines: seq<Line>) returns (r: Result<Ledger, Error>)
    ensures var missing := FirstMissing(m, store, lines, 0);
      if missing.Some? then r == Err(RowMissing(missing.value)) else r == Ok(Credited(m, store, lines))
  {
    var tx := m;
    for i := 0 to |lines|
      invariant FirstMissing(m, store, lines, 0) == FirstMissing(m, store, lines, i)
      invariant tx == Credited(m, store, lines[..i])
    {
      var it := lines[i];
      var key := (it.productId, store);
      if key !in tx {
        return Err(RowMissing(it.productId));
      }
      CreditedStep(m, store, lines, i);
      tx := tx[key := tx[key] + it.cantidad];
    }
    assert lines[..|lines|] == lines;
    r := Ok(tx);
  }
}
