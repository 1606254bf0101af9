/**
 * Properties of the sale transaction engine, stated over the functions that specify
 * SalesService (module Sales).
 */
module SalesProperties {
  import opened Wrappers
  import opened Errors
  import opened Totals
  import opened StockLedger
  import opened Sales

  /** Everything create checks before it opens its transaction. */
  predicate CreateInputAccepted(input: CreateInput) {
    && Truthy(input.storeId) && Truthy(input.userId) && Present(input.tipoDocumento)
    && input.items.Some? && input.items.value != [] && AllValid(input.items.value)
  }

  // ---------------------------------------------------------------- create

  /** An input rejected by validation is rejected with the same error whatever the state. */
  lemma CreateValidationIgnoresState(db1: Db, db2: Db, input: CreateInput)
    requires !CreateInputAccepted(input)
    ensures CreateSale(db1, input).Err?
    ensures CreateSale(db1, input) == CreateSale(db2, input)
    ensures CreateSale(db1, input).error in {StoreAndUserRequired, DocumentTypeRequired, ItemsRequired, ItemInvalid}
  {
  }

  /** create succeeds exactly when the input is valid and every line, on its own, fits its row. */
  lemma CreateSucceedsIff(db: Db, input: CreateInput)
    ensures CreateSale(db, input).Ok? <==>
      && CreateInputAccepted(input)
      && forall j :: 0 <= j < |input.items.value| ==>
           Fits(db.stock, input.storeId.value, Priced(input.items.value)[j])
  {
    if CreateInputAccepted(input) {
      FirstShortfallNone(db.stock, input.storeId.value, Priced(input.items.value), true, 0);
    }
  }

  /** A stock failure names the first line that does not fit: a missing row is
      StockNotConfigured, a short one StockInsufficient. */
  lemma CreateStockError(db: Db, input: CreateInput)
    requires CreateInputAccepted(input) && CreateSale(db, input).Err?
    ensures var lines, store := Priced(input.items.value), input.storeId.value;
      exists j :: (
        && 0 <= j < |lines| && !Fits(db.stock, store, lines[j])
        && (forall i :: 0 <= i < j ==> Fits(db.stock, store, lines[i]))
        && CreateSale(db, input).error
           == if !HasRow(db.stock, store, lines[j]) then StockNotConfigured(lines[j].productId)
              else StockInsufficient(lines[j].productId))
  {
    FirstShortfallSome(db.stock, input.storeId.value, Priced(input.items.value), true, 0);
  }

  /** On success the new sale is added under a fresh id with the priced lines in input
      order and its totals, and no other sale changes. */
  lemma CreateRecordsSale(db: Db, input: CreateInput)
    requires DbValid(db) && CreateInputAccepted(input) && CreateSale(db, input).Ok?
    ensures var db', id := CreateSale(db, input).value.0, CreateSale(db, input).value.1;
      var lines := Priced(input.items.value);
      && id !in db.sales
      && db'.sales.Keys == db.sales.Keys + {id}
      && (forall other :: other in db.sales ==> db'.sales[other] == db.sales[other])
      && db'.sales[id] == Sale(input.storeId.value, input.userId.value, input.tipoDocumento.value,
                               SumSubtotals(lines), SumSubtotals(lines), Activa, None, lines)
      && GetSale(db', id) == Ok(db'.sales[id])
  {
  }

  /** With distinct products, each line's row goes down by exactly that line's cantidad. */
  lemma CreateDebitsEachLine(db: Db, input: CreateInput, j: nat)
    requires CreateInputAccepted(input) && CreateSale(db, input).Ok?
    requires DistinctProducts(Priced(input.items.value)) && j < |input.items.value|
    ensures var l, k := Priced(input.items.value)[j], (input.items.value[j].productId.value, input.storeId.value);
      var db' := CreateSale(db, input).value.0;
      k in db.stock && k in db'.stock && db'.stock[k] == db.stock[k] - l.cantidad
  {
    var lines, store := Priced(input.items.value), input.storeId.value;
    FirstShortfallNone(db.stock, store, lines, true, 0);
    DemandDistinct(lines, j);
  }

  /** Rows of other stores, and rows of products no line names, are left as they were. */
  lemma CreateLeavesOtherRows(db: Db, input: CreateInput, k: (int, int))
    requires CreateInputAccepted(input) && CreateSale(db, input).Ok?
    requires k.1 != input.storeId.value
          || forall i :: 0 <= i < |input.items.value| ==> input.items.value[i].productId.value != k.0
    ensures var db' := CreateSale(db, input).value.0;
      (k in db'.stock <==> k in db.stock) && (k in db.stock ==> db'.stock[k] == db.stock[k])
  {
    var lines := Priced(input.items.value);
    if k.1 == input.storeId.value {
      DemandAbsent(lines, k.0);
    }
  }

  /** create keeps every row non-negative when its lines name distinct products. */
  lemma CreateKeepsStockNonNegative(db: Db, input: CreateInput)
    requires CreateInputAccepted(input) && CreateSale(db, input).Ok?
    requires NonNegative(db.stock) && DistinctProducts(Priced(input.items.value))
    ensures NonNegative(CreateSale(db, input).value.0.stock)
  {
    var lines, store := Priced(input.items.value), input.storeId.value;
    FirstShortfallNone(db.stock, store, lines, true, 0);
    DebitedNonNegative(db.stock, store, lines);
  }

  /** Each line is checked against the undecremented row, so two lines of one product
      that each fit can together overdraw it: 5 units, two lines of 3, row ends at -1. */
  lemma DuplicateLinesOverdraw()
    ensures var db := Db(map[(1, 1) := 5], map[], 1);
      var input := CreateInput(Some(1), Some(1), Some("BOLETA"),
                               Some([RawLine(Some(1), 3, 350), RawLine(Some(1), 3, 350)]));
      CreateSale(db, input).Ok? && CreateSale(db, input).value.0.stock[(1, 1)] == -1
  {
    var raw := [RawLine(Some(1), 3, 350), RawLine(Some(1), 3, 350)];
    var lines := Priced(raw);
    assert lines == [Line(1, 3, 350, 1050), Line(1, 3, 350, 1050)];
    assert lines[..1] == [Line(1, 3, 350, 1050)];
    assert Demand(lines[..1], 1) == 3 by {
      assert lines[..1][..0] == [];
    }
  }

  // ---------------------------------------------------------------- update

  /** update succeeds exactly when the sale is live and ACTIVA, the lines are valid, every
      old line's row exists at the sale's store, and every new line fits the ledger with
      the old lines added back. */
  lemma UpdateSucceedsIff(db: Db, id: int, input: UpdateInput)
    ensures UpdateSale(db, id, input).Ok? <==>
      && Live(db, id) && db.sales[id].estado == Activa
      && input.items.Some? && AllValid(input.items.value)
      && (forall j :: 0 <= j < |db.sales[id].items| ==>
            HasRow(db.stock, db.sales[id].storeId, db.sales[id].items[j]))
      && (forall j :: 0 <= j < |input.items.value| ==>
            Fits(Credited(db.stock, db.sales[id].storeId, db.sales[id].items),
                 db.sales[id].storeId, Priced(input.items.value)[j]))
  {
    if Live(db, id) && input.items.Some? && AllValid(input.items.value) {
      var sale := db.sales[id];
      FirstMissingNone(db.stock, sale.storeId, sale.items, 0);
      FirstShortfallNone(Credited(db.stock, sale.storeId, sale.items), sale.storeId,
                         Priced(input.items.value), false, 0);
    }
  }

  /** Every row of the sale's original store ends at old + old demand - new demand; rows of
      other stores are untouched, even when the stored storeId changes. */
  lemma UpdateNetEffect(db: Db, id: int, input: UpdateInput, k: (int, int))
    requires Live(db, id) && input.items.Some? && AllValid(input.items.value)
    requires UpdateSale(db, id, input).Ok?
    ensures var sale, db' := db.sales[id], UpdateSale(db, id, input).value.0;
      && (k in db'.stock <==> k in db.stock)
      && (k in db.stock && k.1 == sale.storeId ==>
            db'.stock[k] == db.stock[k] + Demand(sale.items, k.0) - Demand(Priced(input.items.value), k.0))
      && (k in db.stock && k.1 != sale.storeId ==> db'.stock[k] == db.stock[k])
  {
  }

  /** The items are replaced wholesale, the totals recomputed, tipoDocumento kept only when
      absent, storeId replaced when truthy; nothing else in the table changes. */
  lemma UpdateRewritesSale(db: Db, id: int, input: UpdateInput)
    requires Live(db, id) && input.items.Some? && AllValid(input.items.value)
    requires UpdateSale(db, id, input).Ok?
    ensures var sale, db', s := db.sales[id], UpdateSale(db, id, input).value.0, UpdateSale(db, id, input).value.1;
      var lines := Priced(input.items.value);
      && db'.sales == db.sales[id := s]
      && s.items == lines
      && s.subtotal == s.total == SumSubtotals(lines)
      && s.tipoDocumento == (if input.tipoDocumento.None? then sale.tipoDocumento else input.tipoDocumento.value)
      && s.storeId == (if Truthy(input.storeId) then input.storeId.value else sale.storeId)
      && s.userId == sale.userId && s.estado == Activa && s.deletedAt.None?
  {
  }

  /** Re-submitting a sale's own lines leaves the ledger exactly as it was. */
  lemma UpdateSameLinesKeepsLedger(db: Db, id: int, input: UpdateInput)
    requires Live(db, id) && input.items.Some? && AllValid(input.items.value)
    requires Priced(input.items.value) == db.sales[id].items
    requires UpdateSale(db, id, input).Ok?
    ensures UpdateSale(db, id, input).value.0.stock == db.stock
  {
  }

  /** update keeps every row non-negative when its new lines name distinct products. */
  lemma UpdateKeepsStockNonNegative(db: Db, id: int, input: UpdateInput)
    requires DbValid(db) && NonNegative(db.stock)
    requires Live(db, id) && input.items.Some? && AllValid(input.items.value)
    requires DistinctProducts(Priced(input.items.value))
    requires UpdateSale(db, id, input).Ok?
    ensures NonNegative(UpdateSale(db, id, input).value.0.stock)
  {
    var sale := db.sales[id];
    var lines := Priced(input.items.value);
    assert SaleConsistent(sale);
    CreditedNonNegative(db.stock, sale.storeId, sale.items);
    var restored := Credited(db.stock, sale.storeId, sale.items);
    FirstShortfallNone(restored, sale.storeId, lines, false, 0);
    DebitedNonNegative(restored, sale.storeId, lines);
  }

  /** Duplicate lines overdraw on update too: a row of 5 holding a sale of 1 unit is edited
      to two lines of 3 units; each line fits the restored row of 5, and the row ends at -1. */
  lemma UpdateDuplicateLinesOverdraw()
    ensures var db0 := Db(map[(1, 1) := 5], map[], 1);
      var created := CreateSale(db0, CreateInput(Some(1), Some(1), Some("BOLETA"),
                                                 Some([RawLine(Some(1), 1, 350)])));
      && created.Ok? && created.value.1 == 1
      && var twice := [RawLine(Some(1), 3, 350), RawLine(Some(1), 3, 350)];
      && var updated := UpdateSale(created.value.0, 1, UpdateInput(None, None, Some(twice)));
      && updated.Ok?
      && updated.value.0.stock[(1, 1)] == -1
  {
    var one := [Line(1, 1, 350, 350)];
    assert Priced([RawLine(Some(1), 1, 350)]) == one;
    assert Demand(one, 1) == 1;
    var lines := Priced([RawLine(Some(1), 3, 350), RawLine(Some(1), 3, 350)]);
    assert lines == [Line(1, 3, 350, 1050), Line(1, 3, 350, 1050)];
    assert Demand(lines[..1], 1) == 3 by {
      assert lines[..1][..0] == [];
    }
  }

  // ---------------------------------------------------------------- void and getById

  /** void keeps every row non-negative: it only adds back positive quantities. */
  lemma VoidKeepsStockNonNegative(db: Db, id: int, now: int)
    requires DbValid(db) && NonNegative(db.stock)
    requires VoidSale(db, id, now).Ok?
    ensures NonNegative(VoidSale(db, id, now).value.0.stock)
  {
    assert SaleConsistent(db.sales[id]);
    CreditedNonNegative(db.stock, db.sales[id].storeId, db.sales[id].items);
  }

  /** Voiding a sale right after creating it restores the ledger exactly. */
  lemma CreateThenVoidRestoresLedger(db: Db, input: CreateInput, now: int)
    requires CreateInputAccepted(input) && CreateSale(db, input).Ok?
    ensures var db1, id := CreateSale(db, input).value.0, CreateSale(db, input).value.1;
      && VoidSale(db1, id, now).Ok?
      && VoidSale(db1, id, now).value.0.stock == db.stock
      && VoidSale(db1, id, now).value.1.estado == Anulada
  {
    var lines, store := Priced(input.items.value), input.storeId.value;
    var db1, id := CreateSale(db, input).value.0, CreateSale(db, input).value.1;
    FirstShortfallNone(db.stock, store, lines, true, 0);
    FirstMissingNone(db1.stock, store, lines, 0);
    CreditUndoesDebit(db.stock, store, lines);
  }

  /** After a void the sale is soft-deleted: void, update and getById all answer 404. */
  lemma VoidIsTerminal(db: Db, id: int, now: int, later: int, input: UpdateInput)
    requires VoidSale(db, id, now).Ok?
    ensures var db' := VoidSale(db, id, now).value.0;
      && VoidSale(db', id, later) == Err(SaleNotFound)
      && UpdateSale(db', id, input) == Err(SaleNotFound)
      && GetSale(db', id) == Err(SaleNotFound)
  {
  }

  /** In a consistent table a live sale is ACTIVA, so "Venta ya anulada" and the
      "only ACTIVA sales" rejection of update cannot happen. */
  lemma NotActiveRejectionsUnreachable(db: Db, id: int, now: int, input: UpdateInput)
    requires DbValid(db)
    ensures VoidSale(db, id, now) != Err(SaleAlreadyVoided)
    ensures UpdateSale(db, id, input) != Err(SaleNotEditable)
    ensures GetSale(db, id).Ok? ==> GetSale(db, id).value.estado == Activa
  {
    if id in db.sales {
      var sale := db.sales[id];
      assert SaleConsistent(sale);
      if Live(db, id) && input.items.Some? && AllValid(input.items.value) {
        var restored := Credited(db.stock, sale.storeId, sale.items);
        var lines := Priced(input.items.value);
        if FirstShortfall(restored, sale.storeId, lines, false, 0).Some? {
          FirstShortfallSome(restored, sale.storeId, lines, false, 0);
        }
      }
    }
  }

  // ---------------------------------------------------------------- consistency

  lemma CreatePreservesValid(db: Db, input: CreateInput)
    requires DbValid(db) && CreateSale(db, input).Ok?
    ensures DbValid(CreateSale(db, input).value.0)
  {
  }

  lemma UpdatePreservesValid(db: Db, id: int, input: UpdateInput)
    requires DbValid(db) && UpdateSale(db, id, input).Ok?
    ensures DbValid(UpdateSale(db, id, input).value.0)
  {
  }

  lemma VoidPreservesValid(db: Db, id: int, now: int)
    requires DbValid(db) && VoidSale(db, id, now).Ok?
    ensures DbValid(VoidSale(db, id, now).value.0)
  {
  }

  // ---------------------------------------------------------------- store change in update

  /** update applies all stock effects at the sale's original store but stores the new
      storeId, so a later void adds the stock back at the new store: store 1 stays debited
      and store 2 gains stock it never lost. */
  lemma StoreChangeMisdirectsVoid()
    ensures var db0 := Db(map[(1, 1) := 10, (1, 2) := 10], map[], 1);
      var items := [RawLine(Some(1), 4, 100)];
      var created := CreateSale(db0, CreateInput(Some(1), Some(1), Some("BOLETA"), Some(items)));
      && created.Ok? && created.value.1 == 1
      && var updated := UpdateSale(created.value.0, 1, UpdateInput(Some(2), None, Some(items)));
      && updated.Ok? && updated.value.1.storeId == 2
      && var voided := VoidSale(updated.value.0, 1, 0);
      && voided.Ok?
      && voided.value.0.stock == map[(1, 1) := 6, (1, 2) := 14]
  {
    var lines := [Line(1, 4, 100, 400)];
    assert Priced([RawLine(Some(1), 4, 100)]) == lines;
    assert Demand(lines, 1) == 4;
  }

  /** When the new store has no row for the product, the sale can no longer be voided:
      void fails on the missing row and the debit at store 1 is never given back. */
  lemma StoreChangeBlocksVoid()
    ensures var db0 := Db(map[(1, 1) := 10], map[], 1);
      var items := [RawLine(Some(1), 4, 100)];
      var created := CreateSale(db0, CreateInput(Some(1), Some(1), Some("BOLETA"), Some(items)));
      && created.Ok?
      && var updated := UpdateSale(created.value.0, 1, UpdateInput(Some(2), None, Some(items)));
      && updated.Ok?
      && updated.value.0.stock == map[(1, 1) := 6]
      && VoidSale(updated.value.0, 1, 0) == Err(RowMissing(1))
  {
    var lines := [Line(1, 4, 100, 400)];
    assert Priced([RawLine(Some(1), 4, 100)]) == lines;
    assert Demand(lines, 1) == 4;
  }

  // ---------------------------------------------------------------- worked examples

  /** 100 units; a sale of 10 at 3.50 totals 35.00 and leaves 90; editing it to 20 leaves 80
      and totals 70.00; voiding it gives all 100 back. */
  lemma SellEditVoidExample()
    ensures var db0 := Db(map[(1, 1) := 100], map[], 1);
      var created := CreateSale(db0, CreateInput(Some(1), Some(1), Some("BOLETA"), Some([RawLine(Some(1), 10, 350)])));
      && created.Ok? && created.value.1 == 1
      && created.value.0.sales[1].total == 3500 && created.value.0.stock[(1, 1)] == 90
      && var edited := UpdateSale(created.value.0, 1, UpdateInput(None, None, Some([RawLine(Some(1), 20, 350)])));
      && edited.Ok? && edited.value.1.total == 7000 && edited.value.0.stock[(1, 1)] == 80
      && var voided := VoidSale(edited.value.0, 1, 0);
      && voided.Ok? && voided.value.1.estado == Anulada && voided.value.0.stock[(1, 1)] == 100
  {
    var first, second := [Line(1, 10, 350, 3500)], [Line(1, 20, 350, 7000)];
    assert Priced([RawLine(Some(1), 10, 350)]) == first;
    assert Priced([RawLine(Some(1), 20, 350)]) == second;
    assert Demand(first, 1) == 10;
    assert Demand(second, 1) == 20;
  }

  /** 5 units and a line of 10: create fails with insufficient stock. */
  lemma InsufficientStockExample()
    ensures var db0 := Db(map[(1, 1) := 5], map[], 1);
      CreateSale(db0, CreateInput(Some(1), Some(1), Some("BOLETA"), Some([RawLine(Some(1), 10, 350)])))
        == Err(StockInsufficient(1))
  {
    assert Priced([RawLine(Some(1), 10, 350)]) == [Line(1, 10, 350, 3500)];
  }
}
