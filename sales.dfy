/**
 * The sale transaction engine (src/modules/sales/sales.service.js): create, update,
 * void and getById over a stock ledger and a sale table.
 *
 * Each `$transaction` is one atomic step: a thrown error leaves the ledger and the
 * sale table as they were. The pure functions CreateSale, UpdateSale, VoidSale and
 * GetSale state each operation on a value `Db`; the class SalesService holds the
 * same state in fields and runs the source's loops, and each of its methods is
 * proved to do exactly what the corresponding function says.
 */
module Sales {
  import opened Wrappers
  import opened Errors
  import opened Totals
  import opened StockLedger

  datatype Estado = Activa | Anulada

  /** A sale row with its items in line order; `deletedAt` is the soft-delete timestamp. */
  datatype Sale = Sale(
    storeId: int,
    userId: int,
    tipoDocumento: string,
    subtotal: int,
    total: int,
    estado: Estado,
    deletedAt: Option<int>,
    items: seq<Line>)

  /** The persistent state: the stock ledger, the sale table and the next autoincrement id. */
  datatype Db = Db(stock: Ledger, sales: map<int, Sale>, nextId: int)

  /** Arguments of `create`; None stands for a missing (undefined/null) field, and
      `items` is None when it is not an array. */
  datatype CreateInput = CreateInput(
    storeId: Option<int>,
    userId: Option<int>,
    tipoDocumento: Option<string>,
    items: Option<seq<RawLine>>)

  /** Arguments of `update`, with the same conventions. */
  datatype UpdateInput = UpdateInput(
    storeId: Option<int>,
    tipoDocumento: Option<string>,
    items: Option<seq<RawLine>>)

  /** JavaScript truthiness of an optional string. */
  predicate Present(s: Option<string>) {
    s.Some? && s.value != ""
  }

  /** The sale exists and is not soft-deleted. */
  predicate Live(db: Db, id: int) {
    id in db.sales && db.sales[id].deletedAt.None?
  }

  /** create (sales.service.js:28-93). On success: the new ledger and table, and the new sale's id. */
  function CreateSale(db: Db, input: CreateInput): Result<(Db, int), Error>
  {
    if !Truthy(input.storeId) || !Truthy(input.userId) then Err(StoreAndUserRequired)
    else if !Present(input.tipoDocumento) then Err(DocumentTypeRequired)
    else if input.items.None? || input.items.value == [] then Err(ItemsRequired)
    else if !AllValid(input.items.value) then Err(ItemInvalid)
    else
      var store := input.storeId.value;
      var lines := Priced(input.items.value);
      var shortfall := FirstShortfall(db.stock, store, lines, true, 0);
      if shortfall.Some? then Err(shortfall.value)
      else
        var total := SumSubtotals(lines);
        var sale := Sale(store, input.userId.value, input.tipoDocumento.value, total, total, Activa, None, lines);
        Ok((Db(Debited(db.stock, store, lines), db.sales[db.nextId := sale], db.nextId + 1), db.nextId))
  }

  /** update (sales.service.js:95-172). On success: the new ledger and table, and the updated sale. */
  function UpdateSale(db: Db, id: int, input: UpdateInput): Result<(Db, Sale), Error>
  {
    if !Live(db, id) then Err(SaleNotFound)
    else
      var sale := db.sales[id];
      if sale.estado != Activa then Err(SaleNotEditable)
      else if input.items.None? then Err(ItemsNotIterable)
      else if !AllValid(input.items.value) then Err(ItemInvalid)
      else
        var missing := FirstMissing(db.stock, sale.storeId, sale.items, 0);
        if missing.Some? then Err(RowMissing(missing.value))
        else
          var restored := Credited(db.stock, sale.storeId, sale.items);
          var lines := Priced(input.items.value);
          var shortfall := FirstShortfall(restored, sale.storeId, lines, false, 0);
          if shortfall.Some? then Err(shortfall.value)
          else
            var total := SumSubtotals(lines);
            var updated := sale.(
              tipoDocumento := input.tipoDocumento.GetOr(sale.tipoDocumento),
              subtotal := total,
              total := total,
              storeId := if Truthy(input.storeId) then input.storeId.value else sale.storeId,
              items := lines);
            Ok((db.(stock := Debited(restored, sale.storeId, lines), sales := db.sales[id := updated]), updated))
  }

  /** void (sales.service.js:174-202); `now` is the clock reading stamped into deletedAt. */
  function VoidSale(db: Db, id: int, now: int): Result<(Db, Sale), Error>
  {
    if !Live(db, id) then Err(SaleNotFound)
    else
      var sale := db.sales[id];
      if sale.estado != Activa then Err(SaleAlreadyVoided)
      else
        var missing := FirstMissing(db.stock, sale.storeId, sale.items, 0);
        if missing.Some? then Err(RowMissing(missing.value))
        else
          var voided := sale.(estado := Anulada, deletedAt := Some(now));
          Ok((db.(stock := Credited(db.stock, sale.storeId, sale.items), sales := db.sales[id := voided]), voided))
  }

  /** getById (sales.service.js:204-212). */
  function GetSale(db: Db, id: int): (r: Result<Sale, Error>)
    ensures r.Ok? <==> id in db.sales && db.sales[id].deletedAt.None?
    ensures r.Ok? ==> r.value == db.sales[id]
    ensures r.Err? ==> r.error == SaleNotFound
  {
    if Live(db, id) then Ok(db.sales[id]) else Err(SaleNotFound)
  }

  /** Totals agree, every line is priced, and ANULADA goes with deletedAt and only with it. */
  predicate SaleConsistent(s: Sale) {
    && (forall i :: 0 <= i < |s.items| ==> LineConsistent(s.items[i]))
    && s.subtotal == s.total == SumSubtotals(s.items)
    && (s.estado == Anulada <==> s.deletedAt.Some?)
  }

  /** Every stored sale is consistent and has an id below the next autoincrement value. */
  predicate DbValid(db: Db) {
    && db.nextId >= 1
    && forall id :: id in db.sales ==> 1 <= id < db.nextId && SaleConsistent(db.sales[id])
  }

  /** The service over the database: the ledger and the sale table as fields. */
  class SalesService {
    var stock: Ledger
    var sales: map<int, Sale>
    var nextId: int

    function State(): Db
      reads this
    {
      Db(stock, sales, nextId)
    }

    constructor (initial: Ledger)
      ensures State() == Db(initial, map[], 1)
    {
      stock := initial;
      sales := map[];
      nextId := 1;
    }

    /** create: validation and pricing before the transaction; in it, the stock check of
        every line, then the sale, its items and the decrements. */
    method Create(input: CreateInput) returns (r: Result<int, Error>)
      modifies this
      ensures var spec := CreateSale(old(State()), input);
        if spec.Ok? then r == Ok(spec.value.1) && State() == spec.value.0
        else r == Err(spec.error) && State() == old(State())
    {
      if !Truthy(input.storeId) || !Truthy(input.userId) {
        return Err(StoreAndUserRequired);
      }
      if !Present(input.tipoDocumento) {
        return Err(DocumentTypeRequired);
      }
      if input.items.None? || |input.items.value| == 0 {
        return Err(ItemsRequired);
      }
      var totals := CalcTotals(input.items.value);
      if totals.Err? {
        return Err(totals.error);
      }
      var lines := totals.value.items;
      var store := input.storeId.value;

      // $transaction: the check phase reads the committed ledger
      var shortfall := CheckStock(stock, store, lines, true);
      if shortfall.Some? {
        return Err(shortfall.value);
      }
      FirstShortfallNone(stock, store, lines, true, 0);

      var id := nextId;
      var header := Sale(store, input.userId.value, input.tipoDocumento.value,
                         totals.value.subtotal, totals.value.total, Activa, None, []);
      var txSales := sales[id := header];
      var txStock := stock;
      for i := 0 to |lines|
        modifies {}
        invariant txSales == sales[id := header.(items := lines[..i])]
        invariant txStock == Debited(stock, store, lines[..i])
      {
        var it := lines[i];
        var key := (it.productId, store);
        assert lines[..i + 1] == lines[..i] + [it];
        txSales := txSales[id := txSales[id].(items := txSales[id].items + [it])];
        DebitedStep(stock, store, lines, i);
        txStock := txStock[key := txStock[key] - it.cantidad];
      }
      assert lines[..|lines|] == lines;
      stock, sales, nextId := txStock, txSales, nextId + 1;
      r := Ok(id);
    }

    /** update: only a live ACTIVA sale; in one transaction the old lines are added back
        at the sale's store, the items deleted, the new lines checked and applied at that
        same store, and the header rewritten. */
    method Update(id: int, input: UpdateInput) returns (r: Result<Sale, Error>)
      modifies this
      ensures var spec := UpdateSale(old(State()), id, input);
        if spec.Ok? then r == Ok(spec.value.1) && State() == spec.value.0
        else r == Err(spec.error) && State() == old(State())
    {
      if id !in sales || sales[id].deletedAt.Some? {
        return Err(SaleNotFound);
      }
      var sale := sales[id];
      if sale.estado != Activa {
        return Err(SaleNotEditable);
      }
      if input.items.None? {
        return Err(ItemsNotIterable);
      }
      var totals := CalcTotals(input.items.value);
      if totals.Err? {
        return Err(totals.error);
      }
      var lines := totals.value.items;
      var store := sale.storeId;

      // $transaction: add back the old lines, then delete the old items
      var added := AddBack(stock, store, sale.items);
      if added.Err? {
        return Err(added.error);
      }
      var restored := added.value;
      var txStock := restored;
      var txSale := sale.(items := []);

      var shortfall := CheckStock(restored, store, lines, false);
      if shortfall.Some? {
        return Err(shortfall.value);
      }
      FirstShortfallNone(restored, store, lines, false, 0);

      for i := 0 to |lines|
        modifies {}
        invariant txSale == sale.(items := lines[..i])
        invariant txStock == Debited(restored, store, lines[..i])
      {
        var it := lines[i];
        var key := (it.productId, store);
        assert lines[..i + 1] == lines[..i] + [it];
        txSale := txSale.(items := txSale.items + [it]);
        DebitedStep(restored, store, lines, i);
        txStock := txStock[key := txStock[key] - it.cantidad];
      }
      assert lines[..|lines|] == lines;

      txSale := txSale.(
        tipoDocumento := input.tipoDocumento.GetOr(sale.tipoDocumento),
        subtotal := totals.value.subtotal,
        total := totals.value.total,
        storeId := if Truthy(input.storeId) then input.storeId.value else sale.storeId);
      stock, sales := txStock, sales[id := txSale];
      r := Ok(txSale);
    }

    /** void: only a live ACTIVA sale; in one transaction every item is added back at the
        sale's store and the sale becomes ANULADA with deletedAt stamped. */
    method Void(id: int, now: int) returns (r: Result<Sale, Error>)
      modifies this
      ensures var spec := VoidSale(old(State()), id, now);
        if spec.Ok? then r == Ok(spec.value.1) && State() == spec.value.0
        else r == Err(spec.error) && State() == old(State())
    {
      if id !in sales || sales[id].deletedAt.Some? {
        return Err(SaleNotFound);
      }
      var sale := sales[id];
      if sale.estado != Activa {
        return Err(SaleAlreadyVoided);
      }
      var store := sale.storeId;

      // $transaction
      var added := AddBack(stock, store, sale.items);
      if added.Err? {
        return Err(added.error);
      }
      var voided := sale.(estado := Anulada, deletedAt := Some(now));
      stock, sales := added.value, sales[id := voided];
      r := Ok(voided);
    }
  }
}
