/**
 * calcTotals (src/modules/sales/sales.service.js:10-25): validates the raw lines of a
 * sale, prices each one and sums the line subtotals.
 *
 * Money is integer cents and quantities are integers, so `toFixed(2)` on a product
 * or on a sum of cents is exact and is the identity here.
 */
module Totals {
  import opened Wrappers
  import opened Errors

  /** A line as the caller sends it; `productId` is None when absent. */
  datatype RawLine = RawLine(productId: Option<int>, cantidad: int, precio: int)

  /** A validated, priced line (a SaleItem without its owner). */
  datatype Line = Line(productId: int, cantidad: int, precio: int, subtotal: int)

  datatype Totals = Totals(items: seq<Line>, subtotal: int, total: int)

  /** JavaScript truthiness of an optional id: absent and 0 are falsy. */
  predicate Truthy(id: Option<int>) {
    id.Some? && id.value != 0
  }

  predicate ValidRaw(r: RawLine) {
    Truthy(r.productId) && r.cantidad > 0 && r.precio > 0
  }

  predicate AllValid(raw: seq<RawLine>) {
    forall i :: 0 <= i < |raw| ==> ValidRaw(raw[i])
  }

  function PriceLine(r: RawLine): Line
    requires ValidRaw(r)
  {
    Line(r.productId.value, r.cantidad, r.precio, r.cantidad * r.precio)
  }

  /** The priced lines, in input order. */
  function Priced(raw: seq<RawLine>): (lines: seq<Line>)
    requires AllValid(raw)
    ensures |lines| == |raw|
    ensures forall i :: 0 <= i < |raw| ==>
      && lines[i].productId == raw[i].productId.value
      && lines[i].cantidad == raw[i].cantidad
      && lines[i].precio == raw[i].precio
      && lines[i].subtotal == raw[i].cantidad * raw[i].precio
  {
    seq(|raw|, i requires 0 <= i < |raw| => PriceLine(raw[i]))
  }

  /** Sum of the line subtotals, added left to right. */
  function SumSubtotals(lines: seq<Line>): int
  {
    if lines == [] then 0 else SumSubtotals(lines[..|lines| - 1]) + lines[|lines| - 1].subtotal
  }

  /** A stored line is consistent when it could have come out of calcTotals. */
  predicate LineConsistent(l: Line) {
    l.cantidad > 0 && l.precio > 0 && l.subtotal == l.cantidad * l.precio
  }

  /**
   * calcTotals: the whole batch is rejected if any line is invalid; otherwise the
   * priced lines in input order with subtotal == total == the sum of line subtotals.
   */
  method CalcTotals(raw: seq<RawLine>) returns (r: Result<Totals, Error>)
    ensures r.Err? <==> !AllValid(raw)
    ensures r.Err? ==> r.error == ItemInvalid
    ensures r.Ok? ==> AllValid(raw) && r.value.items == Priced(raw)
    ensures r.Ok? ==> r.value.subtotal == r.value.total == SumSubtotals(r.value.items)
  {
    var subtotal := 0;
    var norm: seq<Line> := [];
    for i := 0 to |raw|
      invariant AllValid(raw[..i])
      invariant |norm| == i
      invariant forall j :: 0 <= j < i ==> norm[j] == PriceLine(raw[j])
      invariant subtotal == SumSubtotals(norm)
    {
      var it := raw[i];
      if !Truthy(it.productId) || it.cantidad <= 0 || it.precio <= 0 {
        return Err(ItemInvalid);
      }
      var sub := it.cantidad * it.precio;
      subtotal := subtotal + sub;
      norm := norm + [Line(it.productId.value, it.cantidad, it.precio, sub)];
    }
    r := Ok(Totals(norm, subtotal, subtotal));
  }
}
