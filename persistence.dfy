/**
 * Saving an invoice into the `facturas` table (app.py and app2.py
 * `save_invoice_data`). For every line item the code asks whether a row with
 * the same (invoice number, product code) exists and, if not, inserts one row
 * that repeats the invoice header. The table is a sequence of rows held by a
 * class; the database connection is reduced to "could be opened or not" and a
 * count of open connections.
 *
 * The decoded JSON reaches this code as a dictionary: a key may be absent
 * (a `KeyError`, here `None`) and a value may be JSON `null`, which the driver
 * passes on as SQL NULL. SQL's `=` never holds for NULL, so the existence
 * check never finds a row whose key is NULL.
 */
module Persistence {
  import opened Wrappers

  /** A decoded JSON scalar as the driver receives it: `null`, or its text. */
  datatype Value = Null | Str(text: string)

  /** One entry of "Detalles de Productos"; `None` marks an absent key. */
  datatype Item = Item(code: Option<Value>, description: Option<Value>, quantity: Option<Value>)

  /** The decoded invoice dictionary; `None` marks an absent key. */
  datatype Invoice = Invoice(number: Option<Value>, date: Option<Value>, client: Option<Value>,
                             provider: Option<Value>, total: Option<Value>, items: Option<seq<Item>>)

  /** One row of `facturas`, columns in the table's order. */
  datatype Row = Row(invoiceNumber: Value, date: Value, clientName: Value, providerName: Value,
                     total: Value, productCode: Value, productDescription: Value,
                     productQuantity: Value)

  /** The exceptions `save_invoice_data` raises. */
  datatype SaveError = ConnectionFailed | MissingKey(key: string) | CommitFailed

  const NumberKey := "Número de Factura"
  const DateKey := "Fecha"
  const ClientKey := "Nombre del Cliente"
  const ProviderKey := "Nombre del Proveedor"
  const TotalKey := "Total"
  const ItemsKey := "Detalles de Productos"
  const CodeKey := "Codigo Producto"
  const DescriptionKey := "Descripcion producto"
  const QuantityKey := "Cantidad"

  /** Python's `str` of a decoded scalar: `null` becomes the text "None". */
  function PyStr(v: Value): string
  {
    match v
    case Null => "None"
    case Str(t) => t
  }

  /** SQL `a = b`: true only for two equal non-NULL values. */
  predicate SqlEq(a: Value, b: Value)
  {
    a.Str? && a == b
  }

  /** The WHERE clause `invoice_number = number AND product_code = code`. */
  predicate Matches(row: Row, number: Value, code: Value)
  {
    SqlEq(row.invoiceNumber, number) && SqlEq(row.productCode, code)
  }

  /** `SELECT 1 FROM facturas WHERE ... LIMIT 1` returns a row. */
  predicate Exists(rows: seq<Row>, number: Value, code: Value)
  {
    exists i :: 0 <= i < |rows| && Matches(rows[i], number, code)
  }

  /** Some row holds exactly this key pair (NULLs included). */
  predicate Stored(rows: seq<Row>, number: Value, code: Value)
  {
    exists i :: 0 <= i < |rows| && rows[i].invoiceNumber == number && rows[i].productCode == code
  }

  /** No two rows share a non-NULL (invoice number, product code) pair. */
  predicate Unique(rows: seq<Row>)
  {
    forall i, j :: 0 <= i < j < |rows| ==> !Matches(rows[j], rows[i].invoiceNumber, rows[i].productCode)
  }

  /**
   * The INSERT's parameters, read in the order the call lists them; the first
   * absent key raises. A built row repeats the header, `Total` through `str`.
   */
  function NewRow(inv: Invoice, item: Item): (r: Result<Row, SaveError>)
    ensures r.Success? <==> inv.number.Some? && inv.date.Some? && inv.client.Some? &&
                            inv.provider.Some? && inv.total.Some? && item.code.Some? &&
                            item.description.Some? && item.quantity.Some?
    ensures r.Success? ==> r.value == Row(inv.number.value, inv.date.value, inv.client.value,
                                          inv.provider.value, Str(PyStr(inv.total.value)),
                                          item.code.value, item.description.value,
                                          item.quantity.value)
  {
    if inv.number.None? then Failure(MissingKey(NumberKey))
    else if inv.date.None? then Failure(MissingKey(DateKey))
    else if inv.client.None? then Failure(MissingKey(ClientKey))
    else if inv.provider.None? then Failure(MissingKey(ProviderKey))
    else if inv.total.None? then Failure(MissingKey(TotalKey))
    else if item.code.None? then Failure(MissingKey(CodeKey))
    else if item.description.None? then Failure(MissingKey(DescriptionKey))
    else if item.quantity.None? then Failure(MissingKey(QuantityKey))
    else Success(Row(inv.number.value, inv.date.value, inv.client.value, inv.provider.value,
                     Str(PyStr(inv.total.value)), item.code.value, item.description.value,
                     item.quantity.value))
  }

  /** The table after some iterations, and the exception that stopped them, if any. */
  datatype Progress = Progress(rows: seq<Row>, failure: Option<SaveError>)

  /**
   * One iteration of the loop: look the pair up, skip it or insert a row.
   * A matched pair is skipped; an unmatched pair whose keys are all present
   * is inserted; the only exception is an absent key, and it adds nothing.
   * An unmatched pair with an absent key always raises, NULL keys included.
   * An iteration without exception leaves the item's pair in the table.
   */
  function Step(rows: seq<Row>, inv: Invoice, item: Item): (r: Progress)
    ensures r.rows == rows || (|r.rows| == |rows| + 1 && r.rows[..|rows|] == rows)
    ensures r.rows != rows ==> inv.number.Some? && item.code.Some? &&
                               !Exists(rows, inv.number.value, item.code.value) &&
                               NewRow(inv, item) == Success(r.rows[|rows|])
    ensures inv.number.Some? && item.code.Some? && Exists(rows, inv.number.value, item.code.value) ==>
              r == Progress(rows, None)
    ensures inv.number.Some? && item.code.Some? && !Exists(rows, inv.number.value, item.code.value) &&
            NewRow(inv, item).Success? ==>
              r == Progress(rows + [NewRow(inv, item).value], None)
    ensures r.failure.Some? ==> r.rows == rows && r.failure.value.MissingKey? && NewRow(inv, item).Failure?
    ensures r.failure.None? ==> inv.number.Some? && item.code.Some? &&
                                Stored(r.rows, inv.number.value, item.code.value)
    ensures r.failure.None? <==> inv.number.Some? && item.code.Some? &&
                                 (Exists(rows, inv.number.value, item.code.value) ||
                                  NewRow(inv, item).Success?)
  {
    if inv.number.None? then Progress(rows, Some(MissingKey(NumberKey)))
    else if item.code.None? then Progress(rows, Some(MissingKey(CodeKey)))
    else if Exists(rows, inv.number.value, item.code.value) then Progress(rows, None)
    else
      match NewRow(inv, item)
      case Failure(e) => Progress(rows, Some(e))
      case Success(row) => Progress(rows + [row], None)
  }

  /**
   * The loop over `items`, stopping at the first exception. Rows already
   * present stay as they were, in place, at most one row is added per item,
   * and the only exception is an absent key.
   */
  function Run(rows: seq<Row>, inv: Invoice, items: seq<Item>): (r: Progress)
    ensures |rows| <= |r.rows| <= |rows| + |items| && r.rows[..|rows|] == rows
    ensures r.failure.Some? ==> r.failure.value.MissingKey?
    decreases |items|
  {
    if items == [] then Progress(rows, None)
    else
      var p := Run(rows, inv, items[..|items| - 1]);
      if p.failure.Some? then p else Step(p.rows, inv, items[|items| - 1])
  }

  /**
   * The whole body after the connection is open: the items lookup, then the
   * loop. An absent item list raises before anything is inserted; with every
   * key present the save raises nothing.
   */
  function SaveAll(rows: seq<Row>, inv: Invoice): (r: Progress)
    ensures |rows| <= |r.rows| && r.rows[..|rows|] == rows
    ensures inv.items.None? ==> r == Progress(rows, Some(MissingKey(ItemsKey)))
    ensures inv.items.Some? ==> |r.rows| <= |rows| + |inv.items.value|
    ensures inv.items.Some? && (forall m :: 0 <= m < |inv.items.value| ==> NewRow(inv, inv.items.value[m]).Success?) ==>
              r.failure.None?
    ensures r.failure.Some? ==> r.failure.value.MissingKey?
  {
    match inv.items
    case None => Progress(rows, Some(MissingKey(ItemsKey)))
    case Some(items) =>
      RunRaisesOnlyOnMissingKey(rows, inv, items);
      Run(rows, inv, items)
  }

  /**
   * The loop raises exactly when it reaches an item with an absent key: with
   * every key present it completes, and an exception names a missing key of
   * some item.
   */
  lemma {:induction false} RunRaisesOnlyOnMissingKey(rows: seq<Row>, inv: Invoice, items: seq<Item>)
    ensures (forall m :: 0 <= m < |items| ==> NewRow(inv, items[m]).Success?) ==>
              Run(rows, inv, items).failure.None?
    ensures Run(rows, inv, items).failure.Some? ==>
              exists m :: 0 <= m < |items| && NewRow(inv, items[m]).Failure?
    decreases |items|
  {
    if items != [] {
      var init := items[..|items| - 1];
      var last := items[|items| - 1];
      RunRaisesOnlyOnMissingKey(rows, inv, init);
      var p := Run(rows, inv, init);
      if p.failure.Some? {
        var m :| 0 <= m < |init| && NewRow(inv, init[m]).Failure?;
        assert init[m] == items[m];
      } else if Run(rows, inv, items).failure.Some? {
        assert NewRow(inv, items[|items| - 1]).Failure?;
      }
      if forall m :: 0 <= m < |items| ==> NewRow(inv, items[m]).Success? {
        forall m | 0 <= m < |init| ensures NewRow(inv, init[m]).Success? {
          assert init[m] == items[m];
        }
        assert NewRow(inv, last).Success?;
      }
    }
  }

  /**
   * Partial overlap: when the first item's pair is already stored and the
   * second's is not, exactly the second item's row is added.
   */
  lemma PartialOverlapInsertsOther(rows: seq<Row>, inv: Invoice, stored: Item, added: Item)
    requires NewRow(inv, stored).Success? && NewRow(inv, added).Success?
    requires Exists(rows, inv.number.value, stored.code.value)
    requires !Exists(rows, inv.number.value, added.code.value)
    ensures Run(rows, inv, [stored, added]) == Progress(rows + [NewRow(inv, added).value], None)
  {
    assert [stored][..0] == [];
    assert Run(rows, inv, []) == Progress(rows, None);
    assert Run(rows, inv, [stored]) == Step(rows, inv, stored) == Progress(rows, None);
    assert [stored, added][..1] == [stored];
    assert Run(rows, inv, [stored, added]) == Step(rows, inv, added);
  }

  /** Once an item has raised, the later items change nothing. */
  lemma {:induction false} RunStopsAtFailure(rows: seq<Row>, inv: Invoice, items: seq<Item>, k: nat)
    requires k <= |items|
    requires Run(rows, inv, items[..k]).failure.Some?
    ensures Run(rows, inv, items) == Run(rows, inv, items[..k])
    decreases |items| - k
  {
    if k < |items| {
      var next := items[..k + 1];
      assert next[..|next| - 1] == items[..k];
      RunStopsAtFailure(rows, inv, items, k + 1);
    } else {
      assert items[..k] == items;
    }
  }

  /** Every added row is the invoice header plus one of the items. */
  lemma {:induction false} RunOnlyAppends(rows: seq<Row>, inv: Invoice, items: seq<Item>)
    ensures forall k :: |rows| <= k < |Run(rows, inv, items).rows| ==>
              exists m :: 0 <= m < |items| && NewRow(inv, items[m]) == Success(Run(rows, inv, items).rows[k])
    decreases |items|
  {
    var q := Run(rows, inv, items);
    if items == [] {
      assert q.rows == rows;
    } else {
      var init := items[..|items| - 1];
      RunOnlyAppends(rows, inv, init);
      var p := Run(rows, inv, init);
      forall k | |rows| <= k < |q.rows|
        ensures exists m :: 0 <= m < |items| && NewRow(inv, items[m]) == Success(q.rows[k])
      {
        if k < |p.rows| {
          var m :| 0 <= m < |init| && NewRow(inv, init[m]) == Success(p.rows[k]);
          assert init[m] == items[m];
          assert q.rows[k] == p.rows[k];
        } else {
          assert NewRow(inv, items[|items| - 1]) == Success(q.rows[k]);
        }
      }
    }
  }

  /** The check-then-insert keeps non-NULL key pairs unique. */
  lemma {:induction false} RunPreservesUnique(rows: seq<Row>, inv: Invoice, items: seq<Item>)
    requires Unique(rows)
    ensures Unique(Run(rows, inv, items).rows)
    decreases |items|
  {
    if items != [] {
      var init := items[..|items| - 1];
      RunPreservesUnique(rows, inv, init);
      var p := Run(rows, inv, init);
      var q := Run(rows, inv, items);
      if q.rows != p.rows {
        var row := q.rows[|q.rows| - 1];
        assert q.rows == p.rows + [row];
        assert !Exists(p.rows, row.invoiceNumber, row.productCode);
        forall i, j | 0 <= i < j < |q.rows|
          ensures !Matches(q.rows[j], q.rows[i].invoiceNumber, q.rows[i].productCode)
        {
          if j == |q.rows| - 1 {
            assert q.rows[i] == p.rows[i];
          }
        }
      }
    }
  }

  /** After a run without exception, every item's key pair is in the table. */
  lemma {:induction false} RunStoresEveryItem(rows: seq<Row>, inv: Invoice, items: seq<Item>)
    requires Run(rows, inv, items).failure.None?
    ensures items != [] ==> inv.number.Some?
    ensures forall m :: 0 <= m < |items| ==>
              items[m].code.Some? && Stored(Run(rows, inv, items).rows, inv.number.value, items[m].code.value)
    decreases |items|
  {
    if items != [] {
      var init := items[..|items| - 1];
      var p := Run(rows, inv, init);
      var q := Run(rows, inv, items);
      var last := items[|items| - 1];
      RunStoresEveryItem(rows, inv, init);
      RunOnlyAppends(p.rows, inv, [last]);
      assert [last][..0] == [];
      assert q == Step(p.rows, inv, last);
      assert p.rows == q.rows[..|p.rows|];
      forall m | 0 <= m < |items|
        ensures items[m].code.Some? && Stored(q.rows, inv.number.value, items[m].code.value)
      {
        if m < |init| {
          assert items[m] == init[m];
          var i :| 0 <= i < |p.rows| && p.rows[i].invoiceNumber == inv.number.value &&
                   p.rows[i].productCode == init[m].code.value;
          assert q.rows[i] == p.rows[i];
        } else if Exists(p.rows, inv.number.value, last.code.value) {
          var i :| 0 <= i < |p.rows| && Matches(p.rows[i], inv.number.value, last.code.value);
          assert q.rows[i] == p.rows[i];
        } else {
          assert q.rows[|q.rows| - 1].productCode == last.code.value;
        }
      }
    }
  }

  /**
   * A later item whose product code repeats an earlier one is skipped: its
   * pair is already in the table when the loop reaches it.
   */
  lemma RepeatedCodeSkipped(rows: seq<Row>, inv: Invoice, items: seq<Item>, earlier: nat, later: nat)
    requires earlier < later < |items|
    requires inv.number.Some? && inv.number.value.Str?
    requires items[earlier].code == items[later].code && items[later].code.Some? && items[later].code.value.Str?
    requires Run(rows, inv, items[..later]).failure.None?
    ensures var p := Run(rows, inv, items[..later]);
            Step(p.rows, inv, items[later]) == Progress(p.rows, None)
  {
    var init := items[..later];
    RunStoresEveryItem(rows, inv, init);
    assert init[earlier] == items[earlier];
  }

  /**
   * Idempotence: saving an invoice a second time inserts nothing, provided its
   * invoice number and product codes are not NULL.
   */
  lemma {:induction false} SecondRunInsertsNothing(inv: Invoice, items: seq<Item>, stored: seq<Row>)
    requires inv.number.Some? && inv.number.value.Str?
    requires forall m :: 0 <= m < |items| ==>
               items[m].code.Some? && items[m].code.value.Str? &&
               Stored(stored, inv.number.value, items[m].code.value)
    ensures Run(stored, inv, items) == Progress(stored, None)
    decreases |items|
  {
    if items != [] {
      var init := items[..|items| - 1];
      var last := items[|items| - 1];
      SecondRunInsertsNothing(inv, init, stored);
      var i :| 0 <= i < |stored| && stored[i].invoiceNumber == inv.number.value &&
               stored[i].productCode == last.code.value;
      assert Matches(stored[i], inv.number.value, last.code.value);
    }
  }

  /**
   * Running the loop again over the table it produced changes nothing and
   * ends as the first run did: with no exception, or with the same one at
   * the same item (keys not NULL).
   */
  lemma {:induction false} RunAgainRepeats(rows: seq<Row>, inv: Invoice, items: seq<Item>)
    requires inv.number.Some? && inv.number.value.Str?
    requires forall m :: 0 <= m < |items| ==> items[m].code.Some? && items[m].code.value.Str?
    ensures var p := Run(rows, inv, items);
            Run(p.rows, inv, items) == p
    decreases |items|
  {
    if items != [] {
      var init := items[..|items| - 1];
      var last := items[|items| - 1];
      var p0 := Run(rows, inv, init);
      var p := Run(rows, inv, items);
      RunAgainRepeats(rows, inv, init);
      if p0.failure.None? {
        RunStoresEveryItem(rows, inv, init);
        forall m | 0 <= m < |init|
          ensures init[m].code.Some? && init[m].code.value.Str? &&
                  Stored(p.rows, inv.number.value, init[m].code.value)
        {
          assert init[m] == items[m];
          var i :| 0 <= i < |p0.rows| && p0.rows[i].invoiceNumber == inv.number.value &&
                   p0.rows[i].productCode == init[m].code.value;
          assert p.rows[i] == p0.rows[i];
        }
        SecondRunInsertsNothing(inv, init, p.rows);
        if p.failure.None? {
          var i :| 0 <= i < |p.rows| && p.rows[i].invoiceNumber == inv.number.value &&
                   p.rows[i].productCode == last.code.value;
          assert Matches(p.rows[i], inv.number.value, last.code.value);
        }
      }
    }
  }

  /**
   * Idempotence of the whole save: a second save of the same invoice, with
   * non-NULL keys, leaves the table as the first left it and raises what the
   * first raised.
   */
  lemma SaveAllIdempotent(rows: seq<Row>, inv: Invoice)
    requires inv.number.Some? && inv.number.value.Str?
    requires inv.items.Some? ==> forall m :: 0 <= m < |inv.items.value| ==>
               inv.items.value[m].code.Some? && inv.items.value[m].code.value.Str?
    ensures var p := SaveAll(rows, inv);
            SaveAll(p.rows, inv) == p
  {
    if inv.items.Some? {
      RunAgainRepeats(rows, inv, inv.items.value);
    }
  }

  /**
   * With a NULL invoice number the existence check never matches, so every
   * item is inserted again on every run: idempotence needs non-NULL keys.
   */
  lemma {:induction false} NullNumberInsertsEveryItem(rows: seq<Row>, inv: Invoice, items: seq<Item>)
    requires inv.number == Some(Null)
    requires Run(rows, inv, items).failure.None?
    ensures |Run(rows, inv, items).rows| == |rows| + |items|
    decreases |items|
  {
    if items != [] {
      var init := items[..|items| - 1];
      var p := Run(rows, inv, init);
      NullNumberInsertsEveryItem(rows, inv, init);
      assert !Exists(p.rows, Null, items[|items| - 1].code.value);
    }
  }

  /** The `facturas` table and the connections opened on it. */
  class FacturasTable {
    var rows: seq<Row>
    var openConnections: nat
    /** How many connections have ever been opened on the table. */
    ghost var connectionsOpened: nat

    constructor (initial: seq<Row>)
      ensures rows == initial && openConnections == 0 && connectionsOpened == 0
    {
      rows := initial;
      openConnections := 0;
      connectionsOpened := 0;
    }

    /** `SELECT 1 FROM facturas WHERE invoice_number = %s AND product_code = %s LIMIT 1` */
    method RowExists(number: Value, code: Value) returns (found: bool)
      ensures found <==> Exists(rows, number, code)
    {
      var i := 0;
      while i < |rows|
        invariant 0 <= i <= |rows|
        invariant forall k :: 0 <= k < i ==> !Matches(rows[k], number, code)
      {
        if Matches(rows[i], number, code) {
          return true;
        }
        i := i + 1;
      }
      return false;
    }

    /** The loop shared by both versions: look up, skip or insert, stop at the first exception. */
    method InsertLineItems(inv: Invoice, items: seq<Item>) returns (failure: Option<SaveError>)
      modifies this`rows
      ensures Progress(rows, failure) == Run(old(rows), inv, items)
    {
      failure := None;
      var n := 0;
      while n < |items| && failure.None?
        invariant 0 <= n <= |items|
        invariant Progress(rows, failure) == Run(old(rows), inv, items[..n])
      {
        var item := items[n];
        assert items[..n + 1][..n] == items[..n];
        if inv.number.None? {
          failure := Some(MissingKey(NumberKey));
        } else if item.code.None? {
          failure := Some(MissingKey(CodeKey));
        } else {
          var found := RowExists(inv.number.value, item.code.value);
          if !found {
            var row := NewRow(inv, item);
            if row.Failure? {
              failure := Some(row.error);
            } else {
              rows := rows + [row.value];
            }
          }
        }
        n := n + 1;
      }
      if failure.Some? {
        RunStopsAtFailure(old(rows), inv, items, n);
      } else {
        assert items[..n] == items;
      }
    }

    /**
     * app.py: asyncpg commits every INSERT on its own, so the rows inserted
     * before an exception stay; the connection is closed on every path.
     */
    method SaveInvoiceAutocommit(inv: Invoice, connected: bool) returns (failure: Option<SaveError>)
      modifies this
      ensures connectionsOpened == old(connectionsOpened) + (if connected then 1 else 0)
      ensures openConnections == old(openConnections)
      ensures !connected ==> failure == Some(ConnectionFailed) && rows == old(rows)
      ensures connected ==> Progress(rows, failure) == SaveAll(old(rows), inv)
      ensures |old(rows)| <= |rows| && rows[..|old(rows)|] == old(rows)
      ensures Unique(old(rows)) ==> Unique(rows)
    {
      if !connected {
        return Some(ConnectionFailed);
      }
      openConnections := openConnections + 1;
      connectionsOpened := connectionsOpened + 1;
      match inv.items {
        case None =>
          failure := Some(MissingKey(ItemsKey));
        case Some(items) =>
          failure := InsertLineItems(inv, items);
          RunOnlyAppends(old(rows), inv, items);
          if Unique(old(rows)) {
            RunPreservesUnique(old(rows), inv, items);
          }
      }
      openConnections := openConnections - 1;
    }

    /**
     * app2.py: one transaction committed after the whole loop; an exception,
     * or a commit the database refuses, leaves the inserts uncommitted, and
     * closing the connection discards them.
     */
    method SaveInvoiceTransaction(inv: Invoice, connected: bool, commitSucceeds: bool)
      returns (failure: Option<SaveError>)
      modifies this
      ensures connectionsOpened == old(connectionsOpened) + (if connected then 1 else 0)
      ensures openConnections == old(openConnections)
      ensures !connected ==> failure == Some(ConnectionFailed)
      ensures connected ==> failure == if SaveAll(old(rows), inv).failure.Some? then SaveAll(old(rows), inv).failure
                                       else if commitSucceeds then None
                                       else Some(CommitFailed)
      ensures rows == if failure.None? then SaveAll(old(rows), inv).rows else old(rows)
      ensures Unique(old(rows)) ==> Unique(rows)
    {
      if !connected {
        return Some(ConnectionFailed);
      }
      openConnections := openConnections + 1;
      connectionsOpened := connectionsOpened + 1;
      var committed := rows;
      match inv.items {
        case None =>
          failure := Some(MissingKey(ItemsKey));
        case Some(items) =>
          failure := InsertLineItems(inv, items);
          if Unique(old(rows)) {
            RunPreservesUnique(old(rows), inv, items);
          }
      }
      if failure.None? {
        if commitSucceeds {
          committed := rows;
        } else {
          failure := Some(CommitFailed);
        }
      }
      rows := committed;
      openConnections := openConnections - 1;
    }
  }
}
