/**
 * `fetch_prices`: turns the rows of the `table-responsive` container into the
 * dict from item name to formatted price. The page download and the HTML
 * parsing are outside the model: a page is given as `None` when it has no such
 * container, or as the rows under it, each row the stripped text of its `td`
 * cells in document order.
 */
module Extractor {
  import opened Wrappers
  import opened Strings
  import opened PriceTable

  /** The stripped text of one row's `td` cells. */
  type Row = seq<string>

  /** What one row contributes to the dict. */
  datatype RowKind =
    | Item(name: string, value: string)  // a product row: `name` is mapped to `value`
    | Header                             // 3 cells whose price cells carry the sell/buy glyphs
    | NewYorkClose                       // 2 cells naming the New York closing quote
    | NotData                            // any other number of cells

  const SellPrefix := "賣出:"
  const BuyPrefix := " / 買入:"
  const SellGlyph := "出/"
  const BuyGlyph := "入/"
  const NewYorkCloseLabel := "紐約收盤"

  /** `f"賣出:{sell} / 買入:{buy}"` */
  function TwoPriceValue(sell: string, buy: string): string
  {
    SellPrefix + sell + BuyPrefix + buy
  }

  /** The row classification of the extraction loop, by cell count and then by the substring filters. */
  function Classify(row: Row): RowKind
  {
    if |row| == 3 then
      if Contains(row[1], SellGlyph) || Contains(row[2], BuyGlyph) then Header
      else Item(row[0], TwoPriceValue(row[1], row[2]))
    else if |row| == 2 then
      if Contains(row[0], NewYorkCloseLabel) then NewYorkClose
      else Item(row[0], row[1])
    else NotData
  }

  /**
   * A 3-cell row is a product unless "出/" occurs in its sell cell or "入/" in
   * its buy cell, and its value is built from the literal cells; a 2-cell row
   * is a product unless its name contains "紐約收盤", and its value is its
   * second cell; any other row contributes nothing.
   */
  lemma ClassifySpec(row: Row)
    ensures var k := Classify(row);
      && (|row| == 3 ==>
            (k.Item? <==> !(exists i :: OccursAt(row[1], "出/", i)) && !(exists i :: OccursAt(row[2], "入/", i))))
      && (|row| == 3 && k.Item? ==> k == Item(row[0], "賣出:" + row[1] + " / 買入:" + row[2]))
      && (|row| == 2 ==> (k.Item? <==> !exists i :: OccursAt(row[0], "紐約收盤", i)))
      && (|row| == 2 && k.Item? ==> k == Item(row[0], row[1]))
      && (|row| != 2 && |row| != 3 ==> k == NotData)
  {
    if |row| == 3 {
      ContainsIffOccurs(row[1], SellGlyph);
      ContainsIffOccurs(row[2], BuyGlyph);
    } else if |row| == 2 {
      ContainsIffOccurs(row[0], NewYorkCloseLabel);
    }
  }

  /** Row `i` is a product row whose name is `name`. */
  ghost predicate AcceptedAs(rows: seq<Row>, i: int, name: string)
  {
    0 <= i < |rows| && Classify(rows[i]).Item? && Classify(rows[i]).name == name
  }

  /** The dict after the loop has run over `rows`, one dict assignment per product row. */
  function ExtractRows(rows: seq<Row>): (m: PriceMap)
    ensures WellFormed(m)
    decreases |rows|
  {
    if rows == [] then Empty()
    else
      var before := ExtractRows(rows[..|rows| - 1]);
      match Classify(rows[|rows| - 1])
      case Item(name, value) => Put(before, name, value)
      case _ => before
  }

  /** The result of `fetch_prices` for a page: `{}` when the page has no table container. */
  function ExtractTable(table: Option<seq<Row>>): (m: PriceMap)
    ensures WellFormed(m)
    ensures table.None? ==> m.keys == [] && m.vals == map[]
  {
    match table
    case None => Empty()
    case Some(rows) => ExtractRows(rows)
  }

  /** `fetch_prices`: the loop over the table's rows, filling the dict in place. */
  method FetchPrices(table: Option<seq<Row>>) returns (prices: PriceMap)
    ensures prices == ExtractTable(table)
  {
    prices := Empty();
    if table.None? {
      return;
    }
    var rows := table.value;
    var i := 0;
    while i < |rows|
      invariant 0 <= i <= |rows|
      invariant prices == ExtractRows(rows[..i])
    {
      var cols := rows[i];
      if |cols| == 3 {
        var name, sell, buy := cols[0], cols[1], cols[2];
        if !(Contains(sell, SellGlyph) || Contains(buy, BuyGlyph)) {
          prices := Put(prices, name, TwoPriceValue(sell, buy));
        }
      } else if |cols| == 2 {
        var name, price := cols[0], cols[1];
        if !Contains(name, NewYorkCloseLabel) {
          prices := Put(prices, name, price);
        }
      }
      assert rows[..i + 1][..i] == rows[..i];
      i := i + 1;
    }
    assert rows[..|rows|] == rows;
  }

  // ----- What the extracted dict holds -----

  /** The rows before the last one agree with `rows` on which of them are product rows. */
  lemma {:induction false} AcceptedInPrefix(rows: seq<Row>, i: int, name: string)
    requires rows != [] && i < |rows| - 1
    ensures AcceptedAs(rows[..|rows| - 1], i, name) <==> AcceptedAs(rows, i, name)
  {
  }

  /** One step of the loop: the last row either assigns its name or leaves the dict alone. */
  lemma {:induction false} ExtractLast(rows: seq<Row>)
    requires rows != []
    ensures var m, b, kind := ExtractRows(rows), ExtractRows(rows[..|rows| - 1]), Classify(rows[|rows| - 1]);
      if kind.Item? then m == Put(b, kind.name, kind.value) else m == b
  {
  }

  /** The keys are exactly the names of the product rows. */
  lemma {:induction false} ExtractKeys(rows: seq<Row>, k: string)
    ensures k in ExtractRows(rows).vals <==> exists i :: AcceptedAs(rows, i, k)
    decreases |rows|
  {
    if rows != [] {
      var before := rows[..|rows| - 1];
      ExtractLast(rows);
      ExtractKeys(before, k);
      if exists i :: AcceptedAs(before, i, k) {
        var i :| AcceptedAs(before, i, k);
        AcceptedInPrefix(rows, i, k);
      }
      if exists i :: AcceptedAs(rows, i, k) {
        var i :| AcceptedAs(rows, i, k);
        if i < |rows| - 1 {
          AcceptedInPrefix(rows, i, k);
        }
      }
      var kind := Classify(rows[|rows| - 1]);
      if kind.Item? && kind.name == k {
        assert AcceptedAs(rows, |rows| - 1, k);
      }
    }
  }

  /** Some product row named `a` comes before every product row named `b`. */
  ghost predicate FirstAcceptedBefore(rows: seq<Row>, a: string, b: string)
  {
    exists i :: AcceptedAs(rows, i, a) && forall j :: 0 <= j <= i ==> !AcceptedAs(rows, j, b)
  }

  lemma {:induction false} FirstAcceptedBeforeGrows(rows: seq<Row>, a: string, b: string)
    requires rows != []
    requires FirstAcceptedBefore(rows[..|rows| - 1], a, b)
    ensures FirstAcceptedBefore(rows, a, b)
  {
    var before := rows[..|rows| - 1];
    var i :| AcceptedAs(before, i, a) && forall j :: 0 <= j <= i ==> !AcceptedAs(before, j, b);
    AcceptedInPrefix(rows, i, a);
    forall j | 0 <= j <= i
      ensures !AcceptedAs(rows, j, b)
    {
      AcceptedInPrefix(rows, j, b);
    }
  }

  /** Keys are ordered by the first product row that names them. */
  lemma {:induction false} ExtractOrder(rows: seq<Row>)
    ensures var m := ExtractRows(rows);
      forall p, q :: 0 <= p < q < |m.keys| ==> FirstAcceptedBefore(rows, m.keys[p], m.keys[q])
    decreases |rows|
  {
    if rows != [] {
      var before := rows[..|rows| - 1];
      var last := |rows| - 1;
      var b := ExtractRows(before);
      var m := ExtractRows(rows);
      ExtractLast(rows);
      ExtractOrder(before);
      forall p, q | 0 <= p < q < |m.keys|
        ensures FirstAcceptedBefore(rows, m.keys[p], m.keys[q])
      {
        if q < |b.keys| {
          assert m.keys[p] == b.keys[p] && m.keys[q] == b.keys[q];
          FirstAcceptedBeforeGrows(rows, m.keys[p], m.keys[q]);
        } else {
          // the last row introduced the new key m.keys[q], which no earlier row named
          var name := m.keys[q];
          assert Classify(rows[last]).Item? && name == Classify(rows[last]).name && name !in b.vals;
          assert m.keys[p] == b.keys[p] && m.keys[p] in b.vals;
          ExtractKeys(before, m.keys[p]);
          ExtractKeys(before, name);
          var i :| AcceptedAs(before, i, m.keys[p]);
          AcceptedInPrefix(rows, i, m.keys[p]);
          forall j | 0 <= j <= i
            ensures !AcceptedAs(rows, j, name)
          {
            AcceptedInPrefix(rows, j, name);
          }
        }
      }
    }
  }

  /** `v` is the value of a product row named `k` that no later product row names again. */
  ghost predicate LastAcceptedValue(rows: seq<Row>, k: string, v: string)
  {
    exists i :: AcceptedAs(rows, i, k) && Classify(rows[i]).value == v &&
      forall j :: i < j < |rows| ==> !AcceptedAs(rows, j, k)
  }

  /** A row that is not a product row named `k` keeps the last value for `k`. */
  lemma {:induction false} LastAcceptedValueGrows(rows: seq<Row>, k: string, v: string)
    requires rows != [] && !AcceptedAs(rows, |rows| - 1, k)
    requires LastAcceptedValue(rows[..|rows| - 1], k, v)
    ensures LastAcceptedValue(rows, k, v)
  {
    var before := rows[..|rows| - 1];
    var i :| AcceptedAs(before, i, k) && Classify(before[i]).value == v &&
      forall j :: i < j < |before| ==> !AcceptedAs(before, j, k);
    AcceptedInPrefix(rows, i, k);
    forall j | i < j < |rows|
      ensures !AcceptedAs(rows, j, k)
    {
      if j < |rows| - 1 {
        AcceptedInPrefix(rows, j, k);
      }
    }
  }

  /** For a repeated name the last product row wins. */
  lemma {:induction false} ExtractValues(rows: seq<Row>, k: string)
    requires k in ExtractRows(rows).vals
    ensures LastAcceptedValue(rows, k, ExtractRows(rows).vals[k])
    decreases |rows|
  {
    var last := |rows| - 1;
    var kind := Classify(rows[last]);
    ExtractLast(rows);
    if kind.Item? && kind.name == k {
      assert AcceptedAs(rows, last, k) && kind.value == ExtractRows(rows).vals[k];
    } else {
      var before := rows[..last];
      assert k in ExtractRows(before).vals && ExtractRows(rows).vals[k] == ExtractRows(before).vals[k];
      ExtractValues(before, k);
      LastAcceptedValueGrows(rows, k, ExtractRows(rows).vals[k]);
    }
  }

  /** Rows that are not product rows leave the dict as it was. */
  lemma {:induction false} SkippedRowChangesNothing(rows: seq<Row>, row: Row)
    requires !Classify(row).Item?
    ensures ExtractRows(rows + [row]) == ExtractRows(rows)
  {
    assert (rows + [row])[..|rows|] == rows;
  }

  /** A header row with the sell/buy glyphs, and the New York closing quote, are dropped. */
  lemma FilteredRowExamples()
    ensures Classify(["黃金", "賣出/克", "買入/克"]) == Header
    ensures Classify(["紐約收盤", "2350.1"]) == NewYorkClose
    ensures Classify(["單欄"]) == NotData
  {
    ContainsIffOccurs("賣出/克", SellGlyph);
    assert OccursAt("賣出/克", "出/", 1);
    ContainsIffOccurs("紐約收盤", NewYorkCloseLabel);
    assert OccursAt("紐約收盤", "紐約收盤", 0);
  }

  /** A product row is formatted from its literal cells. */
  lemma TwoPriceRowExample()
    ensures Classify(["足金", "1234", "1200"]) == Item("足金", "賣出:1234 / 買入:1200")
  {
    MissingFirstChar("1234", SellGlyph);
    MissingFirstChar("1200", BuyGlyph);
    assert TwoPriceValue("1234", "1200") == "賣出:1234 / 買入:1200";
  }

  /** A two-cell row other than the closing quote maps its name to its second cell. */
  lemma SinglePriceRowExample()
    ensures Classify(["黃金飾品收購", "5000"]) == Item("黃金飾品收購", "5000")
  {
    MissingFirstChar("黃金飾品收購", NewYorkCloseLabel);
  }
}
