/**
 * `main`: one run of the price monitor. The snapshot file `last_price.json`
 * and the webhook are the state a run changes; both are fields of a
 * `Monitor`, and the fetched page is the run's input.
 */
module Monitor {
  import opened Wrappers
  import opened PriceTable
  import opened Extractor
  import opened Notifier
  import Strings

  /** How a run ends. */
  datatype Verdict =
    | CouldNotFetch                    // the extracted dict was empty: nothing sent, nothing written
    | NoChange                         // same prices as the snapshot: nothing sent, nothing written
    | ChangeDetected(message: string)  // message sent (if a webhook is set) and snapshot overwritten

  /** `old_prices`: the snapshot's dict, or `{}` when the file does not exist. */
  function OldPrices(stored: Option<PriceMap>): (d: map<string, string>)
    ensures stored.None? ==> |d| == 0
    ensures stored.Some? ==> d == stored.value.vals
  {
    match stored
    case None => map[]
    case Some(m) => m.vals
  }

  /** A dict as the set of its (key, value) pairs, which is what `!=` on dicts compares. */
  ghost function Pairs(d: map<string, string>): set<(string, string)>
  {
    set k | k in d :: (k, d[k])
  }

  /** Two dicts are equal exactly when they hold the same (key, value) pairs. */
  lemma {:induction false} PairsDetermineDict(a: map<string, string>, b: map<string, string>)
    ensures a == b <==> Pairs(a) == Pairs(b)
  {
    if Pairs(a) == Pairs(b) {
      forall k | k in a
        ensures k in b && b[k] == a[k]
      {
        assert (k, a[k]) in Pairs(b);
      }
      forall k | k in b
        ensures k in a
      {
        assert (k, b[k]) in Pairs(a);
      }
    }
  }

  /** The decision `main` takes for a freshly extracted dict and the snapshot on disk. */
  function Decide(latest: PriceMap, stored: Option<PriceMap>): (v: Verdict)
    requires WellFormed(latest)
    ensures v.CouldNotFetch? <==> latest.vals == map[]
    ensures v.ChangeDetected? <==>
      latest.vals != map[] && Pairs(latest.vals) != Pairs(OldPrices(stored))
    ensures v.ChangeDetected? ==>
      v.message == Render(ChangeReport(latest.keys, latest.vals, OldPrices(stored)))
  {
    EmptyIffNoKeys(latest);
    PairsDetermineDict(latest.vals, OldPrices(stored));
    if latest.keys == [] then CouldNotFetch
    else if latest.vals != OldPrices(stored) then
      ChangeDetected(Render(ChangeReport(latest.keys, latest.vals, OldPrices(stored))))
    else NoChange
  }

  /** The snapshot after a run with verdict `v`: only a detected change writes it. */
  function Persisted(v: Verdict, latest: PriceMap, stored: Option<PriceMap>): (after: Option<PriceMap>)
    ensures v.ChangeDetected? ==> after == Some(latest)
    ensures after != stored ==> v.ChangeDetected?
  {
    if v.ChangeDetected? then Some(latest) else stored
  }

  class Monitor {
    /** The content of `last_price.json`, `None` while the file does not exist. */
    var stored: Option<PriceMap>
    /** The payloads posted to the webhook so far, oldest first. */
    var posted: seq<string>
    /** Whether `DISCORD_WEBHOOK` is set. */
    const webhookSet: bool

    constructor (stored: Option<PriceMap>, webhookSet: bool)
      ensures this.stored == stored && this.posted == [] && this.webhookSet == webhookSet
    {
      this.stored := stored;
      this.posted := [];
      this.webhookSet := webhookSet;
    }

    /** `send_discord_message`: posts `content` when a webhook is set, and does nothing otherwise. */
    method SendMessage(content: string)
      modifies this`posted
      ensures posted == if webhookSet then old(posted) + [content] else old(posted)
    {
      if !webhookSet {
        return;
      }
      posted := posted + [content];
    }

    /** `main`, for the page `table`. */
    method Run(table: Option<seq<Row>>) returns (v: Verdict)
      modifies this`stored, this`posted
      ensures v == Decide(ExtractTable(table), old(stored))
      ensures stored == Persisted(v, ExtractTable(table), old(stored))
      ensures posted == if v.ChangeDetected? && webhookSet then old(posted) + [v.message] else old(posted)
    {
      var newPrices := FetchPrices(table);
      if newPrices.keys == [] {
        EmptyIffNoKeys(newPrices);
        return CouldNotFetch;
      }
      var oldPrices: map<string, string> := map[];
      if stored.Some? {
        oldPrices := stored.value.vals;
      }
      assert oldPrices == OldPrices(stored);
      if newPrices.vals != oldPrices {
        var message := RenderMessage(newPrices, oldPrices);
        SendMessage(message);
        stored := Some(newPrices);
        v := ChangeDetected(message);
      } else {
        v := NoChange;
      }
    }
  }

  // ----- Properties of a run -----

  /** An empty extraction sends nothing and leaves the baseline as it was. */
  lemma {:induction false} EmptyExtractionKeepsBaseline(table: Option<seq<Row>>, stored: Option<PriceMap>)
    requires ExtractTable(table).vals == map[]
    ensures Decide(ExtractTable(table), stored) == CouldNotFetch
    ensures Persisted(Decide(ExtractTable(table), stored), ExtractTable(table), stored) == stored
  {
  }

  /**
   * A message is produced and the snapshot written exactly when the new dict is
   * non-empty and holds other (key, value) pairs than the old one; key order
   * plays no part.
   */
  lemma {:induction false} WriteIffChanged(latest: PriceMap, stored: Option<PriceMap>)
    requires WellFormed(latest)
    ensures var v := Decide(latest, stored);
      Persisted(v, latest, stored) != stored || v.ChangeDetected? <==>
        latest.vals != map[] && Pairs(latest.vals) != Pairs(OldPrices(stored))
  {
  }

  /** Reordering the keys of the new dict does not change whether a run notifies. */
  lemma {:induction false} OrderDoesNotDecide(a: PriceMap, b: PriceMap, stored: Option<PriceMap>)
    requires WellFormed(a) && WellFormed(b) && a.vals == b.vals
    ensures Decide(a, stored).ChangeDetected? == Decide(b, stored).ChangeDetected?
  {
  }

  /** A snapshot that already holds the fresh dict makes the run silent and write nothing. */
  lemma {:induction false} UpToDateSnapshotIsSilent(latest: PriceMap, saved: PriceMap)
    requires WellFormed(latest) && saved.vals == latest.vals
    ensures !Decide(latest, Some(saved)).ChangeDetected?
    ensures Persisted(Decide(latest, Some(saved)), latest, Some(saved)) == Some(saved)
  {
  }

  /** Running again on the same page right after a run sends nothing and writes nothing. */
  lemma {:induction false} SecondRunIsSilent(table: Option<seq<Row>>, stored: Option<PriceMap>)
    ensures var latest := ExtractTable(table);
      var after := Persisted(Decide(latest, stored), latest, stored);
      !Decide(latest, after).ChangeDetected? && Persisted(Decide(latest, after), latest, after) == after
  {
  }

  /** With no snapshot file, any non-empty extraction notifies and marks every item. */
  lemma {:induction false} FirstRunNotifiesEverything(latest: PriceMap)
    requires WellFormed(latest) && latest.keys != []
    ensures Decide(latest, None).ChangeDetected?
    ensures forall e :: e in ChangeReport(latest.keys, latest.vals, OldPrices(None)) ==> e.changed
  {
    assert latest.keys[0] in latest.vals;
  }

  /** The example's 2-cell row "白金" is a single-price item. */
  lemma PlatinumRow()
    ensures Classify(["白金", "–"]) == Item("白金", "–")
  {
    Strings.MissingFirstChar("白金", NewYorkCloseLabel);
  }

  /** The example's 3-cell row "金條" is a two-price item with the literal prices. */
  lemma BarRow()
    ensures Classify(["金條", "3500", "3400"]) == Item("金條", "賣出:3500 / 買入:3400")
  {
    Strings.MissingFirstChar("3500", SellGlyph);
    Strings.MissingFirstChar("3400", BuyGlyph);
    assert TwoPriceValue("3500", "3400") == "賣出:3500 / 買入:3400";
  }

  /** The two example rows give a single-price item and a two-price item, in row order. */
  lemma ScenarioRows()
    ensures ExtractTable(Some([["白金", "–"], ["金條", "3500", "3400"]])) ==
      PriceMap(["白金", "金條"], map["白金" := "–", "金條" := "賣出:3500 / 買入:3400"])
  {
    var rows: seq<Row> := [["白金", "–"], ["金條", "3500", "3400"]];
    PlatinumRow();
    BarRow();
    assert rows[..1] == [["白金", "–"]];
    assert rows[..1][..0] == [];
    ExtractLast(rows[..1]);
    ExtractLast(rows);
    assert ExtractRows(rows[..1]) == PriceMap(["白金"], map["白金" := "–"]);
  }

  /** The example's new dict differs from its snapshot: the bar's price moved. */
  lemma ScenarioDiffers()
    ensures map["白金" := "–", "金條" := "賣出:3500 / 買入:3400"] != map["金條" := "賣出:3400 / 買入:3300"]
  {
    var latest, prior := map["白金" := "–", "金條" := "賣出:3500 / 買入:3400"], map["金條" := "賣出:3400 / 買入:3300"];
    assert latest["金條"] != prior["金條"] by {
      assert "賣出:3500 / 買入:3400"[4] != "賣出:3400 / 買入:3300"[4];
    }
  }

  /** Against a snapshot with an older price, the run notifies and replaces the snapshot. */
  lemma ScenarioExample()
    ensures var latest := ExtractTable(Some([["白金", "–"], ["金條", "3500", "3400"]]));
      var stored := Some(PriceMap(["金條"], map["金條" := "賣出:3400 / 買入:3300"]));
      && Decide(latest, stored).ChangeDetected?
      && Persisted(Decide(latest, stored), latest, stored) == Some(latest)
  {
    ScenarioRows();
    ScenarioDiffers();
  }

  /** In the example's message both items are listed and both are marked. */
  lemma ScenarioReport()
    ensures var latest := ExtractTable(Some([["白金", "–"], ["金條", "3500", "3400"]]));
      ChangeReport(latest.keys, latest.vals, map["金條" := "賣出:3400 / 買入:3300"]) ==
        [Entry("白金", "–", true), Entry("金條", "賣出:3500 / 買入:3400", true)]
  {
    ScenarioRows();
    ScenarioDiffers();
    var latest := PriceMap(["白金", "金條"], map["白金" := "–", "金條" := "賣出:3500 / 買入:3400"]);
    var r := ChangeReport(latest.keys, latest.vals, map["金條" := "賣出:3400 / 買入:3300"]);
    assert r[0] == Entry("白金", "–", true);
    assert r[1] == Entry("金條", "賣出:3500 / 買入:3400", true);
  }
}
