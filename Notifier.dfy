/**
 * The change report and the Discord message that `main` builds when the
 * prices changed: a title line, a markdown code fence holding one bullet per
 * item of the new dict in its order, and a link to the price page.
 */
module Notifier {
  import opened Wrappers
  import opened PriceTable

  const TargetUrl := "https://wdpm.com.tw/price/"
  const Title := "🔔 **王鼎貴金屬報價變動通知** 🔔\n"
  const OpenFence := "```md\n"
  const CloseFence := "```\n"
  const LinkLine := "🔗 查看官網: " + TargetUrl
  const ChangeMarker := " <--"

  /** `d.get(k)` */
  function Get(d: map<string, string>, k: string): Option<string>
  {
    if k in d then Some(d[k]) else None
  }

  /** One bullet's worth of the report: an item, its new price, and whether it is marked. */
  datatype Entry = Entry(item: string, price: string, changed: bool)

  /**
   * The report over `keys` in order: each item with its new price, marked
   * when `old_prices.get(item) != price`.
   */
  function ChangeReport(keys: seq<string>, vals: map<string, string>, prior: map<string, string>): (r: seq<Entry>)
    requires forall k :: k in keys ==> k in vals
    ensures |r| == |keys|
    ensures forall i :: 0 <= i < |r| ==> r[i].item == keys[i] && r[i].price == vals[keys[i]]
    ensures forall i :: 0 <= i < |r| ==>
      (r[i].changed <==> keys[i] !in prior || prior[keys[i]] != vals[keys[i]])
    decreases |keys|
  {
    if keys == [] then []
    else
      var item := keys[|keys| - 1];
      var price := vals[item];
      ChangeReport(keys[..|keys| - 1], vals, prior) + [Entry(item, price, Get(prior, item) != Some(price))]
  }

  /** `f"- {item}: {price}{change_tag}\n"` */
  function Bullet(e: Entry): string
  {
    "- " + e.item + ": " + e.price + (if e.changed then ChangeMarker else "") + "\n"
  }

  /** The bullets of a report, one after the other in report order. */
  function Bullets(r: seq<Entry>): string
    decreases |r|
  {
    if r == [] then "" else Bullets(r[..|r| - 1]) + Bullet(r[|r| - 1])
  }

  /** The whole message for a report. */
  function Render(r: seq<Entry>): string
  {
    Title + OpenFence + Bullets(r) + CloseFence + LinkLine
  }

  /** The message of `main`, accumulated by `+=` while iterating over the new dict's items. */
  method RenderMessage(latest: PriceMap, prior: map<string, string>) returns (message: string)
    requires WellFormed(latest)
    ensures message == Render(ChangeReport(latest.keys, latest.vals, prior))
  {
    message := Title;
    message := message + OpenFence;
    var i := 0;
    assert latest.keys[..0] == [];
    while i < |latest.keys|
      invariant 0 <= i <= |latest.keys|
      invariant message == Title + OpenFence + Bullets(ChangeReport(latest.keys[..i], latest.vals, prior))
    {
      var item := latest.keys[i];
      var price := latest.vals[item];
      var changeTag := if Get(prior, item) != Some(price) then ChangeMarker else "";
      var line := "- " + item + ": " + price + changeTag + "\n";
      ReportStep(latest.keys, latest.vals, prior, i);
      AppendAssoc(Title + OpenFence, Bullets(ChangeReport(latest.keys[..i], latest.vals, prior)), line);
      message := message + line;
      i := i + 1;
    }
    assert latest.keys[..|latest.keys|] == latest.keys;
    message := message + CloseFence;
    message := message + LinkLine;
  }

  lemma {:induction false} AppendAssoc(a: string, b: string, c: string)
    ensures (a + b) + c == a + (b + c)
  {
  }

  /** One iteration of the message loop appends the bullet of the next item. */
  lemma {:induction false} ReportStep(keys: seq<string>, vals: map<string, string>, prior: map<string, string>, i: int)
    requires forall k :: k in keys ==> k in vals
    requires 0 <= i < |keys|
    ensures var price := vals[keys[i]];
      Bullets(ChangeReport(keys[..i + 1], vals, prior)) ==
      Bullets(ChangeReport(keys[..i], vals, prior)) +
        ("- " + keys[i] + ": " + price + (if Get(prior, keys[i]) != Some(price) then ChangeMarker else "") + "\n")
  {
    assert keys[..i + 1][..i] == keys[..i];
    var r := ChangeReport(keys[..i + 1], vals, prior);
    assert r[..i] == ChangeReport(keys[..i], vals, prior);
  }

  // ----- What the report and the message say -----

  /** Bullets of a concatenation are the concatenated bullets. */
  lemma {:induction false} BulletsAppend(a: seq<Entry>, b: seq<Entry>)
    ensures Bullets(a + b) == Bullets(a) + Bullets(b)
    decreases |b|
  {
    if b == [] {
      assert a + b == a;
    } else {
      var b', e := b[..|b| - 1], b[|b| - 1];
      assert (a + b)[..|a + b| - 1] == a + b' && (a + b)[|a + b| - 1] == e;
      BulletsAppend(a, b');
      calc {
        Bullets(a + b);
        Bullets(a + b') + Bullet(e);
        (Bullets(a) + Bullets(b')) + Bullet(e);
        { AppendAssoc(Bullets(a), Bullets(b'), Bullet(e)); }
        Bullets(a) + (Bullets(b') + Bullet(e));
        Bullets(a) + Bullets(b);
      }
    }
  }

  /** The i-th bullet of the message is the bullet of the i-th entry, with the earlier ones before it and the later ones after it. */
  lemma {:induction false} BulletAt(r: seq<Entry>, i: int)
    requires 0 <= i < |r|
    ensures Bullets(r) == Bullets(r[..i]) + Bullet(r[i]) + Bullets(r[i + 1..])
  {
    var front, rest := r[..i + 1], r[i + 1..];
    assert r == front + rest;
    assert front[..i] == r[..i];
    BulletsAppend(front, rest);
  }

  /** With no earlier file (`old_prices = {}`) every item is marked. */
  lemma {:induction false} FirstRunMarksEveryItem(latest: PriceMap)
    requires WellFormed(latest)
    ensures forall e :: e in ChangeReport(latest.keys, latest.vals, map[]) ==> e.changed
  {
  }

  /** Some item of the new dict is not in the old one with the same value. */
  lemma {:induction false} DifferingItem(latest: PriceMap, prior: map<string, string>) returns (i: int)
    requires WellFormed(latest)
    requires latest.vals != prior && prior.Keys <= latest.vals.Keys
    ensures 0 <= i < |latest.keys|
    ensures latest.keys[i] !in prior || prior[latest.keys[i]] != latest.vals[latest.keys[i]]
  {
    var k: string;
    if latest.vals.Keys == prior.Keys {
      k :| k in latest.vals && prior[k] != latest.vals[k];
    } else {
      k :| k in latest.vals && k !in prior;
    }
    i :| 0 <= i < |latest.keys| && latest.keys[i] == k;
  }

  /** Some bullet of the report carries the change marker. */
  ghost predicate AnyMarked(r: seq<Entry>)
  {
    exists i :: 0 <= i < |r| && r[i].changed
  }

  /**
   * The dicts differ exactly when some bullet is marked or some old item has
   * disappeared; an item that only disappeared is not listed at all.
   */
  lemma {:induction false} ReportShowsChange(latest: PriceMap, prior: map<string, string>)
    requires WellFormed(latest)
    ensures latest.vals != prior <==>
      AnyMarked(ChangeReport(latest.keys, latest.vals, prior)) || !(prior.Keys <= latest.vals.Keys)
  {
    var r := ChangeReport(latest.keys, latest.vals, prior);
    if latest.vals == prior {
      forall i | 0 <= i < |r|
        ensures !r[i].changed
      {
        assert latest.keys[i] in latest.vals;
      }
    } else if prior.Keys <= latest.vals.Keys {
      var i := DifferingItem(latest, prior);
      assert 0 <= i < |r| && r[i].changed;
    }
  }
}
