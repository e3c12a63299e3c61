/** Worked examples of the summary: three rows, two of them the same product
    bought at different prices. */
module SummaryExamples {
  import opened Strings
  import opened Inventory
  import opened Summary
  import SummaryOrder

  const widgetJan := Product("w1", "Widget", 2, "2024-01-01", "v1", "A", 10.0)
  const widgetFeb := Product("w2", "Widget", 3, "2024-02-01", "v1", "A", 12.0)
  const gadget := Product("g1", "Gadget", 1, "2024-01-15", "v2", "B", 5.0)

  function Sample(): seq<Product>
  {
    [widgetJan, widgetFeb, gadget]
  }

  /** The sums over the sample, one row at a time. */
  lemma SampleSumsFor(rows: seq<Product>, n: string)
    requires rows == Sample()
    ensures SumQuantity(rows, n) == SumQuantity([widgetJan], n) + SumQuantity([widgetFeb], n) + SumQuantity([gadget], n)
    ensures SumValue(rows, n) == SumValue([widgetJan], n) + SumValue([widgetFeb], n) + SumValue([gadget], n)
  {
    assert rows == ([widgetJan] + [widgetFeb]) + [gadget];
    SummaryOrder.SumsConcat([widgetJan] + [widgetFeb], [gadget], n);
    SummaryOrder.SumsConcat([widgetJan], [widgetFeb], n);
  }

  lemma SampleSums(rows: seq<Product>)
    requires rows == Sample()
    ensures SumQuantity(rows, "Gadget") == 1 && SumValue(rows, "Gadget") == 5.0
    ensures SumQuantity(rows, "Widget") == 5 && SumValue(rows, "Widget") == 56.0
  {
    SampleSumsFor(rows, "Gadget");
    SampleSumsFor(rows, "Widget");
    SummaryOrder.SumsSingle(widgetJan, "Gadget");
    SummaryOrder.SumsSingle(widgetFeb, "Gadget");
    SummaryOrder.SumsSingle(gadget, "Gadget");
    SummaryOrder.SumsSingle(widgetJan, "Widget");
    SummaryOrder.SumsSingle(widgetFeb, "Widget");
    SummaryOrder.SumsSingle(gadget, "Widget");
    assert Worth(widgetJan) == 20.0 && Worth(widgetFeb) == 36.0 && Worth(gadget) == 5.0;
  }

  lemma SampleNames()
    ensures NamesOf(Sample()) == {"Widget", "Gadget"}
  {
    var rows := Sample();
    assert forall p :: p in rows <==> p == widgetJan || p == widgetFeb || p == gadget;
  }

  lemma TwoLineTable(a: Total, b: Total, kept: seq<Product>)
    requires Less(a.name, b.name) && NamesOf(kept) == {a.name, b.name}
    requires a.quantity == SumQuantity(kept, a.name) && a.value == SumValue(kept, a.name)
    requires b.quantity == SumQuantity(kept, b.name) && b.value == SumValue(kept, b.name)
    ensures IsSummaryOf([a, b], kept)
  {
    assert forall t :: t in [a, b] <==> t == a || t == b;
  }

  lemma NoFilterTable(rows: seq<Product>)
    requires rows == Sample()
    ensures IsSummaryOf([Total("Gadget", 1, 5.0), Total("Widget", 5, 56.0)], rows)
  {
    SampleSums(rows);
    SampleNames();
    assert Less("Gadget", "Widget");
    TwoLineTable(Total("Gadget", 1, 5.0), Total("Widget", 5, 56.0), rows);
  }

  lemma NoFilterRows(rows: seq<Product>)
    requires rows == Sample()
    ensures Summarize(rows, "", "", "").rows == [Total("Gadget", 1, 5.0), Total("Widget", 5, 56.0)]
  {
    NoFilterKeepsAll(rows, "");
    NoFilterTable(rows);
    SummaryOrder.SummaryRowsCharacterized(rows, "", "", "", [Total("Gadget", 1, 5.0), Total("Widget", 5, 56.0)]);
  }

  /** One filter step: the head row is kept or dropped by `Keep`. */
  lemma FilterCons(p: Product, rest: seq<Product>, vendor: string, startDate: string, endDate: string)
    ensures Filter([p] + rest, vendor, startDate, endDate)
         == (if Keep(vendor, startDate, endDate, p) then [p] else []) + Filter(rest, vendor, startDate, endDate)
  {
    assert ([p] + rest)[1..] == rest;
  }

  /** Of three rows, the filter keeps the first two. */
  lemma FilterKeepsFirstTwo(a: Product, b: Product, c: Product, vendor: string, startDate: string, endDate: string)
    requires Keep(vendor, startDate, endDate, a) && Keep(vendor, startDate, endDate, b)
    requires !Keep(vendor, startDate, endDate, c)
    ensures Filter([a, b, c], vendor, startDate, endDate) == [a, b]
  {
    FilterCons(c, [], vendor, startDate, endDate);
    assert [c] + [] == [c];
    FilterCons(b, [c], vendor, startDate, endDate);
    assert [b] + [c] == [b, c];
    FilterCons(a, [b, c], vendor, startDate, endDate);
    assert [a] + [b, c] == [a, b, c];
  }

  /** Of three rows, the filter keeps only the middle one. */
  lemma FilterKeepsMiddle(a: Product, b: Product, c: Product, vendor: string, startDate: string, endDate: string)
    requires !Keep(vendor, startDate, endDate, a) && Keep(vendor, startDate, endDate, b)
    requires !Keep(vendor, startDate, endDate, c)
    ensures Filter([a, b, c], vendor, startDate, endDate) == [b]
  {
    FilterCons(c, [], vendor, startDate, endDate);
    assert [c] + [] == [c];
    FilterCons(b, [c], vendor, startDate, endDate);
    assert [b] + [c] == [b, c];
    FilterCons(a, [b, c], vendor, startDate, endDate);
    assert [a] + [b, c] == [a, b, c];
  }

  lemma OneLineTable(a: Total, kept: seq<Product>)
    requires NamesOf(kept) == {a.name}
    requires a.quantity == SumQuantity(kept, a.name) && a.value == SumValue(kept, a.name)
    ensures IsSummaryOf([a], kept)
  {
    assert forall t :: t in [a] <==> t == a;
  }

  lemma WidgetsOnly(rows: seq<Product>)
    requires rows == [widgetJan, widgetFeb]
    ensures SumQuantity(rows, "Widget") == 5 && SumValue(rows, "Widget") == 56.0
    ensures NamesOf(rows) == {"Widget"}
  {
    var r1 := [widgetJan];
    assert rows[..1] == r1 && r1[..0] == [];
    assert SumQuantity(r1, "Widget") == 2 && SumValue(r1, "Widget") == 20.0;
    assert forall p :: p in rows <==> p == widgetJan || p == widgetFeb;
  }

  lemma VendorNormalized()
    ensures NormalizeVendor("v1") == "v1"
  {
    StripKeepsTrimmed("v1");
    LowerKeepsLowercase("v1");
  }

  lemma VendorMatches()
    ensures Contains("v1", Lower("v1")) && !Contains("v1", Lower("v2"))
  {
    LowerKeepsLowercase("v1");
    LowerKeepsLowercase("v2");
    assert "v2"[..2] == "v2" && "v2"[1..] == "2";
  }

  /** The vendor test keeps both Widget rows (source "v1") and drops the
      Gadget row (source "v2"). */
  lemma VendorKeeps(vendor: string)
    requires vendor == NormalizeVendor("v1")
    ensures Keep(vendor, "", "", widgetJan) && Keep(vendor, "", "", widgetFeb)
    ensures !Keep(vendor, "", "", gadget)
  {
    VendorNormalized();
    VendorMatches();
  }

  lemma VendorKept(rows: seq<Product>, vendor: string)
    requires rows == Sample() && vendor == "v1"
    ensures Kept(rows, vendor, "", "") == [widgetJan, widgetFeb]
  {
    var v := NormalizeVendor(vendor);
    VendorKeeps(v);
    FilterKeepsFirstTwo(widgetJan, widgetFeb, gadget, v, "", "");
  }

  lemma VendorRows(rows: seq<Product>, vendor: string)
    requires rows == Sample() && vendor == "v1"
    ensures Summarize(rows, vendor, "", "").rows == [Total("Widget", 5, 56.0)]
  {
    VendorKept(rows, vendor);
    WidgetsOnly([widgetJan, widgetFeb]);
    var table := [Total("Widget", 5, 56.0)];
    OneLineTable(table[0], [widgetJan, widgetFeb]);
    SummaryOrder.SummaryRowsCharacterized(rows, vendor, "", "", table);
  }

  /** The string facts the date example rests on. */
  lemma DateFacts()
    ensures NormalizeVendor("") == ""
    ensures !LessEq("2024-02-01", "2024-01-01") && !LessEq("2024-02-01", "2024-01-15")
    ensures LessEq("2024-02-01", "2024-02-01")
  {
  }

  lemma StartDateKept(rows: seq<Product>, startDate: string)
    requires rows == Sample() && startDate == "2024-02-01"
    ensures Kept(rows, "", startDate, "") == [widgetFeb]
  {
    DateFacts();
    var none: string := "";
    assert Keep(none, startDate, none, widgetFeb);
    assert !Keep(none, startDate, none, widgetJan) && !Keep(none, startDate, none, gadget);
    FilterKeepsMiddle(widgetJan, widgetFeb, gadget, none, startDate, none);
  }

  lemma FebruaryOnly(rows: seq<Product>)
    requires rows == [widgetFeb]
    ensures SumQuantity(rows, "Widget") == 3 && SumValue(rows, "Widget") == 36.0
    ensures NamesOf(rows) == {"Widget"}
  {
    assert rows[..0] == [];
    assert forall p :: p in rows <==> p == widgetFeb;
  }

  lemma StartDateRows(rows: seq<Product>, startDate: string)
    requires rows == Sample() && startDate == "2024-02-01"
    ensures Summarize(rows, "", startDate, "").rows == [Total("Widget", 3, 36.0)]
  {
    StartDateKept(rows, startDate);
    FebruaryOnly([widgetFeb]);
    var table := [Total("Widget", 3, 36.0)];
    OneLineTable(table[0], [widgetFeb]);
    SummaryOrder.SummaryRowsCharacterized(rows, "", startDate, "", table);
  }

  /** Without filters the page lists Gadget before Widget, and Widget's value
      is the sum of quantity times price over its two rows (2*10 + 3*12). The
      chart lists follow the table. */
  lemma NoFilterExample()
    ensures var v := Summarize(Sample(), "", "", "");
      && v.rows == [Total("Gadget", 1, 5.0), Total("Widget", 5, 56.0)]
      && v.labels == ["Gadget", "Widget"]
      && v.quantities == [1, 5]
      && v.values == [5.0, 56.0]
  {
    var v := Summarize(Sample(), "", "", "");
    NoFilterRows(Sample());
    TwoLineChart(v, Total("Gadget", 1, 5.0), Total("Widget", 5, 56.0));
  }

  /** A view whose table has two lines charts exactly those two lines. */
  lemma TwoLineChart(v: View, a: Total, b: Total)
    requires v.rows == [a, b]
    requires |v.labels| == |v.rows| && |v.quantities| == |v.rows| && |v.values| == |v.rows|
    requires forall i :: 0 <= i < |v.rows| ==>
      v.labels[i] == v.rows[i].name && v.quantities[i] == v.rows[i].quantity && v.values[i] == v.rows[i].value
    ensures v.labels == [a.name, b.name] && v.quantities == [a.quantity, b.quantity] && v.values == [a.value, b.value]
  {
    assert v.rows[0] == a && v.rows[1] == b;
  }

  /** Filtering on vendor "v1" drops the Gadget entirely; Widget keeps both
      of its rows. */
  lemma VendorExample()
    ensures Summarize(Sample(), "v1", "", "").rows == [Total("Widget", 5, 56.0)]
  {
    VendorRows(Sample(), "v1");
  }

  /** A start date keeps only rows arriving on or after it: of the sample,
      only the February Widget row. */
  lemma StartDateExample()
    ensures Summarize(Sample(), "", "2024-02-01", "").rows == [Total("Widget", 3, 36.0)]
  {
    StartDateRows(Sample(), "2024-02-01");
  }

  /** With nothing in the inventory the page is empty, not an error. */
  lemma EmptyInventoryExample(vendor: string, startDate: string, endDate: string)
    ensures Summarize([], vendor, startDate, endDate) == View([], [], [], [])
  {
  }
}
