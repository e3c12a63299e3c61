/** The summary dashboard: filter the inventory rows by vendor and arrival
    date, group the survivors by product name, total each group's quantity
    and value, sort the groups by name, and emit the table plus three chart
    series aligned with it. */
module Summary {
  import opened Strings
  import opened Inventory

  /** One summary line: `(product_name, total_qty, total_value)`. */
  datatype Total = Total(name: string, quantity: int, value: real)

  /** What the summary page is rendered from: the table and the three chart
      series (labels, quantities, values). */
  datatype View = View(rows: seq<Total>, labels: seq<string>, quantities: seq<int>, values: seq<real>)

  // ---------------------------------------------------------------------------
  // Filtering
  // ---------------------------------------------------------------------------

  /** The `vendor` query parameter as the filter uses it: stripped, then
      lower-cased. It is empty exactly when the parameter is blank. */
  function NormalizeVendor(vendor: string): (r: string)
    ensures |r| == |Strip(vendor)|
    ensures forall k :: 0 <= k < |r| ==> r[k] == LowerChar(Strip(vendor)[k])
    ensures r == [] <==> forall k :: 0 <= k < |vendor| ==> IsSpace(vendor[k])
    ensures forall i :: 0 <= i < |r| ==> !IsUpper(r[i])
  {
    StripEmptyIffBlank(vendor);
    Lower(Strip(vendor))
  }

  /** The row test of the filter loop, with an already normalised vendor. An
      empty vendor or an empty date bound does not filter; date bounds are
      inclusive and compare strings, not dates. */
  predicate Keep(vendor: string, startDate: string, endDate: string, p: Product)
  {
    && (vendor == [] || Contains(vendor, Lower(p.source)))
    && (startDate == [] || LessEq(startDate, p.arrivalDate))
    && (endDate == [] || LessEq(p.arrivalDate, endDate))
  }

  /** The rows that pass `Keep`, in their original order. */
  function Filter(rows: seq<Product>, vendor: string, startDate: string, endDate: string): seq<Product>
  {
    if rows == [] then []
    else
      (if Keep(vendor, startDate, endDate, rows[0]) then [rows[0]] else [])
        + Filter(rows[1..], vendor, startDate, endDate)
  }

  /** Every row that passes `Keep` occurs in the filtered rows as often as in
      the input, every other row not at all. */
  lemma {:induction false} FilterCounts(rows: seq<Product>, vendor: string, startDate: string, endDate: string)
    ensures forall p :: multiset(Filter(rows, vendor, startDate, endDate))[p]
                     == if Keep(vendor, startDate, endDate, p) then multiset(rows)[p] else 0
  {
    if rows != [] {
      FilterCounts(rows[1..], vendor, startDate, endDate);
      assert rows == [rows[0]] + rows[1..];
    }
  }

  /** A row survives the filter exactly when it is an input row and the three
      conditions of the source's filter hold of it: the (normalised) vendor is
      empty or occurs in the lower-cased source, and each non-empty date bound
      is met inclusively in string order. */
  lemma FilterMembership(rows: seq<Product>, vendor: string, startDate: string, endDate: string, p: Product)
    ensures p in Filter(rows, vendor, startDate, endDate)
      <==>
      && p in rows
      && (vendor == [] || exists i :: OccursAt(vendor, Lower(p.source), i))
      && (startDate == [] || LessEq(startDate, p.arrivalDate))
      && (endDate == [] || LessEq(p.arrivalDate, endDate))
  {
    FilterKeeps(rows, vendor, startDate, endDate, p);
    KeepMeans(vendor, startDate, endDate, p);
  }

  lemma FilterKeeps(rows: seq<Product>, vendor: string, startDate: string, endDate: string, p: Product)
    ensures p in Filter(rows, vendor, startDate, endDate) <==> p in rows && Keep(vendor, startDate, endDate, p)
  {
    var r := Filter(rows, vendor, startDate, endDate);
    FilterCounts(rows, vendor, startDate, endDate);
    assert p in r <==> p in multiset(r);
    assert p in rows <==> p in multiset(rows);
  }

  lemma KeepMeans(vendor: string, startDate: string, endDate: string, p: Product)
    ensures Keep(vendor, startDate, endDate, p) <==>
      && (vendor == [] || exists i :: OccursAt(vendor, Lower(p.source), i))
      && (startDate == [] || LessEq(startDate, p.arrivalDate))
      && (endDate == [] || LessEq(p.arrivalDate, endDate))
  {
    assert Keep(vendor, startDate, endDate, p) <==>
      && (vendor == [] || Contains(vendor, Lower(p.source)))
      && (startDate == [] || LessEq(startDate, p.arrivalDate))
      && (endDate == [] || LessEq(p.arrivalDate, endDate));
    assert Contains(vendor, Lower(p.source)) <==> exists i :: OccursAt(vendor, Lower(p.source), i);
  }

  /** With a blank vendor and no date bounds every row is kept, in order. */
  lemma {:induction false} NoFilterKeepsAll(rows: seq<Product>, vendor: string)
    requires forall k :: 0 <= k < |vendor| ==> IsSpace(vendor[k])
    ensures Kept(rows, vendor, "", "") == rows
  {
    KeepsAll(rows, NormalizeVendor(vendor));
  }

  lemma {:induction false} KeepsAll(rows: seq<Product>, vendor: string)
    requires vendor == []
    ensures Filter(rows, vendor, "", "") == rows
  {
    if rows != [] {
      KeepsAll(rows[1..], vendor);
      assert rows == [rows[0]] + rows[1..];
    }
  }

  // ---------------------------------------------------------------------------
  // Reference totals
  // ---------------------------------------------------------------------------

  /** A row's contribution to its group's value: quantity times unit price. */
  function Worth(p: Product): real
  {
    p.quantity as real * p.unitPrice
  }

  /** Sum of `quantity` over the rows named `name`. */
  function SumQuantity(rows: seq<Product>, name: string): int
  {
    if rows == [] then 0
    else
      var last := rows[|rows| - 1];
      SumQuantity(rows[..|rows| - 1], name) + (if last.name == name then last.quantity else 0)
  }

  /** Sum of `quantity * unit_price` over the rows named `name`. */
  function SumValue(rows: seq<Product>, name: string): real
  {
    if rows == [] then 0.0
    else
      var last := rows[|rows| - 1];
      SumValue(rows[..|rows| - 1], name) + (if last.name == name then Worth(last) else 0.0)
  }

  /** The product names occurring among `rows`. */
  function NamesOf(rows: seq<Product>): set<string>
  {
    set p | p in rows :: p.name
  }

  // ---------------------------------------------------------------------------
  // Grouping: the `defaultdict` accumulation, in insertion order
  // ---------------------------------------------------------------------------

  /** The names of the summary lines. */
  function Names(g: seq<Total>): set<string>
  {
    set t | t in g :: t.name
  }

  lemma NamesCons(t: Total, g: seq<Total>)
    ensures Names([t] + g) == {t.name} + Names(g)
  {
    assert forall x :: x in [t] + g <==> x == t || x in g;
  }

  predicate DistinctNames(g: seq<Total>)
  {
    forall i, j :: 0 <= i < j < |g| ==> g[i].name != g[j].name
  }

  /** The accumulated quantity for `name`: 0 when it has no line yet (the
      `defaultdict` default). */
  function QuantityOf(g: seq<Total>, name: string): int
  {
    if g == [] then 0
    else if g[0].name == name then g[0].quantity
    else QuantityOf(g[1..], name)
  }

  /** The accumulated value for `name`: 0.0 when it has no line yet. */
  function ValueOf(g: seq<Total>, name: string): real
  {
    if g == [] then 0.0
    else if g[0].name == name then g[0].value
    else ValueOf(g[1..], name)
  }

  /** One loop iteration: add the row's quantity and worth to its name's
      line, creating the line at the end if the name is new. */
  function Accumulate(g: seq<Total>, p: Product): seq<Total>
  {
    if g == [] then [Total(p.name, p.quantity, Worth(p))]
    else if g[0].name == p.name then [Total(p.name, g[0].quantity + p.quantity, g[0].value + Worth(p))] + g[1..]
    else [g[0]] + Accumulate(g[1..], p)
  }

  /** An iteration adds the row's name to the line names. */
  lemma {:induction false} AccumulateNames(g: seq<Total>, p: Product)
    ensures Names(Accumulate(g, p)) == Names(g) + {p.name}
  {
    if g != [] {
      assert g == [g[0]] + g[1..];
      NamesCons(g[0], g[1..]);
      if g[0].name == p.name {
        NamesCons(Total(p.name, g[0].quantity + p.quantity, g[0].value + Worth(p)), g[1..]);
      } else {
        AccumulateNames(g[1..], p);
        NamesCons(g[0], Accumulate(g[1..], p));
      }
    }
  }

  /** An iteration keeps the line names distinct. */
  lemma {:induction false} AccumulateDistinct(g: seq<Total>, p: Product)
    requires DistinctNames(g)
    ensures DistinctNames(Accumulate(g, p))
  {
    if g != [] {
      TailDistinct(g);
      if g[0].name == p.name {
        assert g == [g[0]] + g[1..];
        NamesCons(g[0], g[1..]);
        ConsDistinct(Total(p.name, g[0].quantity + p.quantity, g[0].value + Worth(p)), g[1..]);
      } else {
        var rest := Accumulate(g[1..], p);
        AccumulateDistinct(g[1..], p);
        AccumulateNames(g[1..], p);
        assert g == [g[0]] + g[1..];
        NamesCons(g[0], g[1..]);
        assert g[0].name !in Names(rest);
        ConsDistinct(g[0], rest);
      }
    }
  }

  /** An iteration adds the row's quantity and worth to its own name's totals
      and leaves every other name's totals alone. */
  lemma {:induction false} AccumulateTotals(g: seq<Total>, p: Product, n: string)
    ensures QuantityOf(Accumulate(g, p), n) == QuantityOf(g, n) + (if n == p.name then p.quantity else 0)
    ensures ValueOf(Accumulate(g, p), n) == ValueOf(g, n) + (if n == p.name then Worth(p) else 0.0)
  {
    if g != [] && g[0].name != p.name && g[0].name != n {
      AccumulateTotals(g[1..], p, n);
      assert ([g[0]] + Accumulate(g[1..], p))[1..] == Accumulate(g[1..], p);
    }
  }

  /** The grouping loop over all rows: one line per distinct name, and each
      name's line holds exactly the sums over the rows with that name. */
  function Group(rows: seq<Product>): (g: seq<Total>)
    ensures DistinctNames(g)
    ensures Names(g) == NamesOf(rows)
    ensures forall n :: QuantityOf(g, n) == SumQuantity(rows, n)
    ensures forall n :: ValueOf(g, n) == SumValue(rows, n)
  {
    if rows == [] then []
    else
      var init := rows[..|rows| - 1];
      var last := rows[|rows| - 1];
      assert rows == init + [last];
      var g := Group(init);
      AccumulateNames(g, last);
      AccumulateDistinct(g, last);
      assert forall n :: QuantityOf(Accumulate(g, last), n) == SumQuantity(rows, n)
                      && ValueOf(Accumulate(g, last), n) == SumValue(rows, n) by {
        forall n
          ensures QuantityOf(Accumulate(g, last), n) == SumQuantity(rows, n)
          ensures ValueOf(Accumulate(g, last), n) == SumValue(rows, n)
        {
          AccumulateTotals(g, last, n);
        }
      }
      Accumulate(g, last)
  }

  /** With distinct names, the lookup by a line's name finds that line. */
  lemma {:induction false} LookupFindsLine(g: seq<Total>, i: int)
    requires DistinctNames(g) && 0 <= i < |g|
    ensures QuantityOf(g, g[i].name) == g[i].quantity
    ensures ValueOf(g, g[i].name) == g[i].value
  {
    if i > 0 {
      assert g[1..][i - 1] == g[i];
      LookupFindsLine(g[1..], i - 1);
    }
  }

  // ---------------------------------------------------------------------------
  // Sorting by name
  // ---------------------------------------------------------------------------

  predicate SortedByName(g: seq<Total>)
  {
    forall i, j :: 0 <= i < j < |g| ==> LessEq(g[i].name, g[j].name)
  }

  predicate StrictlySortedByName(g: seq<Total>)
  {
    forall i, j :: 0 <= i < j < |g| ==> Less(g[i].name, g[j].name)
  }

  lemma BelowHeadBelowAll(t: Total, g: seq<Total>)
    requires SortedByName(g) && g != [] && LessEq(t.name, g[0].name)
    ensures forall x :: x in g ==> LessEq(t.name, x.name)
  {
    forall x | x in g
      ensures LessEq(t.name, x.name)
    {
      var j :| 0 <= j < |g| && g[j] == x;
      if j > 0 {
        LessEqTransitive(t.name, g[0].name, x.name);
      }
    }
  }

  /** Insert `t` before the first line whose name is not smaller. */
  function Insert(t: Total, g: seq<Total>): (r: seq<Total>)
    ensures multiset(r) == multiset(g) + multiset{t}
  {
    if g == [] then [t]
    else if LessEq(t.name, g[0].name) then [t] + g
    else
      assert g == [g[0]] + g[1..];
      [g[0]] + Insert(t, g[1..])
  }

  lemma InsertMembers(t: Total, g: seq<Total>)
    ensures forall x :: x in Insert(t, g) <==> x == t || x in g
  {
    var r := Insert(t, g);
    forall x
      ensures x in r <==> x == t || x in g
    {
      assert x in r <==> x in multiset(r);
      assert x in g <==> x in multiset(g);
    }
  }

  /** A line below every line of a sorted table can go in front of it. */
  lemma ConsSorted(h: Total, rest: seq<Total>)
    requires SortedByName(rest)
    requires forall x :: x in rest ==> LessEq(h.name, x.name)
    ensures SortedByName([h] + rest)
  {
    var r := [h] + rest;
    forall i, j | 0 <= i < j < |r|
      ensures LessEq(r[i].name, r[j].name)
    {
      if i == 0 {
        assert r[j] in rest;
      } else {
        assert r[i] == rest[i - 1] && r[j] == rest[j - 1];
      }
    }
  }

  /** A line whose name no line of a table has can go in front of it. */
  lemma ConsDistinct(h: Total, rest: seq<Total>)
    requires DistinctNames(rest)
    requires forall x :: x in rest ==> x.name != h.name
    ensures DistinctNames([h] + rest)
  {
    var r := [h] + rest;
    forall i, j | 0 <= i < j < |r|
      ensures r[i].name != r[j].name
    {
      if i == 0 {
        assert r[j] in rest;
      } else {
        assert r[i] == rest[i - 1] && r[j] == rest[j - 1];
      }
    }
  }

  lemma TailDistinct(g: seq<Total>)
    requires DistinctNames(g) && g != []
    ensures DistinctNames(g[1..])
    ensures forall x :: x in g[1..] ==> x.name != g[0].name
  {
    forall x | x in g[1..]
      ensures x.name != g[0].name
    {
      var k :| 0 <= k < |g[1..]| && g[1..][k] == x;
      assert g[k + 1] == x;
    }
  }

  lemma TailSorted(g: seq<Total>)
    requires SortedByName(g) && g != []
    ensures SortedByName(g[1..])
    ensures forall x :: x in g[1..] ==> LessEq(g[0].name, x.name)
  {
    forall x | x in g[1..]
      ensures LessEq(g[0].name, x.name)
    {
      var k :| 0 <= k < |g[1..]| && g[1..][k] == x;
      assert g[k + 1] == x;
    }
  }

  lemma {:induction false} InsertSorted(t: Total, g: seq<Total>)
    requires SortedByName(g)
    ensures SortedByName(Insert(t, g))
  {
    if g == [] {
    } else if LessEq(t.name, g[0].name) {
      BelowHeadBelowAll(t, g);
      ConsSorted(t, g);
    } else {
      LessEqTotal(t.name, g[0].name);
      var rest := Insert(t, g[1..]);
      TailSorted(g);
      InsertSorted(t, g[1..]);
      InsertMembers(t, g[1..]);
      ConsSorted(g[0], rest);
    }
  }

  lemma {:induction false} InsertDistinct(t: Total, g: seq<Total>)
    requires DistinctNames(g) && t.name !in Names(g)
    ensures DistinctNames(Insert(t, g))
  {
    if g == [] {
    } else if LessEq(t.name, g[0].name) {
      ConsDistinct(t, g);
    } else {
      assert g == [g[0]] + g[1..];
      NamesCons(g[0], g[1..]);
      var rest := Insert(t, g[1..]);
      TailDistinct(g);
      InsertDistinct(t, g[1..]);
      InsertMembers(t, g[1..]);
      ConsDistinct(g[0], rest);
    }
  }

  /** `summary_data.sort(key=name)` as an insertion sort: the same lines. */
  function SortByName(g: seq<Total>): (r: seq<Total>)
    ensures multiset(r) == multiset(g)
  {
    if g == [] then []
    else
      assert g == [g[0]] + g[1..];
      Insert(g[0], SortByName(g[1..]))
  }

  /** The sort orders the lines by name, and lines with distinct names stay
      distinct. */
  lemma {:induction false} SortByNameSorted(g: seq<Total>)
    ensures SortedByName(SortByName(g))
    ensures DistinctNames(g) ==> DistinctNames(SortByName(g))
  {
    if g != [] {
      var tail := g[1..];
      assert g == [g[0]] + tail;
      var rest := SortByName(tail);
      SortByNameSorted(tail);
      InsertSorted(g[0], rest);
      if DistinctNames(g) {
        NamesCons(g[0], tail);
        assert DistinctNames(tail) by {
          forall i, j | 0 <= i < j < |tail|
            ensures tail[i].name != tail[j].name
          {
            assert tail[i] == g[i + 1] && tail[j] == g[j + 1];
          }
        }
        assert g[0].name !in Names(rest) by {
          forall x | x in rest
            ensures x.name != g[0].name
          {
            assert x in multiset(rest);
            var k :| 0 <= k < |tail| && tail[k] == x;
            assert g[k + 1] == x;
          }
        }
        InsertDistinct(g[0], rest);
      }
    }
  }

  lemma SortedDistinctIsStrict(g: seq<Total>)
    requires SortedByName(g) && DistinctNames(g)
    ensures StrictlySortedByName(g)
  {
  }

  // ---------------------------------------------------------------------------
  // The whole dashboard
  // ---------------------------------------------------------------------------

  /** The three chart series, each aligned index by index with the table. */
  function Chart(rows: seq<Total>): (v: View)
    ensures v.rows == rows
    ensures |v.labels| == |rows| && |v.quantities| == |rows| && |v.values| == |rows|
    ensures forall i :: 0 <= i < |rows| ==>
      v.labels[i] == rows[i].name && v.quantities[i] == rows[i].quantity && v.values[i] == rows[i].value
  {
    View(rows,
         seq(|rows|, i requires 0 <= i < |rows| => rows[i].name),
         seq(|rows|, i requires 0 <= i < |rows| => rows[i].quantity),
         seq(|rows|, i requires 0 <= i < |rows| => rows[i].value))
  }

  /** The rows a summary is built from: the filtered inventory. */
  function Kept(products: seq<Product>, vendor: string, startDate: string, endDate: string): seq<Product>
  {
    Filter(products, NormalizeVendor(vendor), startDate, endDate)
  }

  /** `table` summarises `kept`: names strictly increasing (so one line per
      name), exactly the names among the kept rows, and each line carrying
      its name's quantity and value sums over the kept rows. */
  predicate IsSummaryOf(table: seq<Total>, kept: seq<Product>)
  {
    && StrictlySortedByName(table)
    && Names(table) == NamesOf(kept)
    && forall i :: 0 <= i < |table| ==>
         table[i].quantity == SumQuantity(kept, table[i].name) && table[i].value == SumValue(kept, table[i].name)
  }

  /** Grouping and then sorting by name summarises the rows. */
  lemma {:induction false} SortedGroupSpec(kept: seq<Product>)
    ensures IsSummaryOf(SortByName(Group(kept)), kept)
  {
    var g := Group(kept);
    var rows := SortByName(g);
    SortByNameSorted(g);
    SortedDistinctIsStrict(rows);
    SameMembers(rows, g);
    forall i | 0 <= i < |rows|
      ensures rows[i].quantity == SumQuantity(kept, rows[i].name)
      ensures rows[i].value == SumValue(kept, rows[i].name)
    {
      LineHoldsSums(kept, g, rows[i]);
    }
  }

  /** Sequences with the same multiset have the same members and names. */
  lemma SameMembers(a: seq<Total>, b: seq<Total>)
    requires multiset(a) == multiset(b)
    ensures forall x :: x in a <==> x in b
    ensures Names(a) == Names(b)
  {
    forall x
      ensures x in a <==> x in b
    {
      assert x in a <==> x in multiset(a);
      assert x in b <==> x in multiset(b);
    }
  }

  /** Every line of the grouping carries its name's sums. */
  lemma LineHoldsSums(kept: seq<Product>, g: seq<Total>, t: Total)
    requires g == Group(kept) && t in g
    ensures t.quantity == SumQuantity(kept, t.name)
    ensures t.value == SumValue(kept, t.name)
  {
    var k :| 0 <= k < |g| && g[k] == t;
    LookupFindsLine(g, k);
  }

  /** `summary()`: the table is strictly increasing by name (hence one line
      per name), names exactly the products among the kept rows, carries
      each name's quantity and value sums over the kept rows, and the chart
      series follow the table. No rows give an empty page. */
  function Summarize(products: seq<Product>, vendor: string, startDate: string, endDate: string): (v: View)
    ensures IsSummaryOf(v.rows, Kept(products, vendor, startDate, endDate))
    ensures |v.labels| == |v.rows| && |v.quantities| == |v.rows| && |v.values| == |v.rows|
    ensures forall i :: 0 <= i < |v.rows| ==>
      v.labels[i] == v.rows[i].name && v.quantities[i] == v.rows[i].quantity && v.values[i] == v.rows[i].value
    ensures products == [] ==> v == View([], [], [], [])
  {
    var kept := Kept(products, vendor, startDate, endDate);
    SortedGroupSpec(kept);
    Chart(SortByName(Group(kept)))
  }
}
