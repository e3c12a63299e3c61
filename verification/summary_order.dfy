/** The summary does not depend on the order in which SQLite hands back the
    inventory rows: any two listings of the same rows give the same page. */
module SummaryOrder {
  import opened Strings
  import opened Inventory
  import opened Summary
  import Seqs

  lemma EmptyIffNoMembers(s: seq<Total>)
    ensures s == [] <==> forall x :: x !in s
  {
    if s != [] {
      assert s[0] in s;
    }
  }

  /** A table strictly increasing by name is determined by its set of lines. */
  lemma {:induction false} StrictlySortedUnique(a: seq<Total>, b: seq<Total>)
    requires StrictlySortedByName(a) && StrictlySortedByName(b)
    requires forall x :: x in a <==> x in b
    ensures a == b
    decreases |a|
  {
    if |a| == 0 || |b| == 0 {
      EmptyIffNoMembers(a);
      EmptyIffNoMembers(b);
    } else {
      assert a[0] in a && b[0] in b;
      var i :| 0 <= i < |b| && b[i] == a[0];
      var j :| 0 <= j < |a| && a[j] == b[0];
      LessTrichotomy(a[0].name, b[0].name);
      assert a[0] == b[0];
      forall x
        ensures x in a[1..] <==> x in b[1..]
      {
        if x in a[1..] {
          var k :| 1 <= k < |a| && a[k] == x;
          LessTrichotomy(a[0].name, x.name);
          assert x in b && x != b[0];
        }
        if x in b[1..] {
          var k :| 1 <= k < |b| && b[k] == x;
          LessTrichotomy(b[0].name, x.name);
          assert x in a && x != a[0];
        }
      }
      StrictlySortedUnique(a[1..], b[1..]);
      assert a == [a[0]] + a[1..] && b == [b[0]] + b[1..];
    }
  }

  /** The sums are additive over concatenation. */
  lemma {:induction false} SumsConcat(x: seq<Product>, y: seq<Product>, n: string)
    ensures SumQuantity(x + y, n) == SumQuantity(x, n) + SumQuantity(y, n)
    ensures SumValue(x + y, n) == SumValue(x, n) + SumValue(y, n)
    decreases |y|
  {
    if y == [] {
      assert x + y == x;
    } else {
      var init := y[..|y| - 1];
      SumsConcat(x, init, n);
      assert (x + y)[..|x + y| - 1] == x + init;
    }
  }

  /** The sums over a single row. */
  lemma SumsSingle(c: Product, n: string)
    ensures SumQuantity([c], n) == if c.name == n then c.quantity else 0
    ensures SumValue([c], n) == if c.name == n then Worth(c) else 0.0
  {
    assert [c][..0] == [];
  }

  /** Taking row `j` out of a listing takes exactly its contribution out of
      the sums. */
  lemma SumsRemove(b: seq<Product>, j: int, n: string)
    requires 0 <= j < |b|
    ensures SumQuantity(b, n) == SumQuantity(b[..j] + b[j + 1..], n) + (if b[j].name == n then b[j].quantity else 0)
    ensures SumValue(b, n) == SumValue(b[..j] + b[j + 1..], n) + (if b[j].name == n then Worth(b[j]) else 0.0)
  {
    var front, c, back := b[..j], b[j], b[j + 1..];
    assert b == (front + [c]) + back;
    SumsConcat(front + [c], back, n);
    SumsConcat(front, [c], n);
    SumsSingle(c, n);
    SumsConcat(front, back, n);
  }

  lemma RemoveMultiset(b: seq<Product>, j: int)
    requires 0 <= j < |b|
    ensures multiset(b[..j] + b[j + 1..]) == multiset(b) - multiset{b[j]}
  {
    assert b == b[..j] + [b[j]] + b[j + 1..];
  }

  /** The sums depend only on which rows there are, not on their order. */
  lemma {:induction false} SumsIgnoreOrder(a: seq<Product>, b: seq<Product>, n: string)
    requires multiset(a) == multiset(b)
    ensures SumQuantity(a, n) == SumQuantity(b, n)
    ensures SumValue(a, n) == SumValue(b, n)
    decreases |a|
  {
    if a == [] {
      assert |b| == |multiset(b)| == 0;
    } else {
      var last := a[|a| - 1];
      var init := a[..|a| - 1];
      assert a == init + [last];
      assert multiset(init) == multiset(a) - multiset{last};
      assert last in multiset(b);
      var j :| 0 <= j < |b| && b[j] == last;
      RemoveMultiset(b, j);
      SumsIgnoreOrder(init, b[..j] + b[j + 1..], n);
      SumsRemove(b, j, n);
    }
  }

  lemma NamesIgnoreOrder(a: seq<Product>, b: seq<Product>)
    requires multiset(a) == multiset(b)
    ensures NamesOf(a) == NamesOf(b)
  {
    forall p
      ensures p in a <==> p in b
    {
      assert p in a <==> p in multiset(a);
      assert p in b <==> p in multiset(b);
    }
  }

  lemma FilterIgnoresOrder(a: seq<Product>, b: seq<Product>, vendor: string, startDate: string, endDate: string)
    requires multiset(a) == multiset(b)
    ensures multiset(Filter(a, vendor, startDate, endDate)) == multiset(Filter(b, vendor, startDate, endDate))
  {
    var fa := Filter(a, vendor, startDate, endDate);
    var fb := Filter(b, vendor, startDate, endDate);
    Summary.FilterCounts(a, vendor, startDate, endDate);
    Summary.FilterCounts(b, vendor, startDate, endDate);
    assert forall p :: multiset(fa)[p] == multiset(fb)[p];
  }

  /** Every line of one summary is a line of the other when the kept rows
      agree up to order. */
  lemma LinesAgree(ta: seq<Total>, ka: seq<Product>, tb: seq<Total>, kb: seq<Product>)
    requires multiset(ka) == multiset(kb)
    requires IsSummaryOf(ta, ka) && IsSummaryOf(tb, kb)
    ensures forall x :: x in ta ==> x in tb
  {
    NamesIgnoreOrder(ka, kb);
    forall x | x in ta
      ensures x in tb
    {
      var i :| 0 <= i < |ta| && ta[i] == x;
      assert x.name in Names(tb);
      var k :| 0 <= k < |tb| && tb[k].name == x.name;
      SumsIgnoreOrder(ka, kb, x.name);
      assert tb[k] == x;
    }
  }

  /** Rows that agree up to order have exactly one summary table. */
  lemma SummaryTableUnique(ta: seq<Total>, ka: seq<Product>, tb: seq<Total>, kb: seq<Product>)
    requires multiset(ka) == multiset(kb)
    requires IsSummaryOf(ta, ka) && IsSummaryOf(tb, kb)
    ensures ta == tb
  {
    LinesAgree(ta, ka, tb, kb);
    LinesAgree(tb, kb, ta, ka);
    StrictlySortedUnique(ta, tb);
  }

  /** Listing the same rows in any order yields the same summary page. */
  lemma SummaryIgnoresRowOrder(a: seq<Product>, b: seq<Product>, vendor: string, startDate: string, endDate: string)
    requires multiset(a) == multiset(b)
    ensures Summarize(a, vendor, startDate, endDate) == Summarize(b, vendor, startDate, endDate)
  {
    var ka := Kept(a, vendor, startDate, endDate);
    var kb := Kept(b, vendor, startDate, endDate);
    FilterIgnoresOrder(a, b, NormalizeVendor(vendor), startDate, endDate);
    var va := Summarize(a, vendor, startDate, endDate);
    var vb := Summarize(b, vendor, startDate, endDate);
    SummaryTableUnique(va.rows, ka, vb.rows, kb);
    assert va.labels == vb.labels;
    assert va.quantities == vb.quantities;
    assert va.values == vb.values;
  }

  /** The summary table is the only table that summarises the kept rows:
      any table with the three properties of `IsSummaryOf` is the one
      `Summarize` builds. */
  lemma SummaryRowsCharacterized(products: seq<Product>, vendor: string, startDate: string, endDate: string,
                                 table: seq<Total>)
    requires IsSummaryOf(table, Kept(products, vendor, startDate, endDate))
    ensures Summarize(products, vendor, startDate, endDate).rows == table
  {
    var kept := Kept(products, vendor, startDate, endDate);
    SummaryTableUnique(Summarize(products, vendor, startDate, endDate).rows, kept, table, kept);
  }

  /** Two listings without repeats and with the same members are the same
      rows up to order, so they summarise alike. */
  lemma SameRowsSameSummary(a: seq<Product>, b: seq<Product>, vendor: string, startDate: string, endDate: string)
    requires Seqs.NoRepeats(a) && Seqs.NoRepeats(b)
    requires forall p :: p in a <==> p in b
    ensures Summarize(a, vendor, startDate, endDate) == Summarize(b, vendor, startDate, endDate)
  {
    forall p
      ensures multiset(a)[p] == multiset(b)[p]
    {
      Seqs.NoRepeatsCountsOnce(a, p);
      Seqs.NoRepeatsCountsOnce(b, p);
    }
    assert multiset(a) == multiset(b);
    SummaryIgnoresRowOrder(a, b, vendor, startDate, endDate);
  }
}
