/** The `inventory` table as a map from `product_id` to the stored row. The
    primary key on `product_id` makes the map the natural model: at most one
    row per id. */
module Inventory {
  import opened Wrappers
  import Strings
  import Seqs

  /** One row of the `inventory` table. */
  datatype Product = Product(
    id: string,
    name: string,
    quantity: int,
    arrivalDate: string,
    source: string,
    boxId: string,
    unitPrice: real)

  /** The submitted form: every column except the primary key. */
  datatype Form = Form(
    name: string,
    quantity: int,
    arrivalDate: string,
    source: string,
    boxId: string,
    unitPrice: real)

  type Store = map<string, Product>

  /** The non-key columns of a row. */
  function FieldsOf(p: Product): Form
  {
    Form(p.name, p.quantity, p.arrivalDate, p.source, p.boxId, p.unitPrice)
  }

  /** The row an INSERT of `id` with form `f` stores. */
  function Row(id: string, f: Form): (p: Product)
    ensures p.id == id && FieldsOf(p) == f
  {
    Product(id, f.name, f.quantity, f.arrivalDate, f.source, f.boxId, f.unitPrice)
  }

  /** Every row is stored under its own id. */
  ghost predicate WellKeyed(s: Store)
  {
    forall id :: id in s ==> s[id].id == id
  }

  /** INSERT: refused (None, the integrity error) when the id is taken;
      otherwise the store gains exactly the new row and nothing else moves. */
  function Add(s: Store, id: string, f: Form): (r: Option<Store>)
    ensures r.None? <==> id in s
    ensures r.Some? ==> r.value.Keys == s.Keys + {id}
    ensures r.Some? ==> r.value[id].id == id && FieldsOf(r.value[id]) == f
    ensures r.Some? ==> forall k :: k in s ==> r.value[k] == s[k]
    ensures r.Some? && WellKeyed(s) ==> WellKeyed(r.value)
  {
    if id in s then None else Some(s[id := Row(id, f)])
  }

  /** UPDATE ... WHERE product_id = id: replaces the non-key columns of the
      matching row, keeps its key; matches nothing when the id is absent. */
  function Edit(s: Store, id: string, f: Form): (r: Store)
    ensures r.Keys == s.Keys
    ensures id in s ==> r[id].id == s[id].id && FieldsOf(r[id]) == f
    ensures id !in s ==> r == s
    ensures forall k :: k in s && k != id ==> r[k] == s[k]
    ensures WellKeyed(s) ==> WellKeyed(r)
  {
    if id in s then s[id := Row(s[id].id, f)] else s
  }

  /** DELETE ... WHERE product_id = id: the id is gone afterwards, every other
      row stays as it was; an absent id is not an error. */
  function Delete(s: Store, id: string): (r: Store)
    ensures id !in r
    ensures r.Keys == s.Keys - {id}
    ensures forall k :: k in r ==> r[k] == s[k]
    ensures WellKeyed(s) ==> WellKeyed(r)
  {
    s - {id}
  }

  /** SELECT * ... WHERE product_id = id, `fetchone()`: the row, or nothing. */
  function Get(s: Store, id: string): (r: Option<Product>)
    ensures r.Some? <==> id in s
    ensures r.Some? ==> r.value == s[id]
  {
    if id in s then Some(s[id]) else None
  }

  lemma DeleteIdempotent(s: Store, id: string)
    ensures Delete(Delete(s, id), id) == Delete(s, id)
  {
  }

  /** Adding and then deleting a fresh id gives back the original store. */
  lemma AddThenDelete(s: Store, id: string, f: Form)
    requires id !in s
    ensures Add(s, id, f).Some? && Delete(Add(s, id, f).value, id) == s
  {
    assert Delete(Add(s, id, f).value, id).Keys == s.Keys;
  }

  /** After an edit of a present id, reading it back gives the form's fields
      under the same id. */
  lemma EditThenGet(s: Store, id: string, f: Form)
    requires WellKeyed(s) && id in s
    ensures Get(Edit(s, id, f), id) == Some(Row(id, f))
  {
  }

  /** All rows in ascending `product_id` order. SQLite returns `SELECT *`
      rows in an order the application does not control; this is one fixed
      choice (the summary does not depend on it). */
  function Enumerate(s: Store): (r: seq<Product>)
    ensures |r| == |s|
    ensures forall p :: p in r <==> p in s.Values
    ensures WellKeyed(s) ==> Seqs.NoRepeats(r)
  {
    var ids := Strings.SortedElements(s.Keys);
    var r := RowsOf(s, ids);
    EnumerateCovers(s, ids, r);
    EnumerateNoRepeats(s, ids, r);
    r
  }

  /** The rows stored under `ids`, in that order. */
  function RowsOf(s: Store, ids: seq<string>): (r: seq<Product>)
    requires forall k :: k in ids ==> k in s
    ensures |r| == |ids|
    ensures forall i :: 0 <= i < |r| ==> r[i] == s[ids[i]]
  {
    if ids == [] then [] else [s[ids[0]]] + RowsOf(s, ids[1..])
  }

  lemma EnumerateCovers(s: Store, ids: seq<string>, r: seq<Product>)
    requires forall k :: k in ids <==> k in s
    requires |r| == |ids|
    requires forall i :: 0 <= i < |r| ==> r[i] == s[ids[i]]
    ensures forall p :: p in r <==> p in s.Values
  {
    forall p | p in s.Values
      ensures p in r
    {
      var id :| id in s && s[id] == p;
      var j :| 0 <= j < |ids| && ids[j] == id;
      assert r[j] == p;
    }
  }

  /** Rows read under distinct ids of a well-keyed store are distinct. */
  lemma EnumerateNoRepeats(s: Store, ids: seq<string>, r: seq<Product>)
    requires Strings.StrictlyIncreasing(ids)
    requires forall k :: k in ids ==> k in s
    requires |r| == |ids|
    requires forall i :: 0 <= i < |r| ==> r[i] == s[ids[i]]
    ensures WellKeyed(s) ==> Seqs.NoRepeats(r)
  {
    if WellKeyed(s) {
      forall i, j | 0 <= i < j < |r|
        ensures r[i] != r[j]
      {
        assert r[i].id == ids[i] && r[j].id == ids[j];
        assert Strings.Less(ids[i], ids[j]);
      }
    }
  }
}
