/** The read-only product catalog the date store consults. Only the fields the
    store touches are kept: the `id` it joins on and the `name` and `price`
    it displays for a selected bundle. */
module Catalog {
  import opened Wrappers

  datatype Product = Product(id: string, name: string, price: string)

  /** True when `products[i]` is the bundle the nullable reference `ref` names.
      A JavaScript strict comparison of a string id with `null` is false, so
      `None` matches nothing. */
  predicate Matches(products: seq<Product>, i: int, ref: Option<string>)
  {
    0 <= i < |products| && ref == Some(products[i].id)
  }

  /** The catalog ids are pairwise distinct. */
  predicate UniqueIds(products: seq<Product>)
  {
    forall i, j :: 0 <= i < j < |products| ==> products[i].id != products[j].id
  }

  /** The catalog lookup: the first entry, scanning from the front, whose id
      equals the reference; `None` when the reference is null or dangling. */
  function Find(products: seq<Product>, ref: Option<string>): (r: Option<Product>)
    ensures r.None? <==> forall i :: 0 <= i < |products| ==> !Matches(products, i, ref)
    ensures r.Some? ==> exists i :: Matches(products, i, ref) && products[i] == r.value
                                   && forall j :: 0 <= j < i ==> !Matches(products, j, ref)
  {
    if |products| == 0 then None
    else if ref == Some(products[0].id) then
      assert Matches(products, 0, ref);
      Some(products[0])
    else
      var rest := Find(products[1..], ref);
      assert forall i :: 1 <= i < |products| ==> (Matches(products, i, ref) <==> Matches(products[1..], i - 1, ref));
      if rest.Some? then
        var k :| Matches(products[1..], k, ref) && products[1..][k] == rest.value
                 && forall j :: 0 <= j < k ==> !Matches(products[1..], j, ref);
        assert Matches(products, k + 1, ref);
        rest
      else
        rest
  }

  /** With a catalog of unique ids, a reference that names some entry resolves to
      exactly that entry; the weak reference is only absent when it dangles. */
  lemma FindUnique(products: seq<Product>, p: Product)
    requires UniqueIds(products)
    requires p in products
    ensures Find(products, Some(p.id)) == Some(p)
  {
  }
}
