/**
 The product records of the catalog and the searches the catalog manager runs over
 its list of records: `find` by id or by code, `findIndex` by id and the `filter`
 that deletes by id. Also the two invariants the manager keeps (ids strictly
 increasing and below the id counter, codes unique) and what each operation does
 to them.
 */
module Catalog {

  datatype Option<T> = None | Some(value: T)

  /** One catalog record; prices and stock levels are whole numbers here. */
  datatype Product = Product(
    id: int,
    title: string,
    description: string,
    price: int,
    thumbnail: string,
    code: string,
    stock: int)

  /** Why adding a product is refused. */
  datatype AddError = MissingField | CodeInUse

  datatype Outcome = Pass | Fail(error: AddError)

  /** None of the six fields is falsy: no empty text, no zero number. */
  predicate AllFieldsGiven(title: string, description: string, price: int,
                           thumbnail: string, code: string, stock: int)
  {
    title != "" && description != "" && price != 0 &&
    thumbnail != "" && code != "" && stock != 0
  }

  /** `products.find(p => p.id === id)`: the first record with that id, if any. */
  function FindById(ps: seq<Product>, id: int): (r: Option<Product>)
    ensures r.None? <==> forall k :: 0 <= k < |ps| ==> ps[k].id != id
    ensures r.Some? ==> r.value in ps && r.value.id == id
  {
    if ps == [] then None
    else if ps[0].id == id then Some(ps[0])
    else
      var r := FindById(ps[1..], id);
      assert forall k :: 1 <= k < |ps| ==> ps[k] == ps[1..][k - 1];
      r
  }

  /** `products.find(p => p.code === code)`: the first record with that code, if any. */
  function FindByCode(ps: seq<Product>, code: string): (r: Option<Product>)
    ensures r.None? <==> forall k :: 0 <= k < |ps| ==> ps[k].code != code
    ensures r.Some? ==> r.value in ps && r.value.code == code
  {
    if ps == [] then None
    else if ps[0].code == code then Some(ps[0])
    else
      var r := FindByCode(ps[1..], code);
      assert forall k :: 1 <= k < |ps| ==> ps[k] == ps[1..][k - 1];
      r
  }

  /** `products.findIndex(p => p.id === id)`: the first index holding that id, or -1. */
  function FindIndexById(ps: seq<Product>, id: int): (i: int)
    ensures -1 <= i < |ps|
    ensures i == -1 <==> forall k :: 0 <= k < |ps| ==> ps[k].id != id
    ensures 0 <= i ==> ps[i].id == id && forall k :: 0 <= k < i ==> ps[k].id != id
  {
    if ps == [] then -1
    else if ps[0].id == id then 0
    else
      var j := FindIndexById(ps[1..], id);
      assert forall k :: 1 <= k < |ps| ==> ps[k] == ps[1..][k - 1];
      if j == -1 then -1 else j + 1
  }

  /** `products.filter(p => p.id !== id)`: the records whose id differs, in their order. */
  function WithoutId(ps: seq<Product>, id: int): (r: seq<Product>)
    ensures |r| <= |ps|
    ensures forall p :: p in r <==> p in ps && p.id != id
  {
    if ps == [] then []
    else if ps[0].id != id then [ps[0]] + WithoutId(ps[1..], id)
    else WithoutId(ps[1..], id)
  }

  /** Ids strictly increase along the list and all lie below the counter. */
  predicate IdsIncreasingBelow(ps: seq<Product>, counter: int)
  {
    (forall i, j :: 0 <= i < j < |ps| ==> ps[i].id < ps[j].id) &&
    (forall i :: 0 <= i < |ps| ==> ps[i].id < counter)
  }

  /** No two records share a code. */
  predicate CodesUnique(ps: seq<Product>)
  {
    forall i, j :: 0 <= i < j < |ps| ==> ps[i].code != ps[j].code
  }

  // ----- find and findIndex agree -----

  /** `find` returns exactly the record at the index `findIndex` reports. */
  lemma {:induction false} FindByIdAtFindIndex(ps: seq<Product>, id: int)
    ensures var i := FindIndexById(ps, id);
            FindById(ps, id) == if i == -1 then None else Some(ps[i])
  {
    if ps != [] && ps[0].id != id {
      FindByIdAtFindIndex(ps[1..], id);
    }
  }

  /** Under the id invariant, looking up a stored id yields that very record. */
  lemma FindByIdUnique(ps: seq<Product>, counter: int, k: int)
    requires IdsIncreasingBelow(ps, counter)
    requires 0 <= k < |ps|
    ensures FindIndexById(ps, ps[k].id) == k
    ensures FindById(ps, ps[k].id) == Some(ps[k])
  {
  }

  // ----- adding a record -----

  /** Appending a record that carries the counter, and bumping the counter, keeps the id invariant. */
  lemma AppendKeepsIds(ps: seq<Product>, counter: int, p: Product)
    requires IdsIncreasingBelow(ps, counter)
    requires p.id == counter
    ensures IdsIncreasingBelow(ps + [p], counter + 1)
  {
  }

  /** Appending a record whose code no stored record has keeps codes unique. */
  lemma AppendKeepsCodesUnique(ps: seq<Product>, p: Product)
    requires CodesUnique(ps)
    requires FindByCode(ps, p.code).None?
    ensures CodesUnique(ps + [p])
  {
  }

  /** A freshly appended record is found again by its id. */
  lemma FindAfterAppend(ps: seq<Product>, counter: int, p: Product)
    requires IdsIncreasingBelow(ps, counter)
    requires p.id == counter
    ensures FindById(ps + [p], counter) == Some(p)
  {
    AppendKeepsIds(ps, counter, p);
    FindByIdUnique(ps + [p], counter + 1, |ps|);
  }

  // ----- replacing a record -----

  /** Replacing a record by one with the same id keeps the id invariant. */
  lemma ReplaceKeepsIds(ps: seq<Product>, counter: int, i: int, q: Product)
    requires 0 <= i < |ps| && q.id == ps[i].id
    ensures IdsIncreasingBelow(ps[i := q], counter) <==> IdsIncreasingBelow(ps, counter)
  {
    assert forall k :: 0 <= k < |ps| ==> ps[i := q][k].id == ps[k].id;
  }

  // ----- deleting by id -----

  /** Filtering distributes over concatenation, so the kept records stay in their order. */
  lemma {:induction false} WithoutIdAppend(a: seq<Product>, b: seq<Product>, id: int)
    ensures WithoutId(a + b, id) == WithoutId(a, id) + WithoutId(b, id)
  {
    if a != [] {
      assert (a + b)[1..] == a[1..] + b;
      WithoutIdAppend(a[1..], b, id);
    } else {
      assert a + b == b;
    }
  }

  /** Deleting an id nobody has leaves the list as it was. */
  lemma {:induction false} WithoutAbsentId(ps: seq<Product>, id: int)
    requires forall k :: 0 <= k < |ps| ==> ps[k].id != id
    ensures WithoutId(ps, id) == ps
  {
    if ps != [] {
      WithoutAbsentId(ps[1..], id);
    }
  }

  /** Deleting the same id twice is deleting it once. */
  lemma WithoutIdTwice(ps: seq<Product>, id: int)
    ensures WithoutId(WithoutId(ps, id), id) == WithoutId(ps, id)
  {
  }

  /** Deleting records keeps the id invariant: the kept ids still increase and stay below the counter. */
  lemma {:induction false} WithoutIdKeepsIds(ps: seq<Product>, counter: int, id: int)
    requires IdsIncreasingBelow(ps, counter)
    ensures IdsIncreasingBelow(WithoutId(ps, id), counter)
  {
    if ps != [] {
      var tail := ps[1..];
      assert IdsIncreasingBelow(tail, counter);
      WithoutIdKeepsIds(tail, counter, id);
      if ps[0].id != id {
        var rest := WithoutId(tail, id);
        assert forall k :: 0 <= k < |rest| ==> rest[k] in tail;
        assert forall p :: p in tail ==> ps[0].id < p.id;
      }
    }
  }

  /** Deleting records keeps codes unique. */
  lemma {:induction false} WithoutIdKeepsCodesUnique(ps: seq<Product>, id: int)
    requires CodesUnique(ps)
    ensures CodesUnique(WithoutId(ps, id))
  {
    if ps != [] {
      var tail := ps[1..];
      assert CodesUnique(tail);
      WithoutIdKeepsCodesUnique(tail, id);
      if ps[0].id != id {
        var rest := WithoutId(tail, id);
        assert forall k :: 0 <= k < |rest| ==> rest[k] in tail;
        assert forall p :: p in tail ==> ps[0].code != p.code;
      }
    }
  }

  /** After deleting an id, no record carries it. */
  lemma WithoutIdRemovesAll(ps: seq<Product>, id: int)
    ensures FindById(WithoutId(ps, id), id).None?
  {
  }
}
