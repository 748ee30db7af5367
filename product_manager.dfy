/**
 The catalog manager: an in-memory list of product records mirrored in one
 backing file, and an id counter that hands out ids to new records.

 The backing file is the field `file`: the records it holds once parsed, or None
 when it is missing or does not parse. Loading replaces the in-memory list by
 that, or by the empty list; saving overwrites the file with the in-memory list.
 Since the field is public, a client that assigns it stands for anyone else who
 rewrites the file between two calls, so a reload may bring back any list at all.
 */
module Manager {
  import opened Catalog

  /** What a load of the backing file yields. */
  function Loaded(file: Option<seq<Product>>): seq<Product>
  {
    if file.Some? then file.value else []
  }

  class ProductManager {
    var products: seq<Product>
    var productIdCounter: int
    const path: string
    var file: Option<seq<Product>>

    /** Starts with the counter at 1 and whatever the backing file holds. */
    constructor (filePath: string, stored: Option<seq<Product>>)
      ensures path == filePath && file == stored
      ensures products == Loaded(stored) && productIdCounter == 1
    {
      products := [];
      productIdCounter := 1;
      path := filePath;
      file := stored;
      new;
      LoadFromFile();
    }

    /** Replaces the list by the file's records, or by nothing when the file cannot be read. */
    method LoadFromFile()
      modifies this`products
      ensures products == Loaded(file)
    {
      if file.Some? {
        products := file.value;
      } else {
        products := [];
      }
    }

    /** Overwrites the whole file with the list. */
    method SaveToFile()
      modifies this`file
      ensures file == Some(products)
    {
      file := Some(products);
    }

    /**
     Validates the six fields and the uniqueness of the code against the list as it
     stands (no reload), then appends a record carrying the counter, bumps the
     counter and saves. A refused record changes nothing.
     */
    method AddProduct(title: string, description: string, price: int,
                      thumbnail: string, code: string, stock: int)
      returns (outcome: Outcome)
      modifies this`products, this`productIdCounter, this`file
      ensures !AllFieldsGiven(title, description, price, thumbnail, code, stock) ==>
                outcome == Fail(MissingField)
      ensures AllFieldsGiven(title, description, price, thumbnail, code, stock) ==>
                outcome == if FindByCode(old(products), code).Some? then Fail(CodeInUse) else Pass
      ensures outcome.Fail? ==>
                products == old(products) && productIdCounter == old(productIdCounter) &&
                file == old(file)
      ensures outcome.Pass? ==>
                products == old(products) +
                  [Product(old(productIdCounter), title, description, price, thumbnail, code, stock)] &&
                productIdCounter == old(productIdCounter) + 1 &&
                file == Some(products)
      ensures IdsIncreasingBelow(old(products), old(productIdCounter)) ==>
                IdsIncreasingBelow(products, productIdCounter)
      ensures CodesUnique(old(products)) ==> CodesUnique(products)
    {
      if !AllFieldsGiven(title, description, price, thumbnail, code, stock) {
        return Fail(MissingField);
      }
      var existing := FindByCode(products, code);
      if existing.Some? {
        return Fail(CodeInUse);
      }
      var newProduct := Product(productIdCounter, title, description, price, thumbnail, code, stock);
      ghost var before, counterBefore := products, productIdCounter;
      productIdCounter := productIdCounter + 1;
      products := products + [newProduct];
      if IdsIncreasingBelow(before, counterBefore) {
        AppendKeepsIds(before, counterBefore, newProduct);
      }
      if CodesUnique(before) {
        AppendKeepsCodesUnique(before, newProduct);
      }
      SaveToFile();
      outcome := Pass;
    }

    /** Reloads and hands back the whole list, in insertion order. */
    method GetProducts() returns (all: seq<Product>)
      modifies this`products
      ensures products == Loaded(file)
      ensures all == products
    {
      LoadFromFile();
      all := products;
    }

    /** Reloads and returns the first record with the id, or None when there is none. */
    method GetProductById(productId: int) returns (found: Option<Product>)
      modifies this`products
      ensures products == Loaded(file)
      ensures found == FindById(products, productId)
    {
      LoadFromFile();
      found := FindById(products, productId);
    }

    /**
     Reloads; when some record has the id, replaces the first such record by the
     given one with its id forced to `productId` and saves. Otherwise nothing
     is saved.
     */
    method UpdateProduct(productId: int, updatedProduct: Product)
      modifies this`products, this`file
      ensures var loaded := Loaded(old(file));
              var i := FindIndexById(loaded, productId);
              if i == -1 then
                products == loaded && file == old(file)
              else
                products == loaded[i := updatedProduct.(id := productId)] &&
                file == Some(products)
      ensures |products| == |Loaded(old(file))|
      ensures forall k :: 0 <= k < |products| ==> products[k].id == Loaded(old(file))[k].id
      ensures IdsIncreasingBelow(Loaded(old(file)), productIdCounter) ==>
                IdsIncreasingBelow(products, productIdCounter)
    {
      LoadFromFile();
      var index := FindIndexById(products, productId);
      if index == -1 {
        return;
      }
      ReplaceKeepsIds(products, productIdCounter, index, updatedProduct.(id := productId));
      products := products[index := updatedProduct.(id := productId)];
      SaveToFile();
    }

    /** Reloads, drops every record with the id (keeping the others in order) and saves. */
    method DeleteProduct(productId: int)
      modifies this`products, this`file
      ensures products == WithoutId(Loaded(old(file)), productId)
      ensures file == Some(products)
      ensures FindById(products, productId).None?
      ensures (forall k :: 0 <= k < |Loaded(old(file))| ==> Loaded(old(file))[k].id != productId) ==>
                products == Loaded(old(file))
      ensures IdsIncreasingBelow(Loaded(old(file)), productIdCounter) ==>
                IdsIncreasingBelow(products, productIdCounter)
      ensures CodesUnique(Loaded(old(file))) ==> CodesUnique(products)
    {
      LoadFromFile();
      ghost var loaded := products;
      products := WithoutId(products, productId);
      WithoutIdRemovesAll(loaded, productId);
      if forall k :: 0 <= k < |loaded| ==> loaded[k].id != productId {
        WithoutAbsentId(loaded, productId);
      }
      if IdsIncreasingBelow(loaded, productIdCounter) {
        WithoutIdKeepsIds(loaded, productIdCounter, productId);
      }
      if CodesUnique(loaded) {
        WithoutIdKeepsCodesUnique(loaded, productId);
      }
      SaveToFile();
    }
  }

  /**
   The guarded block of the driver: three additions, where the first refusal skips
   the rest. On an empty list with the counter at 1, all three succeed with ids 1,
   2 and 3 and the file ends up holding them.
   */
  method AddSamples(manager: ProductManager) returns (outcome: Outcome)
    modifies manager
    ensures old(manager.products) == [] && old(manager.productIdCounter) == 1 ==>
              outcome.Pass? &&
              manager.products == [
                Product(1, "Producto 1", "Descripción del producto 1", 100, "imagen1.jpg", "code1", 10),
                Product(2, "Producto 2", "Descripción del producto 2", 200, "imagen2.jpg", "code2", 5),
                Product(3, "Producto 3", "Descripción del producto 3", 150, "imagen3.jpg", "code3", 8)] &&
              manager.productIdCounter == 4 &&
              manager.file == Some(manager.products)
  {
    assert "code1"[4] != "code2"[4] && "code1"[4] != "code3"[4] && "code2"[4] != "code3"[4];
    outcome := manager.AddProduct("Producto 1", "Descripción del producto 1", 100, "imagen1.jpg", "code1", 10);
    if outcome.Pass? {
      outcome := manager.AddProduct("Producto 2", "Descripción del producto 2", 200, "imagen2.jpg", "code2", 5);
      if outcome.Pass? {
        outcome := manager.AddProduct("Producto 3", "Descripción del producto 3", 150, "imagen3.jpg", "code3", 8);
      }
    }
  }

  /**
   The driver: a manager over a backing file, the guarded additions, then the whole
   list, the record with id 2 and the record with id 99. Starting from a missing or
   empty file, the three records get ids 1, 2 and 3 in that order, id 2 is the
   second of them and id 99 is absent.
   */
  method Demo(stored: Option<seq<Product>>)
    returns (all: seq<Product>, second: Option<Product>, missing: Option<Product>)
    ensures Loaded(stored) == [] ==>
              |all| == 3 &&
              all[0] == Product(1, "Producto 1", "Descripción del producto 1", 100, "imagen1.jpg", "code1", 10) &&
              all[1] == Product(2, "Producto 2", "Descripción del producto 2", 200, "imagen2.jpg", "code2", 5) &&
              all[2] == Product(3, "Producto 3", "Descripción del producto 3", 150, "imagen3.jpg", "code3", 8) &&
              second == Some(all[1]) &&
              missing == None
    ensures second.Some? ==> second.value in all && second.value.id == 2
    ensures missing.Some? ==> missing.value in all && missing.value.id == 99
  {
    var manager := new ProductManager("./data/products.json", stored);
    var _ := AddSamples(manager);
    all := manager.GetProducts();
    second := manager.GetProductById(2);
    missing := manager.GetProductById(99);
    if Loaded(stored) == [] {
      assert IdsIncreasingBelow(all, 4);
      FindByIdUnique(all, 4, 1);
    }
  }
}
