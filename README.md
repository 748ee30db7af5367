# Product catalog manager, in Dafny

A model of `ProductManager`, an in-memory product catalog backed by one JSON file.
The manager keeps a list of product records (`products`) and an id counter
(`productIdCounter`, starting at 1). It offers:

- `addProduct`: checks that none of the six fields is falsy and that no stored record has the code. It then appends a record whose id is the counter, bumps the counter and saves.
- `getProducts`: reloads from the file and returns the list.
- `getProductById`: reloads and returns the first record with the id, or nothing.
- `updateProduct`: reloads. If some record has the id, it replaces the first such record by the supplied one, with the id forced back, and saves.
- `deleteProduct`: reloads, keeps the records whose id differs, in order, and saves.

Layout:

- `catalog.dfy`, module `Catalog`, holds the `Product` record and the searches the manager runs over its list. These are `find` by id and by code, `findIndex` by id, and the `filter` that deletes. They are pure recursive functions whose contracts say what each search returns. The module also holds the two invariants and the lemmas that show what each operation does to them. The invariants are: ids strictly increase and stay below the counter; codes are unique.
- `product_manager.dfy`, module `Manager`, holds the class `ProductManager`. Its fields are the list, the counter, the path and the backing file. Its methods change those fields as the source does and tie the new state to the old one through the search functions. `Demo` and `AddSamples` are the driver at the end of the source file, written as clients of the class.

The backing file is the field `file`. It holds the parsed records, or `None` when the file is missing or does not parse. Loading sets the list to those records, or to the empty list. Saving sets `file` to the list. Any client may assign `file`, and that stands for another writer changing the file between two calls. So a reload can bring back any list. The id invariant is therefore only claimed for steps that do not reload. For reloading operations it is stated relative to the list just loaded.

`addProduct` does not reload before its uniqueness check (ProductManager.js:33-52). It checks the code against the list as it stands in memory, so a record that another writer has put in the file since the last reload is not seen. The other public operations do reload first (ProductManager.js:77, 84, 99, 119).

## Model

| member | source | states |
|---|---|---|
| Catalog.FindById | ProductManager.js:87 | `find` by id returns None exactly when no record has the id; otherwise a stored record with that id |
| Catalog.FindByCode | ProductManager.js:47-49 | `find` by code returns None exactly when no record has the code; otherwise a stored record with that code |
| Catalog.FindIndexById | ProductManager.js:102 | `findIndex` returns -1 exactly when no record has the id; otherwise the first index holding it |
| Catalog.WithoutId | ProductManager.js:122 | `filter` keeps exactly the stored records whose id differs, and never lengthens the list |
| Catalog.FindByIdAtFindIndex | ProductManager.js:87-102 | `find` by id returns exactly the record at the index `findIndex` reports: the first match, not just some match |
| Catalog.FindByIdUnique | ProductManager.js:87-94 | when ids increase, looking up the id stored at position k finds index k and returns that record |
| Catalog.AppendKeepsIds | ProductManager.js:55-69 | appending a record that carries the counter, then bumping the counter, keeps ids increasing and below the counter |
| Catalog.AppendKeepsCodesUnique | ProductManager.js:47-69 | appending a record whose code no stored record has keeps codes unique |
| Catalog.FindAfterAppend | ProductManager.js:55-69 | under the id invariant, the record just added is what a lookup of its id returns |
| Catalog.ReplaceKeepsIds | ProductManager.js:111 | replacing a record by one with the same id leaves the id invariant as it was, in both directions |
| Catalog.WithoutIdAppend | ProductManager.js:122 | deleting distributes over concatenation, so the kept records keep their relative order |
| Catalog.WithoutAbsentId | ProductManager.js:122 | deleting an id that no record has leaves the list unchanged |
| Catalog.WithoutIdTwice | ProductManager.js:122 | deleting the same id twice is the same as deleting it once |
| Catalog.WithoutIdKeepsIds | ProductManager.js:122 | deleting keeps ids increasing and below the counter |
| Catalog.WithoutIdKeepsCodesUnique | ProductManager.js:122 | deleting keeps codes unique |
| Catalog.WithoutIdRemovesAll | ProductManager.js:122 | after deleting an id, a lookup of that id finds nothing |
| Manager.ProductManager.constructor | ProductManager.js:8-13 | a new manager has counter 1, remembers the path and holds what a load of the file yields |
| Manager.ProductManager.LoadFromFile | ProductManager.js:15-23 | the list becomes the file's records, or empty when the file is missing or malformed; nothing else changes |
| Manager.ProductManager.SaveToFile | ProductManager.js:25-31 | the file becomes the whole list; nothing else changes |
| Manager.ProductManager.AddProduct | ProductManager.js:33-73 | any falsy field fails with MissingField; otherwise a code already stored fails with CodeInUse; a failure changes neither list, counter nor file; a success appends exactly the new record with the old counter as id, bumps the counter by one, saves, and keeps both invariants |
| Manager.ProductManager.GetProducts | ProductManager.js:75-80 | reloads and returns the loaded list |
| Manager.ProductManager.GetProductById | ProductManager.js:82-95 | reloads and returns the first record with the id, or None |
| Manager.ProductManager.UpdateProduct | ProductManager.js:97-115 | reloads; an absent id leaves list and file as loaded; otherwise only the first match changes, to the supplied record with the id forced, and the list is saved; length and every id stay the same, so the id invariant is kept |
| Manager.ProductManager.DeleteProduct | ProductManager.js:117-126 | reloads, keeps the records whose id differs, saves; the id is then absent, an absent id changes nothing, and both invariants are kept |
| Manager.AddSamples | ProductManager.js:133-140 | the driver's guarded additions: on an empty list with the counter at 1, all three succeed, the list is exactly the three records with ids 1, 2, 3, the counter is 4 and the file holds the list |
| Manager.Demo | ProductManager.js:129-153 | from a missing or empty file the three additions get ids 1, 2, 3 in order, id 2 is the second record and id 99 is absent; any record returned for id 2 or 99 is in the list and carries that id |

## Left out

- Reading and writing the file and the JSON encoding are not modelled. The file is its parsed records, and the encoding is assumed to round-trip without loss.
- A failed write, which throws, is not modelled. In `addProduct` it would throw after the counter and list had already changed.
- Contents that parse as JSON but are not a list of product records are not modelled. The file holds `Product` records or nothing.
- The `console.error` diagnostics for a missing id are logging only and are left out.
- `getProducts` returns the manager's own array, so a caller that mutates it changes the manager. The model returns a value, so this aliasing is not captured.
- Manager.ProductManager.UpdateProduct: the supplied object is a full `Product`. The source spreads an arbitrary object, so keys it lacks would disappear from the record and extra keys would be kept. The model does not capture this.
- Prices and stock levels are integers. Falsy means 0. NaN, fractions and non-number values are not modelled.
- The id counter and the ids are unbounded integers. In the source they are JavaScript numbers, so the counter's increment (ProductManager.js:66) stops changing at 2^53 and would then hand out duplicate ids; the model does not capture this.
- The counter is not persisted or recomputed on load. After a reload the stored ids may reach or pass the counter, and the next addition may then duplicate an id. The id invariant is therefore not claimed across a reload.
- Code uniqueness is not claimed after an update, because the source does not re-check it.
- The `path` is only remembered. Which file it names is not modelled.
- The driver's printing is left out. The module-level singleton is modelled only as the local manager inside `Demo`. The driver's caught exception becomes the `Fail` outcome that `AddSamples` returns and `Demo` ignores.
