/** `pages/inventory.js`: the catalog page. Saving a product refuses a name
    that another product already has once both are trimmed and lower-cased;
    deleting removes one position. The page's React state is the class
    `InventoryPage`. */
module Inventory {
  import opened Common
  import opened JsText
  import opened Records
  import opened Storage

  /** `(name || "").trim().toLowerCase()`. */
  function NormalizedName(name: string): string {
    ToLower(Trim(name))
  }

  /** Normalizing a normalized name changes nothing, so a stored name that is
      already trimmed and lower-case compares as itself. */
  lemma NormalizedIdempotent(name: string)
    ensures NormalizedName(NormalizedName(name)) == NormalizedName(name)
  {
    var t := Trim(name);
    var l := ToLower(t);
    TrimEndsNotSpace(name);
    if t != [] {
      TrimNoSpaceEnds(l);
    }
    ToLowerIdempotent(t);
  }

  function NameKey(p: Product): string {
    NormalizedName(p.name)
  }

  /** The normalized name of every product, position by position. */
  function NormalizedNames(products: seq<Product>): seq<string> {
    MapSeq(products, NameKey)
  }

  /** No two products share a normalized name. */
  predicate NamesDistinct(products: seq<Product>) {
    Distinct(NormalizedNames(products))
  }

  /** Whether some product other than the one at `skip` has normalized name `n`
      (`skip` is -1 when adding). */
  predicate NameTaken(products: seq<Product>, skip: int, n: string) {
    exists j :: 0 <= j < |products| && j != skip && NormalizedName(products[j].name) == n
  }

  /** The result of `onSave`: refused, or the catalog to show and save. */
  datatype SaveOutcome = DuplicateName | Saved(products: seq<Product>)

  /** `onSave(prod)` while editing the product at `editIdx`, or adding when it
      is `None`: an edit replaces its own position, an addition goes first. */
  function SaveProduct(products: seq<Product>, editIdx: Option<nat>, prod: Product): SaveOutcome
    requires editIdx.Some? ==> editIdx.value < |products|
  {
    var n := NormalizedName(prod.name);
    match editIdx
    case Some(e) => if NameTaken(products, e, n) then DuplicateName else Saved(products[e := prod])
    case None => if NameTaken(products, -1, n) then DuplicateName else Saved([prod] + products)
  }

  /** `onDelete(idx)`: `products.filter((_, i) => i !== idx)`. */
  function DeleteProduct(products: seq<Product>, idx: int): seq<Product> {
    RemoveAt(products, idx)
  }

  /** The body of `onSave` up to `setProducts`: the clash check on a copy of
      the catalog (`findIndex` when editing, `some` when adding) and the copy
      that would be shown and saved. */
  method DecideSave(products: seq<Product>, editIdx: Option<nat>, prod: Product) returns (outcome: SaveOutcome)
    requires editIdx.Some? ==> editIdx.value < |products|
    ensures outcome == SaveProduct(products, editIdx, prod)
  {
    var copy := products;
    var nameNormalized := NormalizedName(prod.name);
    if editIdx.Some? {
      var e := editIdx.value;
      var dupIdx := FindIndex(copy, (p: Product, i: int) => i != e && NormalizedName(p.name) == nameNormalized);
      if dupIdx != -1 {
        return DuplicateName;
      }
      copy := copy[e := prod];
    } else {
      var exists_ := AnyMatch(copy, (p: Product) => NormalizedName(p.name) == nameNormalized);
      if exists_ {
        return DuplicateName;
      }
      copy := [prod] + copy;
    }
    outcome := Saved(copy);
  }

  /** Adding a product whose normalized name is already taken is refused. */
  lemma AddRejectsDuplicate(products: seq<Product>, prod: Product, j: nat)
    requires j < |products| && NormalizedName(products[j].name) == NormalizedName(prod.name)
    ensures SaveProduct(products, None, prod) == DuplicateName
  {
  }

  /** Adding a product with a fresh name puts it first and keeps the rest. */
  lemma AddFreshName(products: seq<Product>, prod: Product)
    requires forall j :: 0 <= j < |products| ==> NormalizedName(products[j].name) != NormalizedName(prod.name)
    ensures SaveProduct(products, None, prod).Saved?
    ensures var r := SaveProduct(products, None, prod).products;
      |r| == |products| + 1 && r[0] == prod && r[1..] == products
  {
  }

  /** An edit is refused exactly when another position has the normalized name;
      keeping one's own name is allowed. */
  lemma EditRejectsOnlyOthers(products: seq<Product>, e: nat, prod: Product)
    requires e < |products|
    ensures SaveProduct(products, Some(e), prod) == DuplicateName
        <==> exists j :: 0 <= j < |products| && j != e && NormalizedName(products[j].name) == NormalizedName(prod.name)
  {
  }

  /** In a catalog without clashes, renaming a product to (a variant of) its own
      name is accepted. */
  lemma EditOwnNameAccepted(products: seq<Product>, e: nat, prod: Product)
    requires e < |products| && NamesDistinct(products)
    requires NormalizedName(prod.name) == NormalizedName(products[e].name)
    ensures SaveProduct(products, Some(e), prod).Saved?
  {
    var ns := NormalizedNames(products);
    forall j | 0 <= j < |products| && j != e
      ensures NormalizedName(products[j].name) != NormalizedName(prod.name)
    {
      assert ns[j] == NameKey(products[j]) && ns[e] == NameKey(products[e]);
      if j < e {
        assert ns[j] != ns[e];
      } else {
        assert ns[e] != ns[j];
      }
    }
  }

  /** An accepted edit replaces only its own position. */
  lemma EditReplacesOnly(products: seq<Product>, e: nat, prod: Product)
    requires e < |products|
    requires SaveProduct(products, Some(e), prod).Saved?
    ensures var r := SaveProduct(products, Some(e), prod).products;
      |r| == |products| && r[e] == prod && forall k :: 0 <= k < |r| && k != e ==> r[k] == products[k]
  {
  }

  /** Prepending a product whose name is free keeps names distinct. */
  lemma AddKeepsDistinct(products: seq<Product>, prod: Product)
    requires NamesDistinct(products)
    requires !NameTaken(products, -1, NormalizedName(prod.name))
    ensures NamesDistinct([prod] + products)
  {
    var ns := NormalizedNames(products);
    forall j | 0 <= j < |ns|
      ensures ns[j] != NameKey(prod)
    {
      assert ns[j] == NameKey(products[j]);
    }
    PrependDistinct(NameKey(prod), ns);
    MapPrepend(prod, products, NameKey);
  }

  /** Replacing position `e` by a product whose name no other position has
      keeps names distinct. */
  lemma EditKeepsDistinct(products: seq<Product>, e: nat, prod: Product)
    requires e < |products| && NamesDistinct(products)
    requires !NameTaken(products, e, NormalizedName(prod.name))
    ensures NamesDistinct(products[e := prod])
  {
    var ns := NormalizedNames(products);
    forall j | 0 <= j < |ns| && j != e
      ensures ns[j] != NameKey(prod)
    {
      assert ns[j] == NameKey(products[j]);
    }
    UpdateDistinct(ns, e, NameKey(prod));
    MapUpdate(products, e, prod, NameKey);
  }

  /** `onSave` keeps normalized names pairwise distinct. */
  lemma SaveKeepsDistinct(products: seq<Product>, editIdx: Option<nat>, prod: Product)
    requires editIdx.Some? ==> editIdx.value < |products|
    requires NamesDistinct(products)
    requires SaveProduct(products, editIdx, prod).Saved?
    ensures NamesDistinct(SaveProduct(products, editIdx, prod).products)
  {
    match editIdx
    case None => AddKeepsDistinct(products, prod);
    case Some(e) => EditKeepsDistinct(products, e, prod);
  }

  /** Deleting a position keeps names distinct. */
  lemma DeleteKeepsDistinct(products: seq<Product>, idx: int)
    requires NamesDistinct(products)
    ensures NamesDistinct(DeleteProduct(products, idx))
  {
    RemoveAtDistinct(NormalizedNames(products), idx);
    MapRemoveAt(products, idx, NameKey);
  }

  class InventoryPage {
    const store: Store
    var products: seq<Product>
    var showModal: bool
    /** The position being edited, `None` while adding. */
    var editIdx: Option<nat>

    /** The page on mount: the catalog is read from the store. */
    constructor (store: Store)
      ensures this.store == store && products == store.LoadProducts()
      ensures !showModal && editIdx.None?
    {
      this.store := store;
      products := store.LoadProducts();
      showModal := false;
      editIdx := None;
    }

    /** `openAdd`. */
    method OpenAdd()
      modifies this`editIdx, this`showModal
      ensures editIdx.None? && showModal
    {
      editIdx := None;
      showModal := true;
    }

    /** `openEdit(idx)`, from the Edit button of row `idx`. */
    method OpenEdit(idx: nat)
      requires idx < |products|
      modifies this`editIdx, this`showModal
      ensures editIdx == Some(idx) && showModal
    {
      editIdx := Some(idx);
      showModal := true;
    }

    /** `onSave(prod)`: on a clash the catalog is neither changed nor saved;
        otherwise the new catalog is shown and saved. */
    method OnSave(prod: Product) returns (outcome: SaveOutcome)
      requires editIdx.Some? ==> editIdx.value < |products|
      modifies this`products, store`slots
      ensures outcome == SaveProduct(old(products), editIdx, prod)
      ensures outcome.DuplicateName? ==> products == old(products) && store.slots == old(store.slots)
      ensures outcome.Saved? ==> products == outcome.products
      ensures outcome.Saved? ==> store.slots == WriteSlot(old(store.slots), store.writable, ProductsKey, ProductsBlob(products))
    {
      outcome := DecideSave(products, editIdx, prod);
      if outcome.Saved? {
        products := outcome.products;
        store.SaveProducts(outcome.products);
      }
    }

    /** The modal's `onSave` wrapper: `onSave(p)` and then the modal closes,
        whether or not the save was accepted. */
    method SaveFromModal(prod: Product) returns (outcome: SaveOutcome)
      requires editIdx.Some? ==> editIdx.value < |products|
      modifies this`products, this`showModal, store`slots
      ensures outcome == SaveProduct(old(products), editIdx, prod)
      ensures outcome.DuplicateName? ==> products == old(products) && store.slots == old(store.slots)
      ensures outcome.Saved? ==> products == outcome.products
      ensures outcome.Saved? ==> store.slots == WriteSlot(old(store.slots), store.writable, ProductsKey, ProductsBlob(products))
      ensures !showModal
    {
      outcome := OnSave(prod);
      showModal := false;
    }

    /** `onDelete(idx)`: nothing happens unless the user confirms. */
    method OnDelete(idx: nat, confirmed: bool)
      modifies this`products, store`slots
      ensures !confirmed ==> products == old(products) && store.slots == old(store.slots)
      ensures confirmed ==> products == DeleteProduct(old(products), idx)
      ensures confirmed ==> store.slots == WriteSlot(old(store.slots), store.writable, ProductsKey, ProductsBlob(products))
    {
      if !confirmed {
        return;
      }
      var copy := DeleteProduct(products, idx);
      products := copy;
      store.SaveProducts(copy);
    }
  }
}
