/**
 * The `products` table and its record (app/models.py).
 *
 * Every listed column is NOT NULL, so a stored `Product` has a plain value in
 * every field. The `created_at` / `updated_at` columns are not modelled.
 */
module Models {
  import opened Wrappers

  datatype Product = Product(
    id: int,
    name: string,
    description: string,
    price: real,
    stock: int,
    category: string,
    sku: string)

  /** The rows of the table, keyed by primary key. */
  type Table = map<int, Product>

  const NameWidth: nat := 256
  const CategoryWidth: nat := 128
  const SkuWidth: nat := 128

  /**
   * What a `varchar(width)` column stores for `s`: a value whose characters past `width` are all
   * spaces is cut to `width`; any other value is kept whole (and then refused if too long).
   */
  function Column(s: string, width: nat): (r: string)
    ensures r <= s
    ensures |r| <= width <==> forall i | width <= i < |s| :: s[i] == ' '
    ensures |s| <= width ==> r == s
    ensures |r| <= width ==> |r| == (if |s| < width then |s| else width)
    ensures |r| > width ==> r == s
  {
    if |s| > width && forall i | width <= i < |s| :: s[i] == ' ' then s[..width] else s
  }

  /** The row the database writes for `p`: its width-limited columns as `Column` stores them. */
  function Written(p: Product): (r: Product)
    ensures r == p.(name := r.name, category := r.category, sku := r.sku)
    ensures r.name <= p.name && r.category <= p.category && r.sku <= p.sku
    ensures Fits(r) <==> && (forall i | NameWidth <= i < |p.name| :: p.name[i] == ' ')
                         && (forall i | CategoryWidth <= i < |p.category| :: p.category[i] == ' ')
                         && (forall i | SkuWidth <= i < |p.sku| :: p.sku[i] == ' ')
    ensures Fits(p) ==> r == p
    ensures |r.name| <= NameWidth ==> |r.name| == (if |p.name| < NameWidth then |p.name| else NameWidth)
    ensures |r.name| > NameWidth ==> r.name == p.name
    ensures |r.category| <= CategoryWidth ==> |r.category| == (if |p.category| < CategoryWidth then |p.category| else CategoryWidth)
    ensures |r.category| > CategoryWidth ==> r.category == p.category
    ensures |r.sku| <= SkuWidth ==> |r.sku| == (if |p.sku| < SkuWidth then |p.sku| else SkuWidth)
    ensures |r.sku| > SkuWidth ==> r.sku == p.sku
  {
    p.(name := Column(p.name, NameWidth), category := Column(p.category, CategoryWidth),
       sku := Column(p.sku, SkuWidth))
  }

  /** The `String(n)` column widths: no stored value is longer than its column. */
  predicate Fits(p: Product) {
    |p.name| <= NameWidth && |p.category| <= CategoryWidth && |p.sku| <= SkuWidth
  }

  /**
   * The table's constraints: each row sits under its own id, fits its column widths, and no two rows
   * share a name or a sku.
   */
  predicate WellFormed(t: Table) {
    && (forall id | id in t :: t[id].id == id && Fits(t[id]))
    && (forall a, b | a in t && b in t && t[a].name == t[b].name :: a == b)
    && (forall a, b | a in t && b in t && t[a].sku == t[b].sku :: a == b)
  }

  /** Every stored id lies below the next value of the primary-key sequence. */
  predicate Below(t: Table, nextId: int) {
    forall id | id in t :: id < nextId
  }

  predicate NameTaken(t: Table, name: string) {
    exists id | id in t :: t[id].name == name
  }

  predicate SkuTaken(t: Table, sku: string) {
    exists id | id in t :: t[id].sku == sku
  }

  /** Changing the stock of a stored row keeps every constraint. */
  lemma StockUpdateWellFormed(t: Table, id: int, stock: int)
    requires WellFormed(t) && id in t
    ensures WellFormed(t[id := t[id].(stock := stock)])
    ensures t[id := t[id].(stock := stock)].Keys == t.Keys
  {
  }

  /** Inserting a row under a fresh id keeps the constraints exactly when it fits and its name and sku are free. */
  lemma InsertWellFormed(t: Table, p: Product)
    requires WellFormed(t) && p.id !in t
    ensures WellFormed(t[p.id := p]) <==> Fits(p) && !NameTaken(t, p.name) && !SkuTaken(t, p.sku)
  {
    var t' := t[p.id := p];
    if NameTaken(t, p.name) {
      var other :| other in t && t[other].name == p.name;
      assert t'[other].name == t'[p.id].name && other != p.id;
    }
    if SkuTaken(t, p.sku) {
      var other :| other in t && t[other].sku == p.sku;
      assert t'[other].sku == t'[p.id].sku && other != p.id;
    }
    assert p.id in t' && t'[p.id] == p;
  }

  /** A value of the dictionary `to_dict` builds. */
  datatype Value = IntValue(i: int) | RealValue(r: real) | StrValue(s: string)

  type Dict = map<string, Value>

  /** The keys of `to_dict`: every column except the two timestamps. */
  const DictKeys: set<string> := {"id", "name", "description", "price", "stock", "category", "sku"}

  /** `Product.to_dict`: the record as a dictionary of its seven columns. */
  function ToDict(p: Product): (d: Dict)
    ensures d.Keys == DictKeys
    ensures "created_at" !in d && "updated_at" !in d
    ensures FromDict(d) == Some(p)
  {
    map[
      "id" := IntValue(p.id),
      "name" := StrValue(p.name),
      "description" := StrValue(p.description),
      "price" := RealValue(p.price),
      "stock" := IntValue(p.stock),
      "category" := StrValue(p.category),
      "sku" := StrValue(p.sku)]
  }

  /** Reads a record back from a dictionary; `None` when a key is missing or holds a value of the wrong kind. */
  function FromDict(d: Dict): (r: Option<Product>)
    ensures r.Some? ==> DictKeys <= d.Keys
  {
    if && "id" in d && d["id"].IntValue?
       && "name" in d && d["name"].StrValue?
       && "description" in d && d["description"].StrValue?
       && "price" in d && d["price"].RealValue?
       && "stock" in d && d["stock"].IntValue?
       && "category" in d && d["category"].StrValue?
       && "sku" in d && d["sku"].StrValue?
    then Some(Product(d["id"].i, d["name"].s, d["description"].s, d["price"].r,
                      d["stock"].i, d["category"].s, d["sku"].s))
    else None
  }

  /** `to_dict` loses nothing: two records with the same dictionary are the same record. */
  lemma ToDictInjective(p: Product, q: Product)
    ensures ToDict(p) == ToDict(q) ==> p == q
  {
  }
}
