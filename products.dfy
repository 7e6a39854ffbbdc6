/**
 * The catalog query utilities of src/utils/products.ts. The source reads the
 * module-level `products` list; here it is the `catalog` parameter. Prices are
 * integer cents, so every comparison and sum is exact.
 */
module Products {
  import opened Lists

  /** A dessert of the catalog; the image references are not modelled. */
  datatype Product = Product(
    id: string,
    name: string,
    description: string,
    category: string,
    price: nat,
    inStock: bool)

  // ---------------------------------------------------------------------------
  // searchProducts

  /** ASCII lower-casing of one character. */
  function LowerChar(c: char): char
  {
    if 'A' <= c <= 'Z' then (c as int - 'A' as int + 'a' as int) as char else c
  }

  function ToLower(s: string): (r: string)
    ensures |r| == |s|
  {
    seq(|s|, i requires 0 <= i < |s| => LowerChar(s[i]))
  }

  /** `hay.includes(needle)`: a prefix here, or an occurrence further on. */
  predicate Includes(hay: string, needle: string)
  {
    needle <= hay || (hay != [] && Includes(hay[1..], needle))
  }

  /** `needle` occurs in `hay` starting at position `i`. */
  predicate OccursAt(hay: string, needle: string, i: int)
  {
    0 <= i <= |hay| - |needle| && hay[i..i + |needle|] == needle
  }

  /** `Includes` finds exactly the positions where `needle` occurs. */
  lemma {:induction false} IncludesIffOccurs(hay: string, needle: string)
    ensures Includes(hay, needle) <==> exists i :: OccursAt(hay, needle, i)
  {
    if Includes(hay, needle) {
      if needle <= hay {
        assert OccursAt(hay, needle, 0);
      } else {
        IncludesIffOccurs(hay[1..], needle);
        var i :| OccursAt(hay[1..], needle, i);
        assert hay[i + 1..i + 1 + |needle|] == hay[1..][i..i + |needle|];
        assert OccursAt(hay, needle, i + 1);
      }
    }
    if exists i :: OccursAt(hay, needle, i) {
      var i :| OccursAt(hay, needle, i);
      if i == 0 {
        assert needle <= hay;
      } else {
        assert hay[1..][i - 1..i - 1 + |needle|] == hay[i..i + |needle|];
        assert OccursAt(hay[1..], needle, i - 1);
        IncludesIffOccurs(hay[1..], needle);
      }
    }
  }

  /** The three fields searched, each lower-cased, contain the lower-cased query. */
  predicate MatchesQuery(p: Product, lowerQuery: string): (b: bool)
    ensures b <==> (exists i :: OccursAt(ToLower(p.name), lowerQuery, i)) ||
                   (exists i :: OccursAt(ToLower(p.description), lowerQuery, i)) ||
                   (exists i :: OccursAt(ToLower(p.category), lowerQuery, i))
  {
    IncludesIffOccurs(ToLower(p.name), lowerQuery);
    IncludesIffOccurs(ToLower(p.description), lowerQuery);
    IncludesIffOccurs(ToLower(p.category), lowerQuery);
    Includes(ToLower(p.name), lowerQuery) ||
    Includes(ToLower(p.description), lowerQuery) ||
    Includes(ToLower(p.category), lowerQuery)
  }

  function SearchProducts(catalog: seq<Product>, query: string): (r: seq<Product>)
    ensures IsSubsequence(r, catalog)
    ensures forall p :: p in r <==> p in catalog && MatchesQuery(p, ToLower(query))
    ensures query == "" ==> r == catalog
  {
    var lowerQuery := ToLower(query);
    var keep := (p: Product) => MatchesQuery(p, lowerQuery);
    FilterIsSubsequence(keep, catalog);
    if query == "" then
      FilterKeepsAll(keep, catalog);
      Filter(keep, catalog)
    else
      Filter(keep, catalog)
  }

  // ---------------------------------------------------------------------------
  // sortProductsByPriceAsc / sortProductsByPriceDesc

  function PriceKey(p: Product): int { p.price }

  function NegatedPriceKey(p: Product): int { -(p.price as int) }

  /** The products of `s` priced `v` cents, in the order of `s`. */
  function PricedAt(s: seq<Product>, v: int): seq<Product>
  {
    Filter((p: Product) => p.price == v, s)
  }

  lemma PricedAtByKey(s: seq<Product>, v: int)
    ensures PricedAt(s, v) == WithKey(s, PriceKey, v)
  {
    WithKeyIsFilter(s, PriceKey, v, (p: Product) => p.price == v);
  }

  lemma PricedAtByNegatedKey(s: seq<Product>, v: int)
    ensures PricedAt(s, v) == WithKey(s, NegatedPriceKey, -v)
  {
    WithKeyIsFilter(s, NegatedPriceKey, -v, (p: Product) => p.price == v);
  }

  /** `[...list].sort((a, b) => a.price - b.price)`; the input itself is untouched. */
  function SortProductsByPriceAsc(list: seq<Product>): (r: seq<Product>)
    ensures multiset(r) == multiset(list)
    ensures forall i, j :: 0 <= i < j < |r| ==> r[i].price <= r[j].price
    ensures forall v :: PricedAt(r, v) == PricedAt(list, v)
  {
    var r := SortByKey(list, PriceKey);
    assert forall i, j :: 0 <= i < j < |r| ==> PriceKey(r[i]) <= PriceKey(r[j]);
    SortAscKeepsPriceClasses(list);
    r
  }

  lemma SortAscKeepsPriceClasses(list: seq<Product>)
    ensures forall v :: PricedAt(SortByKey(list, PriceKey), v) == PricedAt(list, v)
  {
    forall v ensures PricedAt(SortByKey(list, PriceKey), v) == PricedAt(list, v) {
      SortByKeyStable(list, PriceKey, v);
      PricedAtByKey(list, v);
      PricedAtByKey(SortByKey(list, PriceKey), v);
    }
  }

  /** `[...list].sort((a, b) => b.price - a.price)`: ascending by negated price. */
  function SortProductsByPriceDesc(list: seq<Product>): (r: seq<Product>)
    ensures multiset(r) == multiset(list)
    ensures forall i, j :: 0 <= i < j < |r| ==> r[i].price >= r[j].price
    ensures forall v :: PricedAt(r, v) == PricedAt(list, v)
  {
    var r := SortByKey(list, NegatedPriceKey);
    assert forall i, j :: 0 <= i < j < |r| ==> NegatedPriceKey(r[i]) <= NegatedPriceKey(r[j]);
    SortDescKeepsPriceClasses(list);
    r
  }

  lemma SortDescKeepsPriceClasses(list: seq<Product>)
    ensures forall v :: PricedAt(SortByKey(list, NegatedPriceKey), v) == PricedAt(list, v)
  {
    forall v ensures PricedAt(SortByKey(list, NegatedPriceKey), v) == PricedAt(list, v) {
      SortByKeyStable(list, NegatedPriceKey, -v);
      PricedAtByNegatedKey(list, v);
      PricedAtByNegatedKey(SortByKey(list, NegatedPriceKey), v);
    }
  }

  // ---------------------------------------------------------------------------
  // filterProductsByPriceRange

  function FilterProductsByPriceRange(list: seq<Product>, minPrice: int, maxPrice: int): (r: seq<Product>)
    ensures IsSubsequence(r, list)
    ensures forall p :: p in r <==> p in list && minPrice <= p.price <= maxPrice
    ensures minPrice > maxPrice ==> r == []
  {
    var inRange := (p: Product) => p.price >= minPrice && p.price <= maxPrice;
    FilterIsSubsequence(inRange, list);
    if minPrice > maxPrice then
      FilterDropsAll(inRange, list);
      Filter(inRange, list)
    else
      Filter(inRange, list)
  }

  // ---------------------------------------------------------------------------
  // getProductsGroupedByCategory

  /** The products of `s` whose category is `c`, in the order of `s`. */
  function InCategory(s: seq<Product>, c: string): (r: seq<Product>)
    ensures forall p :: p in r <==> p in s && p.category == c
  {
    Filter((p: Product) => p.category == c, s)
  }

  /** The categories that occur in `s`. */
  function CategorySet(s: seq<Product>): set<string>
  {
    set p | p in s :: p.category
  }

  lemma CategorySetSnoc(s: seq<Product>, x: Product)
    ensures CategorySet(s + [x]) == CategorySet(s) + {x.category}
  {
    assert forall p :: p in s + [x] <==> p in s || p == x;
  }

  lemma InCategorySnoc(s: seq<Product>, x: Product, c: string)
    ensures InCategory(s + [x], c) == InCategory(s, c) + (if x.category == c then [x] else [])
  {
    FilterAppend((p: Product) => p.category == c, s, [x]);
  }

  lemma InCategoryOutside(s: seq<Product>, c: string)
    requires c !in CategorySet(s)
    ensures InCategory(s, c) == []
  {
    assert forall p :: p in s ==> p.category in CategorySet(s);
    FilterDropsAll((p: Product) => p.category == c, s);
  }

  /** `grouped` is the category dictionary of `s`: one non-empty group per category, in `s` order. */
  ghost predicate GroupsOf(grouped: map<string, seq<Product>>, s: seq<Product>)
  {
    grouped.Keys == CategorySet(s) &&
    forall c :: c in grouped ==> grouped[c] == InCategory(s, c) && grouped[c] != []
  }

  /** One `forEach` step: create the product's group if it is missing, then push the product. */
  function Push(grouped: map<string, seq<Product>>, x: Product): map<string, seq<Product>>
  {
    var group := if x.category in grouped then grouped[x.category] else [];
    grouped[x.category := group + [x]]
  }

  /** The dictionary after pushing every product of `s`, first to last. */
  function Grouped(s: seq<Product>): map<string, seq<Product>>
  {
    if s == [] then map[] else Push(Grouped(s[..|s| - 1]), s[|s| - 1])
  }

  lemma GroupsOfPush(grouped: map<string, seq<Product>>, s: seq<Product>, x: Product)
    requires GroupsOf(grouped, s)
    ensures GroupsOf(Push(grouped, x), s + [x])
  {
    var group := if x.category in grouped then grouped[x.category] else [];
    var g := Push(grouped, x);
    CategorySetSnoc(s, x);
    if x.category !in grouped {
      InCategoryOutside(s, x.category);
    }
    assert group == InCategory(s, x.category);
    forall c | c in g ensures g[c] == InCategory(s + [x], c) && g[c] != [] {
      InCategorySnoc(s, x, c);
      if c != x.category {
        assert g[c] == grouped[c];
      }
    }
  }

  /** The pushes build exactly the category dictionary of the products pushed. */
  lemma {:induction false} GroupedIsGroupsOf(s: seq<Product>)
    ensures GroupsOf(Grouped(s), s)
  {
    if s == [] {
      assert CategorySet(s) == {};
    } else {
      var init := s[..|s| - 1];
      GroupedIsGroupsOf(init);
      GroupsOfPush(Grouped(init), init, s[|s| - 1]);
      assert s == init + [s[|s| - 1]];
    }
  }

  /** Builds the category-to-products dictionary with one pass of pushes. */
  method GetProductsGroupedByCategory(catalog: seq<Product>) returns (grouped: map<string, seq<Product>>)
    ensures grouped.Keys == CategorySet(catalog)
    ensures forall c :: c in grouped ==> grouped[c] == InCategory(catalog, c)
    ensures forall c :: c in grouped ==> grouped[c] != []
  {
    grouped := map[];
    for i := 0 to |catalog|
      invariant grouped == Grouped(catalog[..i])
    {
      var product := catalog[i];
      assert catalog[..i + 1][..i] == catalog[..i];
      var group := if product.category in grouped then grouped[product.category] else [];
      grouped := grouped[product.category := group + [product]];
    }
    assert catalog[..|catalog|] == catalog;
    GroupedIsGroupsOf(catalog);
  }

  /** Total size, over the list `cats`, of the category groups of `s`. */
  function GroupSizeTotal(s: seq<Product>, cats: seq<string>): int
  {
    if cats == [] then 0 else |InCategory(s, cats[0])| + GroupSizeTotal(s, cats[1..])
  }

  lemma {:induction false} GroupSizeTotalStep(x: Product, s: seq<Product>, cats: seq<string>)
    requires NoDuplicates(cats)
    ensures GroupSizeTotal([x] + s, cats)
            == GroupSizeTotal(s, cats) + (if x.category in cats then 1 else 0)
  {
    if cats != [] {
      assert NoDuplicates(cats[1..]) by {
        forall i, j | 0 <= i < j < |cats[1..]| ensures cats[1..][i] != cats[1..][j] {
          assert cats[1..][i] == cats[i + 1] && cats[1..][j] == cats[j + 1];
        }
      }
      GroupSizeTotalStep(x, s, cats[1..]);
      FilterAppend((p: Product) => p.category == cats[0], [x], s);
      if x.category == cats[0] {
        assert x.category !in cats[1..] by {
          forall k | 0 <= k < |cats[1..]| ensures cats[1..][k] != x.category {
            assert cats[1..][k] == cats[k + 1];
          }
        }
      }
      assert x.category in cats <==> x.category == cats[0] || x.category in cats[1..];
    }
  }

  /** Over a duplicate-free list naming every category, the group sizes add up to the catalog size. */
  lemma {:induction false} GroupSizesSumToCatalogSize(catalog: seq<Product>, cats: seq<string>)
    requires NoDuplicates(cats)
    requires forall p :: p in catalog ==> p.category in cats
    ensures GroupSizeTotal(catalog, cats) == |catalog|
  {
    if catalog == [] {
      AllGroupsEmpty(cats);
    } else {
      assert catalog == [catalog[0]] + catalog[1..];
      assert catalog[0] in catalog;
      assert forall p :: p in catalog[1..] ==> p in catalog;
      GroupSizesSumToCatalogSize(catalog[1..], cats);
      GroupSizeTotalStep(catalog[0], catalog[1..], cats);
    }
  }

  lemma {:induction false} AllGroupsEmpty(cats: seq<string>)
    ensures GroupSizeTotal([], cats) == 0
  {
    if cats != [] {
      AllGroupsEmpty(cats[1..]);
    }
  }

  // ---------------------------------------------------------------------------
  // getUniqueCategories

  function Categories(s: seq<Product>): (r: seq<string>)
    ensures |r| == |s|
  {
    seq(|s|, k requires 0 <= k < |s| => s[k].category)
  }

  /** Adds each category to an insertion-ordered set and lists the set. */
  method GetUniqueCategories(catalog: seq<Product>) returns (categories: seq<string>)
    ensures NoDuplicates(categories)
    ensures forall c :: c in categories <==> c in Categories(catalog)
    ensures forall i, j :: 0 <= i < j < |categories| ==>
              IndexOf(Categories(catalog), categories[i]) < IndexOf(Categories(catalog), categories[j])
  {
    ghost var all := Categories(catalog);
    categories := [];
    for i := 0 to |catalog|
      invariant NoDuplicates(categories)
      invariant forall c :: c in categories <==> c in all[..i]
      invariant forall k :: 0 <= k < |categories| ==> IndexOf(all, categories[k]) < i
      invariant forall a, b :: 0 <= a < b < |categories| ==>
                  IndexOf(all, categories[a]) < IndexOf(all, categories[b])
    {
      var category := catalog[i].category;
      assert all[i] == category;
      assert all[..i + 1] == all[..i] + [category];
      if category !in categories {
        assert IndexOf(all, category) == i;
        categories := categories + [category];
      }
    }
    assert all[..|catalog|] == all;
  }

  // ---------------------------------------------------------------------------
  // getAveragePrice

  /** `products.reduce((sum, product) => sum + product.price, 0) / products.length`, or 0. */
  function GetAveragePrice(catalog: seq<Product>): (avg: real)
    ensures catalog == [] ==> avg == 0.0
    ensures catalog != [] ==> avg * (|catalog| as real) == Sum(catalog, PriceKey) as real
  {
    if |catalog| == 0 then 0.0
    else (Reduce(0, catalog, PriceKey) as real) / (|catalog| as real)
  }

  // ---------------------------------------------------------------------------
  // getCheapestProduct / getMostExpensiveProduct

  /** Position `k` holds a minimal price, and every earlier price is strictly larger. */
  predicate IsFirstCheapest(s: seq<Product>, k: int)
  {
    0 <= k < |s| &&
    (forall j :: 0 <= j < |s| ==> s[k].price <= s[j].price) &&
    (forall j :: 0 <= j < k ==> s[j].price > s[k].price)
  }

  /** Position `k` holds a maximal price, and every earlier price is strictly smaller. */
  predicate IsFirstMostExpensive(s: seq<Product>, k: int)
  {
    0 <= k < |s| &&
    (forall j :: 0 <= j < |s| ==> s[k].price >= s[j].price) &&
    (forall j :: 0 <= j < k ==> s[j].price < s[k].price)
  }

  /**
   * The reduce without an initial value, tracked by position: start at the
   * first product, and move to a later one only when it is strictly cheaper.
   */
  function CheapestIndex(s: seq<Product>): (k: nat)
    requires |s| > 0
    ensures IsFirstCheapest(s, k)
  {
    if |s| == 1 then 0
    else
      var k := CheapestIndex(s[..|s| - 1]);
      if s[|s| - 1].price < s[k].price then |s| - 1 else k
  }

  function MostExpensiveIndex(s: seq<Product>): (k: nat)
    requires |s| > 0
    ensures IsFirstMostExpensive(s, k)
  {
    if |s| == 1 then 0
    else
      var k := MostExpensiveIndex(s[..|s| - 1]);
      if s[|s| - 1].price > s[k].price then |s| - 1 else k
  }

  function GetCheapestProduct(catalog: seq<Product>): (r: Option<Product>)
    ensures r.None? <==> catalog == []
    ensures r.Some? ==> exists k :: IsFirstCheapest(catalog, k) && r.value == catalog[k]
  {
    if |catalog| == 0 then None else Some(catalog[CheapestIndex(catalog)])
  }

  function GetMostExpensiveProduct(catalog: seq<Product>): (r: Option<Product>)
    ensures r.None? <==> catalog == []
    ensures r.Some? ==> exists k :: IsFirstMostExpensive(catalog, k) && r.value == catalog[k]
  {
    if |catalog| == 0 then None else Some(catalog[MostExpensiveIndex(catalog)])
  }

  lemma DivAtLeast(t: int, n: int, lo: int)
    requires n > 0 && t >= n * lo
    ensures (t as real) / (n as real) >= lo as real
  {
    assert (n * lo) as real == (n as real) * (lo as real);
    var q := (t as real) / (n as real);
    assert q * (n as real) == t as real;
    if q < lo as real {
      assert q * (n as real) < (lo as real) * (n as real);
    }
  }

  lemma DivAtMost(t: int, n: int, hi: int)
    requires n > 0 && t <= n * hi
    ensures (t as real) / (n as real) <= hi as real
  {
    assert (n * hi) as real == (n as real) * (hi as real);
    var q := (t as real) / (n as real);
    assert q * (n as real) == t as real;
    if q > hi as real {
      assert q * (n as real) > (hi as real) * (n as real);
    }
  }

  /** The average lies between the cheapest and the most expensive price. */
  lemma AverageBetweenCheapestAndMostExpensive(catalog: seq<Product>)
    requires catalog != []
    ensures GetCheapestProduct(catalog).value.price as real
            <= GetAveragePrice(catalog)
            <= GetMostExpensiveProduct(catalog).value.price as real
  {
    var lo := catalog[CheapestIndex(catalog)].price;
    var hi := catalog[MostExpensiveIndex(catalog)].price;
    SumAtLeast(catalog, PriceKey, lo);
    SumAtMost(catalog, PriceKey, hi);
    DivAtLeast(Sum(catalog, PriceKey), |catalog|, lo);
    DivAtMost(Sum(catalog, PriceKey), |catalog|, hi);
  }
}
