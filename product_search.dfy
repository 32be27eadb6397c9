/** The product search of the cart page (`filteredProducts`). */
module ProductSearch {
  import opened Wrappers
  import opened Shop
  import opened Text
  import opened Sequences

  /**
   * A product matches a search term when its lower-cased name contains the
   * lower-cased term, or when it has a non-empty description that does.
   */
  predicate Matches(p: Product, term: string)
  {
    var needle := LowerString(term);
    Contains(LowerString(p.name), needle)
    || (p.description.Some? && p.description.value != ""
        && Contains(LowerString(p.description.value), needle))
  }

  function Matcher(term: string): Product -> bool
  {
    p => Matches(p, term)
  }

  /**
   * The products shown for a search term: all of them for the empty term,
   * otherwise exactly the matching ones.
   */
  function FilteredProducts(products: seq<Product>, term: string): (r: seq<Product>)
    ensures term == "" ==> r == products
    ensures term != "" ==> forall p :: p in r <==> p in products && Matches(p, term)
    ensures |r| <= |products|
  {
    if term == "" then products else Filter(products, Matcher(term))
  }

  /** The search keeps the catalogue order: searching a concatenation concatenates the results. */
  lemma SearchPreservesOrder(xs: seq<Product>, ys: seq<Product>, term: string)
    ensures FilteredProducts(xs + ys, term) == FilteredProducts(xs, term) + FilteredProducts(ys, term)
  {
    if term != "" {
      FilterAppend(xs, ys, Matcher(term));
    }
  }

  /** The search is case-insensitive in its term: lower-casing the term first changes nothing. */
  lemma SearchIgnoresTermCase(products: seq<Product>, term: string)
    ensures FilteredProducts(products, LowerString(term)) == FilteredProducts(products, term)
  {
    if term != "" {
      LowerStringIdempotent(term);
      FilterCongruent(products, Matcher(LowerString(term)), Matcher(term));
    }
  }

  /** A product whose name contains the term verbatim is always listed. */
  lemma VerbatimNameMatchIsListed(products: seq<Product>, p: Product, term: string)
    requires p in products
    requires Contains(p.name, term)
    ensures p in FilteredProducts(products, term)
  {
    ContainsLowered(p.name, term);
  }

  /** Searching the search result again with the same term shows the same list. */
  lemma SearchIdempotent(products: seq<Product>, term: string)
    ensures FilteredProducts(FilteredProducts(products, term), term) == FilteredProducts(products, term)
  {
    if term != "" {
      FilterIdempotent(products, Matcher(term));
    }
  }
}
