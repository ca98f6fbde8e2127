/**
  `CategoryServiceImpl`: categories carry a URL slug derived from their name.  When the slug is
  taken, `create` and `rename` try the base slug followed by "-1", "-2", … until one is free
  (for `rename`, or until they reach the category's own slug).
 */
module CategoryService {
  import opened Wrappers
  import opened Uuids
  import opened Decimal
  import opened SlugUtil
  import opened CatalogStore
  import opened PageConverter

  /** The candidate tried after `k` taken ones: the base itself, then base-1, base-2, … */
  function Cand(base: string, k: nat): (c: string)
    ensures |c| >= |base| && c[..|base|] == base
    ensures k == 0 <==> c == base
  {
    if k == 0 then base else base + "-" + Digits(k)
  }

  /** Different counters give different candidates. */
  lemma CandInjective(base: string, j: nat, k: nat)
    requires Cand(base, j) == Cand(base, k)
    ensures j == k
  {
    if j != 0 && k != 0 {
      var n := |base| + 1;
      assert Cand(base, j)[n..] == Digits(j);
      assert Cand(base, k)[n..] == Digits(k);
      DigitsInjective(j, k);
    }
  }

  /** The first `n` candidates. */
  ghost function CandSet(base: string, n: nat): set<string> {
    set k | 0 <= k < n :: Cand(base, k)
  }

  lemma {:induction false} CandSetSize(base: string, n: nat)
    ensures |CandSet(base, n)| == n
  {
    if n > 0 {
      CandSetSize(base, n - 1);
      assert CandSet(base, n) == CandSet(base, n - 1) + {Cand(base, n - 1)};
      if Cand(base, n - 1) in CandSet(base, n - 1) {
        var k :| 0 <= k < n - 1 && Cand(base, k) == Cand(base, n - 1);
        CandInjective(base, k, n - 1);
      }
    }
  }

  /** A loop that has seen `n` candidates, all taken, has seen no more than there are slugs. */
  lemma CounterBound(base: string, n: nat, taken: set<string>)
    requires CandSet(base, n) <= taken
    ensures n <= |taken|
  {
    CandSetSize(base, n);
    SubsetCardinality(CandSet(base, n), taken);
  }

  lemma SubsetCardinality<T>(a: set<T>, b: set<T>)
    requires a <= b
    ensures |a| <= |b|
  {
    assert b == a + (b - a);
  }

  /** The search stopped at candidate `n`: every earlier one was taken and was not `own`, and this
      one is free or is `own`.  `create` searches with no own slug. */
  ghost predicate Chosen(base: string, n: nat, taken: set<string>, own: Option<string>) {
    && (forall k :: 0 <= k < n ==> Cand(base, k) in taken && Some(Cand(base, k)) != own)
    && (Cand(base, n) !in taken || Some(Cand(base, n)) == own)
  }

  /** The search has exactly one outcome. */
  lemma ChosenUnique(base: string, m: nat, n: nat, taken: set<string>, own: Option<string>)
    requires Chosen(base, m, taken, own) && Chosen(base, n, taken, own)
    ensures m == n
  {
  }

  /** A free base slug is used as it is. */
  lemma FreeBaseChosen(base: string, taken: set<string>, own: Option<string>)
    requires base !in taken
    ensures Chosen(base, 0, taken, own)
  {
  }

  /** A taken base slug with a free base-1 gives base-1, as for "some-name" and "some-name-1". */
  lemma FirstSuffixChosen(base: string, taken: set<string>)
    requires base in taken && base + "-1" !in taken
    ensures Chosen(base, 1, taken, None) && Cand(base, 1) == base + "-1"
  {
    assert Digits(1) == "1";
    assert Cand(base, 1) == base + "-1";
    assert Cand(base, 0) == base;
  }

  /** `CategoryDto`. */
  datatype CategoryDto = CategoryDto(id: Uuid, name: Option<string>, slug: string)

  function ToCategoryDto(c: Category): (d: CategoryDto)
    ensures d.id == c.id && d.name == c.name && d.slug == c.slug
  {
    CategoryDto(c.id, c.name, c.slug)
  }

  /** `products`: the page of a category's products, or NotFound when it holds none. */
  function Products(page: Page<Product>): (r: Result<PageResponse<ProductDto>, CatalogError>)
    ensures r.Failure? <==> page.content == []
    ensures r.Failure? ==> r.error == NotFound
    ensures r.Success? ==> r.value.content == ToDtos(page.content) && r.value.page.number == page.number
    ensures r.Success? ==> r.value.page.size == page.size && r.value.page.totalElements == page.totalElements
    ensures r.Success? ==> r.value.page.totalPages == page.totalPages && r.value.page.sort == FormatSort(page.sort)
  {
    if page.content == [] then Failure(NotFound) else Success(ToPageResponse(ToDtos(page.content), page))
  }

  class CategoryServiceImpl {
    const db: CatalogDb

    constructor (db: CatalogDb)
      ensures this.db == db
    {
      this.db := db;
    }

    /** The suffix loop of `create`: the first candidate no category uses. */
    method FreeSlug(base: string) returns (slug: string, ghost n: nat)
      ensures !db.ExistsBySlug(slug) && |slug| >= |base| && slug[..|base|] == base
      ensures slug == Cand(base, n) && Chosen(base, n, db.Slugs(), None)
      ensures n <= |db.Slugs()|
    {
      slug := base;
      var counter := 1;
      while db.ExistsBySlug(slug)
        invariant 1 <= counter
        invariant slug == Cand(base, counter - 1)
        invariant CandSet(base, counter - 1) <= db.Slugs()
        decreases |db.Slugs()| - (counter - 1)
      {
        assert CandSet(base, counter) == CandSet(base, counter - 1) + {slug};
        CounterBound(base, counter, db.Slugs());
        slug := base + "-" + Digits(counter);
        counter := counter + 1;
      }
      n := counter - 1;
      assert forall k :: 0 <= k < n ==> Cand(base, k) in CandSet(base, n);
      CounterBound(base, n, db.Slugs());
    }

    /** The suffix loop of `rename`: it also stops at the slug the category already has. */
    method FreeSlugFor(base: string, own: string) returns (slug: string, ghost n: nat)
      ensures (slug == own || !db.ExistsBySlug(slug)) && |slug| >= |base| && slug[..|base|] == base
      ensures slug == Cand(base, n) && Chosen(base, n, db.Slugs(), Some(own))
      ensures n <= |db.Slugs()|
    {
      slug := base;
      var counter := 1;
      while db.ExistsBySlug(slug) && slug != own
        invariant 1 <= counter
        invariant slug == Cand(base, counter - 1)
        invariant CandSet(base, counter - 1) <= db.Slugs()
        invariant forall k :: 0 <= k < counter - 1 ==> Cand(base, k) != own
        decreases |db.Slugs()| - (counter - 1)
      {
        assert CandSet(base, counter) == CandSet(base, counter - 1) + {slug};
        CounterBound(base, counter, db.Slugs());
        slug := base + "-" + Digits(counter);
        counter := counter + 1;
      }
      n := counter - 1;
      assert forall k :: 0 <= k < n ==> Cand(base, k) in CandSet(base, n);
      CounterBound(base, n, db.Slugs());
    }

    /** `create`; `id` is the identifier the database generates. */
    method Create(name: Option<string>, id: Uuid) returns (dto: CategoryDto, ghost n: nat)
      requires db.Valid() && id !in db.categories
      modifies db
      ensures db.Valid()
      ensures Chosen(ToSlug(name), n, old(db.Slugs()), None) && n <= |old(db.Slugs())|
      ensures dto == CategoryDto(id, name, Cand(ToSlug(name), n))
      ensures dto.slug !in old(db.Slugs())
      ensures ToSlug(name) !in old(db.Slugs()) ==> dto.slug == ToSlug(name)
      ensures db.categories == old(db.categories)[id := Category(id, name, dto.slug)]
      ensures db.products == old(db.products) && db.prices == old(db.prices)
      ensures db.inventories == old(db.inventories)
    {
      var slug;
      slug, n := FreeSlug(ToSlug(name));
      if ToSlug(name) !in db.Slugs() {
        FreeBaseChosen(ToSlug(name), db.Slugs(), None);
        ChosenUnique(ToSlug(name), 0, n, db.Slugs(), None);
      }
      var category := Category(id, name, slug);
      db.categories := db.categories[id := category];
      dto := ToCategoryDto(category);
    }

    /** `rename`: a null name keeps the old one; the slug is searched again from the name's slug. */
    method Rename(id: Uuid, name: Option<string>) returns (r: Result<CategoryDto, CatalogError>, ghost n: nat)
      requires db.Valid()
      modifies db
      ensures db.Valid()
      ensures id !in old(db.categories) ==> r == Failure(NotFound) && unchanged(db)
      ensures id in old(db.categories) ==>
                var before := old(db.categories[id]);
                var newName := if name.Some? then name else before.name;
                && Chosen(ToSlug(newName), n, old(db.Slugs()), Some(before.slug))
                && r == Success(CategoryDto(id, newName, Cand(ToSlug(newName), n)))
                && db.categories == old(db.categories)[id := Category(id, newName, r.value.slug)]
                && (r.value.slug == before.slug || r.value.slug !in old(db.Slugs()))
                && (ToSlug(newName) == before.slug ==> r.value.slug == before.slug)
      ensures db.products == old(db.products) && db.prices == old(db.prices)
      ensures db.inventories == old(db.inventories)
    {
      if id !in db.categories {
        return Failure(NotFound), 0;
      }
      var category := db.categories[id];
      if name.Some? {
        category := category.(name := name);
      }
      var slug;
      slug, n := FreeSlugFor(ToSlug(category.name), category.slug);
      if ToSlug(category.name) == category.slug {
        ChosenUnique(ToSlug(category.name), 0, n, db.Slugs(), Some(category.slug));
      }
      category := category.(slug := slug);
      Save(category);
      r := Success(ToCategoryDto(category));
    }

    /** `save` of an existing category whose new slug is free or its own. */
    method Save(c: Category)
      requires db.Valid() && c.id in db.categories
      requires c.slug == db.categories[c.id].slug || c.slug !in db.Slugs()
      modifies db
      ensures db.Valid()
      ensures db.categories == old(db.categories)[c.id := c]
      ensures db.products == old(db.products) && db.prices == old(db.prices)
      ensures db.inventories == old(db.inventories)
    {
      SlugStaysUnique(c.id, c.slug);
      db.categories := db.categories[c.id := c];
    }

    /** Giving a category a slug that is free, or its own, keeps the slugs unique. */
    lemma SlugStaysUnique(id: Uuid, slug: string)
      requires db.CategoriesValid() && id in db.categories
      requires slug == db.categories[id].slug || slug !in db.Slugs()
      ensures forall k :: k in db.categories && k != id ==> db.categories[k].slug != slug
    {
      forall k | k in db.categories && k != id
        ensures db.categories[k].slug != slug
      {
        assert db.categories[k].slug in db.Slugs();
      }
    }

    /** `delete`. */
    method Delete(id: Uuid) returns (r: Outcome<CatalogError>)
      requires db.Valid()
      modifies db
      ensures db.Valid()
      ensures id !in old(db.categories) ==> r == Fail(NotFound) && unchanged(db)
      ensures id in old(db.categories) ==> r == Pass && db.categories == old(db.categories) - {id}
      ensures db.products == old(db.products) && db.prices == old(db.prices)
      ensures db.inventories == old(db.inventories)
    {
      if id !in db.categories {
        return Fail(NotFound);
      }
      db.categories := db.categories - {id};
      r := Pass;
    }

    /** `deleteSlug`: every category with that slug goes, which is at most one. */
    method DeleteSlug(slug: string) returns (r: Outcome<CatalogError>)
      requires db.Valid()
      modifies db
      ensures db.Valid()
      ensures slug !in old(db.Slugs()) ==> r == Fail(NotFound) && unchanged(db)
      ensures slug in old(db.Slugs()) ==>
                && r == Pass
                && db.categories == (map k | k in old(db.categories) && old(db.categories[k].slug) != slug :: old(db.categories[k]))
                && |db.categories| == |old(db.categories)| - 1
      ensures db.products == old(db.products) && db.prices == old(db.prices)
      ensures db.inventories == old(db.inventories)
    {
      if !db.ExistsBySlug(slug) {
        return Fail(NotFound);
      }
      var k0 :| k0 in db.categories && db.categories[k0].slug == slug;
      var kept := map k | k in db.categories && db.categories[k].slug != slug :: db.categories[k];
      assert kept == db.categories - {k0};
      db.categories := kept;
      r := Pass;
    }
  }
}
