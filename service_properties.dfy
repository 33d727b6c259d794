/** Properties of sequences of service calls: write-through on update,
    repeated reads served by the cache, eviction on delete, and the
    staleness of the composite entries that no write ever evicts. */
module ServiceProperties {
  import opened Wrappers
  import opened Paging
  import opened Entities
  import opened Repository
  import opened CacheKeys
  import opened ServiceSpec

  /** After a successful update, reading the product is answered by the
      cache (the body does not run) with exactly what the update returned. */
  lemma UpdateWritesThrough(st: State, id: int, dto: UpdateProductDTO)
    requires ServiceSpec.Valid(st) && id in st.repo.rows
    ensures var o1 := UpdateProduct(st, id, dto);
            var o2 := GetProductById(o1.post, id);
      && o1.result == Ok(ToDTO(ApplyUpdate(st.repo.rows[id], dto)))
      && !o2.invoked && o2.post == o1.post && o2.result == o1.result
  {
  }

  /** Two reads in a row return the same result and leave the same state;
      a found product is served from the cache the second time, while a
      missing one is looked up again (failures are not cached). */
  lemma RepeatedGetProductById(st: State, id: int)
    requires ServiceSpec.Valid(st)
    ensures var o1 := GetProductById(st, id);
            var o2 := GetProductById(o1.post, id);
      && o2.post == o1.post && o2.result == o1.result
      && (o2.invoked <==> o1.result.Err?)
  {
  }

  /** After a successful delete the id's entry is gone: the next read runs
      the body and fails with NotFound. */
  lemma DeleteEvicts(st: State, id: int)
    requires ServiceSpec.Valid(st) && id in st.repo.rows
    ensures var o1 := DeleteProduct(st, id);
            var o2 := GetProductById(o1.post, id);
      && o1.result == Ok(())
      && IdKey(id) !in o1.post.cache
      && o2.invoked && o2.result == Err(ProductNotFound(id)) && o2.post == o1.post
  {
  }

  /** A created product can be read back under the id it was given; the
      read goes to the repository, because nothing is cached under a fresh
      id. */
  lemma CreateThenGet(st: State, request: ProductDTO)
    requires ServiceSpec.Valid(st)
    ensures var o1 := CreateProduct(st, request);
            var o2 := GetProductById(o1.post, st.repo.nextId);
      && o2.invoked && o2.result == o1.result
  {
  }

  /** The writes of the service. */
  datatype Write =
    | Create(request: ProductDTO)
    | Update(id: int, dto: UpdateProductDTO)
    | Remove(id: int)

  function Perform(st: State, w: Write): (post: State)
    requires ServiceSpec.Valid(st)
    ensures ServiceSpec.Valid(post)
  {
    match w
    case Create(request) => CreateProduct(st, request).post
    case Update(id, dto) => UpdateProduct(st, id, dto).post
    case Remove(id) => DeleteProduct(st, id).post
  }

  /** No write evicts or refreshes a listing entry: every category, title
      and "allProducts" entry survives every create, update and delete
      unchanged. */
  lemma WritesKeepListingEntries(st: State, w: Write)
    requires ServiceSpec.Valid(st)
    ensures forall k: CacheKey :: k.StrKey? && k in st.cache ==>
              k in Perform(st, w).cache && Perform(st, w).cache[k] == st.cache[k]
  {
  }

  /** Every projection in the enumeration belongs to a stored product. */
  lemma ListedIdsAreStored(repo: Store, d: ProductDTO)
    requires Repository.Valid(repo) && d in ToDTOs(FindAll(repo))
    ensures d.id.Some? && d.id.value in repo.rows && d == ToDTO(repo.rows[d.id.value])
  {
    var all := FindAll(repo);
    var i :| 0 <= i < |all| && ToDTOs(all)[i] == d;
    assert all[i] in all;
    FindAllIsComplete(repo);
  }

  /** The cached `getAll` list goes stale on create: after a miss has
      cached the listing, creating a product and listing again returns the
      old list from the cache, which lacks the new product. */
  lemma AllProductsStaleAfterCreate(st: State, request: ProductDTO)
    requires ServiceSpec.Valid(st) && AllProducts !in st.cache
    ensures var o1 := GetAll(st);
            var o2 := CreateProduct(o1.post, request);
            var o3 := GetAll(o2.post);
      && o2.result.Ok?
      && !o3.invoked && o3.result == o1.result
      && o2.result.value !in o3.result.value
  {
    var o1 := GetAll(st);
    var o2 := CreateProduct(o1.post, request);
    if o2.result.value in o1.result.value {
      ListedIdsAreStored(st.repo, o2.result.value);
      assert false;
    }
  }

  /** The cached `getAll` list goes stale on delete: after a miss has
      cached the listing, deleting a product and listing again still
      returns the deleted product. */
  lemma AllProductsStaleAfterDelete(st: State, id: int)
    requires ServiceSpec.Valid(st) && AllProducts !in st.cache && id in st.repo.rows
    ensures var o1 := GetAll(st);
            var o2 := DeleteProduct(o1.post, id);
            var o3 := GetAll(o2.post);
      && id !in o2.post.repo.rows
      && !o3.invoked && o3.result == o1.result
      && ToDTO(st.repo.rows[id]) in o3.result.value
  {
  }

  /** Category and title listings share one key space: once a category
      listing is cached, a title search with the same string, page and
      size is answered with the category page, without running the
      search. */
  lemma SearchServedFromCategoryEntry(st: State, s: string, page: int32, size: int32)
    requires ServiceSpec.Valid(st) && ListingKey(s, page, size) !in st.cache
    requires ValidRequest(page, size) && OffsetFits(page, size)
    ensures var o1 := GetProductsByCategory(st, s, page, size);
            var o2 := SearchProductsByTitle(o1.post, s, page, size);
      && o1.result.Ok?
      && !o2.invoked && o2.result == o1.result && o2.post == o1.post
  {
  }

  /** The converse: a cached title search answers a category listing with
      the same string, page and size. */
  lemma CategoryServedFromSearchEntry(st: State, s: string, page: int32, size: int32)
    requires ServiceSpec.Valid(st) && ListingKey(s, page, size) !in st.cache
    requires ValidRequest(page, size) && OffsetFits(page, size)
    ensures var o1 := SearchProductsByTitle(st, s, page, size);
            var o2 := GetProductsByCategory(o1.post, s, page, size);
      && o1.result.Ok?
      && !o2.invoked && o2.result == o1.result && o2.post == o1.post
  {
  }

  /** A product titled "Boot" in category "shoes", and a state holding
      only that product with nothing cached. */
  const Boot := Product(Some(1), Some("Boot"), None, None, Some("shoes"), None, None, None, None, None)
  const ShoeShop := State(Store(map[1 := Boot], [1], 2), map[])

  /** A concrete instance of the shared key space: listing the category
      "shoes" and then searching titles for "shoes" returns the boot, whose
      title does not contain "shoes". */
  lemma SearchReturnsNonMatchingTitle()
    ensures var o1 := GetProductsByCategory(ShoeShop, "shoes", 0, 10);
            var o2 := SearchProductsByTitle(o1.post, "shoes", 0, 10);
      && ServiceSpec.Valid(ShoeShop)
      && o2.result == Ok(Page([ToDTO(Boot)], 0, 10))
      && !Contains("Boot", "shoes")
  {
    assert ServiceSpec.Valid(ShoeShop);
    assert FindAll(ShoeShop.repo) == [Boot];
    var keep := (p: Product) => InCategory(p, "shoes");
    assert Filter([Boot], keep) == [Boot];
    assert Slice([Boot], 0, 10) == [Boot];
    assert ToDTOs([Boot]) == [ToDTO(Boot)];
    assert !Contains("Boot", "shoes");
  }

  /** A valid page request whose offset exceeds Integer.MAX_VALUE (page
      2^30 of size 4, say) fails in the repository query, so nothing is
      cached and asking again runs the body and fails again. */
  lemma OversizedOffsetNeverCached(st: State, category: string, page: int32, size: int32)
    requires ServiceSpec.Valid(st) && ListingKey(category, page, size) !in st.cache
    requires ValidRequest(page, size) && !OffsetFits(page, size)
    ensures var o1 := GetProductsByCategory(st, category, page, size);
            var o2 := GetProductsByCategory(o1.post, category, page, size);
      && o1.result == Err(OffsetTooLarge) && o1.post == st
      && o2.invoked && o2.result == Err(OffsetTooLarge)
  {
  }

  /** Page 2^30 of size 4 is a valid page request whose offset, 2^32,
      exceeds Integer.MAX_VALUE. */
  lemma OversizedOffsetExample()
    ensures ValidRequest(0x4000_0000, 4) && !OffsetFits(0x4000_0000, 4)
  {
  }

  /** On a miss, a first page at least as large as the number of matches
      lists exactly the products of the category, in enumeration order. */
  lemma FirstCategoryPageListsAll(st: State, category: string, size: int32)
    requires ServiceSpec.Valid(st) && ListingKey(category, 0, size) !in st.cache
    requires size >= 1 && size as int >= |CategoryMatches(st.repo, category)|
    ensures GetProductsByCategory(st, category, 0, size).result
            == Ok(Page(ToDTOs(CategoryMatches(st.repo, category)), 0, size as int))
  {
    var o := GetProductsByCategory(st, category, 0, size);
    assert o.result.value.content == ToDTOs(CategoryMatches(st.repo, category));
  }

  /** On a miss, a first page at least as large as the number of matches
      lists exactly the products whose title contains the text. */
  lemma FirstSearchPageListsAll(st: State, title: string, size: int32)
    requires ServiceSpec.Valid(st) && ListingKey(title, 0, size) !in st.cache
    requires size >= 1 && size as int >= |TitleMatches(st.repo, title)|
    ensures SearchProductsByTitle(st, title, 0, size).result
            == Ok(Page(ToDTOs(TitleMatches(st.repo, title)), 0, size as int))
  {
    var o := SearchProductsByTitle(st, title, 0, size);
    assert o.result.value.content == ToDTOs(TitleMatches(st.repo, title));
  }

  /** A created product goes to the end of the enumeration, and so to the
      end of its category's matches; the other products keep their ranks. */
  lemma CreateAppendsToCategory(st: State, request: ProductDTO, category: string)
    requires ServiceSpec.Valid(st)
    ensures var o := CreateProduct(st, request);
            var created := o.post.repo.rows[st.repo.nextId];
      && FindAll(o.post.repo) == FindAll(st.repo) + [created]
      && CategoryMatches(o.post.repo, category)
         == CategoryMatches(st.repo, category) + (if InCategory(created, category) then [created] else [])
  {
    var (repo', saved) := Save(st.repo, NewProduct(request));
    FindAllAfterInsert(st.repo, NewProduct(request));
    FilterAppend(FindAll(st.repo), [saved], p => InCategory(p, category));
  }

  /** Deleting a product removes it from the enumeration and from its
      category's matches; the products before and after it keep their
      order. */
  lemma DeleteKeepsCategoryOrder(st: State, i: nat, category: string)
    requires ServiceSpec.Valid(st) && i < |st.repo.order|
    ensures var o := DeleteProduct(st, st.repo.order[i]);
            var all := FindAll(st.repo);
            var keep := (p: Product) => InCategory(p, category);
      && FindAll(o.post.repo) == all[..i] + all[i + 1..]
      && CategoryMatches(st.repo, category) == Filter(all[..i], keep) + Filter([all[i]], keep) + Filter(all[i + 1..], keep)
      && CategoryMatches(o.post.repo, category) == Filter(all[..i], keep) + Filter(all[i + 1..], keep)
  {
    var all := FindAll(st.repo);
    var keep := (p: Product) => InCategory(p, category);
    FindAllAfterDelete(st.repo, i);
    FilterAround(all, i, keep);
    FilterAppend(all[..i], all[i + 1..], keep);
  }

  /** Create a product titled "Pen", change only its price, and read it
      back: the read is served from the cache, shows the new price and
      still shows the title "Pen" and the original category. */
  lemma CreateUpdateRead(st: State, price: Number, newPrice: Number)
    requires ServiceSpec.Valid(st)
    ensures var request := ProductDTO(None, Some("Pen"), Some(price), None, Some("stationery"),
                                      None, None, None, None, None);
            var o1 := CreateProduct(st, request);
            var id := st.repo.nextId;
            var change := UpdateProductDTO(None, None, Some(newPrice), None, None, None, None, None, None);
            var o2 := UpdateProduct(o1.post, id, change);
            var o3 := GetProductById(o2.post, id);
      && !o3.invoked && o3.result.Ok?
      && o3.result.value.id == Some(id)
      && o3.result.value.price == Some(newPrice)
      && o3.result.value.title == Some("Pen")
      && o3.result.value.category == Some("stationery")
  {
  }
}
