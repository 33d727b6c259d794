/** The behaviour of `ProductServiceImplementation` as transitions on the
    pair (repository, "products" cache). Each function spells out what the
    method's cache annotation does around the method body:
    - `@Cacheable`: on a hit return the cached value without running the
      body; on a miss run the body and store its result if it returns;
    - `@CachePut`: run the body and store its result if it returns;
    - `@CacheEvict`: run the body and evict the key if it returns. */
module ServiceSpec {
  import opened Wrappers
  import opened Paging
  import opened Entities
  import opened Repository
  import opened CacheKeys

  /** `ProductNotFoundException`; the IllegalArgumentException that
      `PageRequest.of` throws for a negative page or a size below one; and
      the InvalidDataAccessApiUsageException that a paged repository query
      throws when the page's offset exceeds Integer.MAX_VALUE. */
  datatype Error = ProductNotFound(id: int) | IllegalArgument | OffsetTooLarge

  /** A cached value: one DTO, a page of DTOs or the list of `getAll`. */
  datatype CachedValue =
    | One(dto: ProductDTO)
    | PageOf(page: Page<ProductDTO>)
    | ListOf(items: seq<ProductDTO>)

  type Cache = map<CacheKey, CachedValue>

  datatype State = State(repo: Store, cache: Cache)

  /** The new state, what the call returned or threw, and whether the
      method body itself ran (that is, the cache did not answer). */
  datatype Outcome<T> = Outcome(post: State, result: Result<T, Error>, invoked: bool)

  /** Each key holds the kind of value its operation returns. */
  predicate Fits(key: CacheKey, value: CachedValue)
  {
    match key
    case IdKey(_) => value.One?
    case StrKey(_) => if key == AllProducts then value.ListOf? else value.PageOf?
  }

  /** Every id-keyed entry is the projection of the stored entity with that
      id: single-entity entries are never stale. */
  ghost predicate Coherent(st: State)
  {
    forall id :: IdKey(id) in st.cache ==>
      id in st.repo.rows && st.cache[IdKey(id)] == One(ToDTO(st.repo.rows[id]))
  }

  /** The invariant of every reachable state. */
  ghost predicate Valid(st: State)
  {
    && Repository.Valid(st.repo)
    && (forall k :: k in st.cache ==> Fits(k, st.cache[k]))
    && Coherent(st)
  }

  /** An empty repository and an empty cache. */
  const Initial: State := State(Repository.Empty, map[])

  /** `createProduct(request)`: no cache annotation. The request's fields
      except id and quantity go into a new entity under a fresh id; the
      cache is neither read nor written. */
  function CreateProduct(st: State, request: ProductDTO): (o: Outcome<ProductDTO>)
    requires Valid(st)
    ensures Valid(o.post) && o.invoked && o.result.Ok?
    ensures o.post.cache == st.cache
    ensures var id := st.repo.nextId;
      && id !in st.repo.rows
      && o.post.repo.rows.Keys == st.repo.rows.Keys + {id}
      && o.post.repo.order == st.repo.order + [id]
      && o.post.repo.nextId == id + 1
      && (forall k :: k in st.repo.rows ==> o.post.repo.rows[k] == st.repo.rows[k])
      && o.result.value == ToDTO(o.post.repo.rows[id])
      && o.result.value.id == Some(id)
      && o.result.value.quantity == None
      && o.result.value.(id := None) == request.(id := None, quantity := None)
  {
    var (repo', saved) := Save(st.repo, NewProduct(request));
    Outcome(State(repo', st.cache), Ok(ToDTO(saved)), true)
  }

  /** `updateProduct(id, dto)` under `@CachePut(key = "#id")`. */
  function UpdateProduct(st: State, id: int, dto: UpdateProductDTO): (o: Outcome<ProductDTO>)
    requires Valid(st)
    ensures Valid(o.post) && o.invoked
    ensures id !in st.repo.rows ==> o.post == st && o.result == Err(ProductNotFound(id))
    ensures id in st.repo.rows ==>
      var updated := ApplyUpdate(st.repo.rows[id], dto);
      && o.result == Ok(ToDTO(updated))
      && o.post.repo == st.repo.(rows := st.repo.rows[id := updated])
      && o.post.cache == st.cache[IdKey(id) := One(ToDTO(updated))]
  {
    match FindById(st.repo, id)
    case None => Outcome(st, Err(ProductNotFound(id)), true)
    case Some(product) =>
      var (repo', saved) := Save(st.repo, ApplyUpdate(product, dto));
      var d := ToDTO(saved);
      Outcome(State(repo', st.cache[IdKey(id) := One(d)]), Ok(d), true)
  }

  /** `getProductById(id)` under `@Cacheable(key = "#id")`. Whether or not
      the cache answers, the result is what an uncached lookup returns. */
  function GetProductById(st: State, id: int): (o: Outcome<ProductDTO>)
    requires Valid(st)
    ensures Valid(o.post) && o.post.repo == st.repo
    ensures o.invoked <==> IdKey(id) !in st.cache
    ensures o.result == if id in st.repo.rows then Ok(ToDTO(st.repo.rows[id]))
                        else Err(ProductNotFound(id))
    ensures o.post.cache == if id in st.repo.rows then st.cache[IdKey(id) := One(ToDTO(st.repo.rows[id]))]
                            else st.cache
  {
    var key := IdKey(id);
    if key in st.cache then
      Outcome(st, Ok(st.cache[key].dto), false)
    else
      match FindById(st.repo, id)
      case None => Outcome(st, Err(ProductNotFound(id)), true)
      case Some(product) =>
        var d := ToDTO(product);
        Outcome(st.(cache := st.cache[key := One(d)]), Ok(d), true)
  }

  /** `getProductsByCategory(category, page, size)` under
      `@Cacheable(key = "#category + '_' + #page + '_' + #size")`. On a miss
      the page holds the projections of the stored products of that
      category at ranks `[page * size, page * size + size)`; an offset past
      Integer.MAX_VALUE makes the query throw, and nothing is cached. */
  function GetProductsByCategory(st: State, category: string, page: int32, size: int32)
    : (o: Outcome<Page<ProductDTO>>)
    requires Valid(st)
    ensures Valid(o.post) && o.post.repo == st.repo
    ensures var key := ListingKey(category, page, size);
      && (key in st.cache ==> o == Outcome(st, Ok(st.cache[key].page), false))
      && (key !in st.cache && !ValidRequest(page, size) ==> o == Outcome(st, Err(IllegalArgument), true))
      && (key !in st.cache && ValidRequest(page, size) && !OffsetFits(page, size) ==>
            o == Outcome(st, Err(OffsetTooLarge), true))
      && (key !in st.cache && ValidRequest(page, size) && OffsetFits(page, size) ==>
            && o.invoked && o.result.Ok?
            && o.post.cache == st.cache[key := PageOf(o.result.value)]
            && o.result.value.number == page as int && o.result.value.size == size as int
            && (var m, off := CategoryMatches(st.repo, category), Offset(page, size);
                && |o.result.value.content| == (if off >= |m| then 0 else Min(size as int, |m| - off))
                && forall i :: 0 <= i < |o.result.value.content| ==>
                     o.result.value.content[i] == ToDTO(m[off + i]))
            && forall d :: d in o.result.value.content ==>
                 d.category == Some(category) && d in ToDTOs(FindAll(st.repo)))
  {
    var key := ListingKey(category, page, size);
    if key in st.cache then
      Outcome(st, Ok(st.cache[key].page), false)
    else if !ValidRequest(page, size) then
      Outcome(st, Err(IllegalArgument), true)
    else if !OffsetFits(page, size) then
      Outcome(st, Err(OffsetTooLarge), true)
    else
      var found := FindByCategory(st.repo, category, page, size);
      var result := ToDTOPage(found);
      ProjectedCategoryPage(st.repo, found, category);
      ListingEntryKeepsValid(st, key, PageOf(result));
      Outcome(st.(cache := st.cache[key := PageOf(result)]), Ok(result), true)
  }

  /** `searchProductsByTitle(title, page, size)` under
      `@Cacheable(key = "#title + '_' + #page + '_' + #size")`. On a miss the
      page holds the projections of the stored products whose title
      contains `title`, at ranks `[page * size, page * size + size)`; an
      offset past Integer.MAX_VALUE makes the query throw, and nothing is
      cached. */
  function SearchProductsByTitle(st: State, title: string, page: int32, size: int32)
    : (o: Outcome<Page<ProductDTO>>)
    requires Valid(st)
    ensures Valid(o.post) && o.post.repo == st.repo
    ensures var key := ListingKey(title, page, size);
      && (key in st.cache ==> o == Outcome(st, Ok(st.cache[key].page), false))
      && (key !in st.cache && !ValidRequest(page, size) ==> o == Outcome(st, Err(IllegalArgument), true))
      && (key !in st.cache && ValidRequest(page, size) && !OffsetFits(page, size) ==>
            o == Outcome(st, Err(OffsetTooLarge), true))
      && (key !in st.cache && ValidRequest(page, size) && OffsetFits(page, size) ==>
            && o.invoked && o.result.Ok?
            && o.post.cache == st.cache[key := PageOf(o.result.value)]
            && o.result.value.number == page as int && o.result.value.size == size as int
            && (var m, off := TitleMatches(st.repo, title), Offset(page, size);
                && |o.result.value.content| == (if off >= |m| then 0 else Min(size as int, |m| - off))
                && forall i :: 0 <= i < |o.result.value.content| ==>
                     o.result.value.content[i] == ToDTO(m[off + i]))
            && forall d :: d in o.result.value.content ==>
                 d.title.Some? && Contains(d.title.value, title) && d in ToDTOs(FindAll(st.repo)))
  {
    var key := ListingKey(title, page, size);
    if key in st.cache then
      Outcome(st, Ok(st.cache[key].page), false)
    else if !ValidRequest(page, size) then
      Outcome(st, Err(IllegalArgument), true)
    else if !OffsetFits(page, size) then
      Outcome(st, Err(OffsetTooLarge), true)
    else
      var found := FindByTitleContaining(st.repo, title, page, size);
      var result := ToDTOPage(found);
      ProjectedTitlePage(st.repo, found, title);
      ListingEntryKeepsValid(st, key, PageOf(result));
      Outcome(st.(cache := st.cache[key := PageOf(result)]), Ok(result), true)
  }

  /** Storing a value of the right kind under a string key keeps the
      invariant: string keys play no part in coherence. */
  lemma ListingEntryKeepsValid(st: State, key: CacheKey, value: CachedValue)
    requires Valid(st) && key.StrKey? && Fits(key, value)
    ensures Valid(st.(cache := st.cache[key := value]))
  {
  }

  /** The projection of a category page lists projections of stored
      products of that category. */
  lemma ProjectedCategoryPage(repo: Store, found: Page<Product>, category: string)
    requires Repository.Valid(repo)
    requires forall p :: p in found.content ==> InCategory(p, category) && p in FindAll(repo)
    ensures forall d :: d in ToDTOPage(found).content ==>
              d.category == Some(category) && d in ToDTOs(FindAll(repo))
  {
    var all := FindAll(repo);
    forall d | d in ToDTOPage(found).content
      ensures d.category == Some(category) && d in ToDTOs(all)
    {
      var i :| 0 <= i < |found.content| && ToDTOPage(found).content[i] == d;
      assert found.content[i] in all;
      var j :| 0 <= j < |all| && all[j] == found.content[i];
      assert ToDTOs(all)[j] == d;
    }
  }

  /** The projection of a title search page lists projections of stored
      products whose title contains the searched text. */
  lemma ProjectedTitlePage(repo: Store, found: Page<Product>, title: string)
    requires Repository.Valid(repo)
    requires forall p :: p in found.content ==> TitleContains(p, title) && p in FindAll(repo)
    ensures forall d :: d in ToDTOPage(found).content ==>
              d.title.Some? && Contains(d.title.value, title) && d in ToDTOs(FindAll(repo))
  {
    var all := FindAll(repo);
    forall d | d in ToDTOPage(found).content
      ensures d.title.Some? && Contains(d.title.value, title) && d in ToDTOs(all)
    {
      var i :| 0 <= i < |found.content| && ToDTOPage(found).content[i] == d;
      assert found.content[i] in all;
      var j :| 0 <= j < |all| && all[j] == found.content[i];
      assert ToDTOs(all)[j] == d;
    }
  }

  /** `getAll()` under `@Cacheable(key = "'allProducts'")`. */
  function GetAll(st: State): (o: Outcome<seq<ProductDTO>>)
    requires Valid(st)
    ensures Valid(o.post) && o.post.repo == st.repo
    ensures AllProducts in st.cache ==> o == Outcome(st, Ok(st.cache[AllProducts].items), false)
    ensures AllProducts !in st.cache ==>
      && o.invoked
      && o.result == Ok(ToDTOs(FindAll(st.repo)))
      && o.post.cache == st.cache[AllProducts := ListOf(o.result.value)]
  {
    if AllProducts in st.cache then
      Outcome(st, Ok(st.cache[AllProducts].items), false)
    else
      var all := ToDTOs(FindAll(st.repo));
      Outcome(st.(cache := st.cache[AllProducts := ListOf(all)]), Ok(all), true)
  }

  /** `deleteProduct(id)` under `@CacheEvict(key = "#id")`. */
  function DeleteProduct(st: State, id: int): (o: Outcome<()>)
    requires Valid(st)
    ensures Valid(o.post) && o.invoked
    ensures id !in st.repo.rows ==> o.post == st && o.result == Err(ProductNotFound(id))
    ensures id in st.repo.rows ==>
      && o.result == Ok(())
      && o.post.repo.rows == st.repo.rows - {id}
      && o.post.repo.order == RemoveId(st.repo.order, id)
      && o.post.repo.nextId == st.repo.nextId
      && o.post.cache == st.cache - {IdKey(id)}
  {
    match FindById(st.repo, id)
    case None => Outcome(st, Err(ProductNotFound(id)), true)
    case Some(product) =>
      Outcome(State(Delete(st.repo, id), st.cache - {IdKey(id)}), Ok(()), true)
  }
}
