# Cached product service

A model of the product catalogue service of the scalable e-commerce
system: `ProductServiceImplementation` creates, updates, reads, lists,
searches and deletes products through a product repository, and its
Spring cache annotations (`@Cacheable`, `@CachePut`, `@CacheEvict`)
keep single products, pages of products and the full listing in one
shared cache named "products".

The model has two layers.

- `ServiceSpec` describes each service method as a function from a state
  (the repository and the cache) to an outcome: the new state, the value
  returned or the exception thrown, and whether the method body ran (the
  cache did not answer). The annotation semantics are written out in each
  function: a `@Cacheable` hit returns the cached value without running
  the body; a miss runs the body and caches its result only on normal
  return; `@CachePut` always runs the body and caches its result on normal
  return; `@CacheEvict` runs the body and evicts its key only on normal
  return.
- `ProductService.ProductServiceImplementation` is the service as an
  object. The repository (`store`, `order`, `nextId`) and the cache are
  fields. The methods update them step by step, and
  `updateProduct`'s conditional setters run one after another. Each
  method is proved to make exactly the transition its `ServiceSpec`
  function describes.

`ServiceProperties` proves what sequences of calls do:
- write-through on update;
- a second read is served from the cache;
- delete evicts the product's entry;
- no write ever touches a listing entry, so the `getAll` list goes stale
  on create and delete;
- category listings and title searches share one key space.

Modules: `Wrappers` (null and exceptions), `Paging` (Java `int`,
`PageRequest.of`, page slices), `Entities` (`Product`, `ProductDTO`,
`UpdateProductDTO`, the projection and the partial update), `CacheKeys`
(cache keys and their string form), `Repository` (the store and its
queries), `ServiceSpec`, `ServiceProperties`, `ProductService`.

Modelling assumptions:
- `Product.java`, `ProductDTO.java`, `UpdateProductDTO.java` and
  `ProductRepository.java` are not part of this model. The DTO is assumed
  to carry every entity field, including id and quantity. The field lists
  follow the getters and setters the service calls.
- The entity constructor used by `createProduct` sets neither id nor
  quantity, so a created product has a null quantity.
- The repository hands out ids from a counter that starts at 1. A new
  entity gets the counter's value and the counter moves up. `save` of an
  entity with an id overwrites the stored entity in place.
- `findAll` enumerates products in insertion order; deleting a product
  leaves the others in their order. The derived queries
  `findByCategory` and `findByTitleContaining` filter that enumeration
  and then take the slice `[page*size, page*size+size)`. The offset
  `page*size` is handed to JPA as an `int` first-result index, so a page
  whose offset exceeds Integer.MAX_VALUE (page 2^30 of size 4, say) makes
  the query throw InvalidDataAccessApiUsageException, as Spring Data JPA
  does; `@Cacheable` then caches nothing.
  `findByCategory` keeps an exact category match. `findByTitleContaining`
  keeps case-sensitive substring containment. A null category or title
  never matches.
- The listing keys are `s + "_" + page + "_" + size`, with the integers in
  Java's decimal form. `getAll` uses `"allProducts"`. Id-keyed entries are
  keyed by the id itself, a key distinct from every string key.
- Spring computes the cache key before the body runs. So a listing call
  with a negative page or a size below one first looks up its key. On a
  miss it fails with IllegalArgumentException from `PageRequest.of`.

Two consequences of the code that a reader might not expect:
- The category and title listings use the same key shape in the same
  cache. So a cached category page answers a title search with the same
  string, page and size, and the reverse.
- The create request is copied as given; no validation is performed.

## Model

| member | source | states |
|---|---|---|
| Entities.ToDTO | product-service/src/main/java/com/gopiwebdev/ecommerce/product_service/service/ProductServiceImplementation.java:41 | `new ProductDTO(product)` copies every entity field, id and quantity included, under the assumption about ProductDTO.java stated above; it is the projection used at lines 61, 71, 83, 91 and 100 too |
| Entities.NewProduct | product-service/src/main/java/com/gopiwebdev/ecommerce/product_service/service/ProductServiceImplementation.java:28-37 | the new entity has no id and no quantity and agrees with the create request on every other field |
| Entities.ToDTOs | product-service/src/main/java/com/gopiwebdev/ecommerce/product_service/service/ProductServiceImplementation.java:99-101 | the listing projection keeps length and order and projects each element |
| Entities.ToDTOPage | product-service/src/main/java/com/gopiwebdev/ecommerce/product_service/service/ProductServiceImplementation.java:83 | projecting a page keeps its number and size and projects each element of its content in order |
| Entities.ApplyUpdate | product-service/src/main/java/com/gopiwebdev/ecommerce/product_service/service/ProductServiceImplementation.java:49-57 | the nine conditional setters: each field whose request value is non-null takes that value, every other field, and the id, keep theirs; its contract is stated by PartialUpdate and PartialUpdateIsUnique |
| Entities.PartialUpdate | product-service/src/main/java/com/gopiwebdev/ecommerce/product_service/service/ProductServiceImplementation.java:49-57 | each field the update request provides is overwritten with the request's value, each null field keeps its value, the id is unchanged |
| Entities.PartialUpdateIsUnique | product-service/src/main/java/com/gopiwebdev/ecommerce/product_service/service/ProductServiceImplementation.java:49-57 | the field-by-field description determines the updated entity: any entity meeting it equals ApplyUpdate |
| Paging.ValidRequest | product-service/src/main/java/com/gopiwebdev/ecommerce/product_service/service/ProductServiceImplementation.java:80 | `PageRequest.of(page, size)` accepts exactly a non-negative page and a size of at least one; the same check runs at line 89 |
| Paging.Offset | product-service/src/main/java/com/gopiwebdev/ecommerce/product_service/service/ProductServiceImplementation.java:80-81 | the pageable's offset, the rank of the first entry on a page: page times size, exact because Spring computes it as a long |
| Paging.OffsetFits | product-service/src/main/java/com/gopiwebdev/ecommerce/product_service/service/ProductServiceImplementation.java:81 | the repository query can run a page only when its offset is at most Integer.MAX_VALUE, the int first-result index JPA takes; the same holds at line 90 |
| Paging.Slice | product-service/src/main/java/com/gopiwebdev/ecommerce/product_service/service/ProductServiceImplementation.java:80-81 | the slice holds the elements at positions offset to offset+size-1 that exist, in order: min(size, remaining) of them, none past the end |
| Paging.RankHasPage | product-service/src/main/java/com/gopiwebdev/ecommerce/product_service/service/ProductServiceImplementation.java:80 | every rank j up to Integer.MAX_VALUE lies within page j / size, a valid page request whose offset fits |
| CacheKeys.DecimalString | product-service/src/main/java/com/gopiwebdev/ecommerce/product_service/service/ProductServiceImplementation.java:78 | an int's text is non-empty, made of digits with at most a leading minus, and starts with a minus exactly for negatives |
| CacheKeys.DecimalStringInjective | product-service/src/main/java/com/gopiwebdev/ecommerce/product_service/service/ProductServiceImplementation.java:78 | distinct ints give distinct texts |
| CacheKeys.ListingKey | product-service/src/main/java/com/gopiwebdev/ecommerce/product_service/service/ProductServiceImplementation.java:78 | a listing key always contains the separator, so it is never the key "allProducts" |
| CacheKeys.ListingKeyInjective | product-service/src/main/java/com/gopiwebdev/ecommerce/product_service/service/ProductServiceImplementation.java:78 | two listing keys are equal exactly when string, page and size are equal, even for strings containing the separator |
| Repository.FindById | product-service/src/main/java/com/gopiwebdev/ecommerce/product_service/service/ProductServiceImplementation.java:47 | findById finds exactly the stored ids and returns the entity stored under the id, whose own id is that id; the same lookup runs at lines 67 and 107 |
| Repository.Save | product-service/src/main/java/com/gopiwebdev/ecommerce/product_service/service/ProductServiceImplementation.java:39 | save keeps the repository invariant; a new entity gets a fresh id not yet stored and is appended; an entity with an id overwrites only that id |
| Repository.RemoveIdAppend | product-service/src/main/java/com/gopiwebdev/ecommerce/product_service/service/ProductServiceImplementation.java:109 | removing an id from the enumeration works piecewise on concatenations, so the remaining ids keep their relative order |
| Repository.RemoveIdAt | product-service/src/main/java/com/gopiwebdev/ecommerce/product_service/service/ProductServiceImplementation.java:109 | in an enumeration without duplicates, removing the id at position i cuts out exactly position i |
| Repository.Delete | product-service/src/main/java/com/gopiwebdev/ecommerce/product_service/service/ProductServiceImplementation.java:109 | delete removes exactly the given id from the store and from the enumeration, where the other ids keep their order, and keeps the invariant |
| Repository.FindAll | product-service/src/main/java/com/gopiwebdev/ecommerce/product_service/service/ProductServiceImplementation.java:97 | findAll lists the stored entity of each enumerated id in enumeration order |
| Repository.FindAllIsComplete | product-service/src/main/java/com/gopiwebdev/ecommerce/product_service/service/ProductServiceImplementation.java:97 | findAll returns every stored entity, each exactly once, and nothing else |
| Repository.FindAllAfterInsert | product-service/src/main/java/com/gopiwebdev/ecommerce/product_service/service/ProductServiceImplementation.java:39 | saving a new entity appends it to the end of findAll; earlier entities keep their positions |
| Repository.FindAllAfterDelete | product-service/src/main/java/com/gopiwebdev/ecommerce/product_service/service/ProductServiceImplementation.java:109 | deleting the entity at position i of findAll removes exactly that element; the others keep their order |
| Repository.Filter | product-service/src/main/java/com/gopiwebdev/ecommerce/product_service/service/ProductServiceImplementation.java:81 | the filtered list holds exactly the accepted elements of the input, and is no longer than it |
| Repository.FilterAppend | product-service/src/main/java/com/gopiwebdev/ecommerce/product_service/service/ProductServiceImplementation.java:81 | filtering distributes over concatenation, and a one-element list keeps its element exactly when it is accepted: the filter keeps the input order |
| Repository.FilterAround | product-service/src/main/java/com/gopiwebdev/ecommerce/product_service/service/ProductServiceImplementation.java:81 | the filtered list is the kept elements before position i, then the element at i if kept, then the kept elements after i |
| Repository.Contains | product-service/src/main/java/com/gopiwebdev/ecommerce/product_service/service/ProductServiceImplementation.java:90 | title containment holds exactly when the text occurs at some position of the title |
| Repository.CategoryMatches | product-service/src/main/java/com/gopiwebdev/ecommerce/product_service/service/ProductServiceImplementation.java:81 | the matches of a category are exactly the stored products of that category |
| Repository.TitleMatches | product-service/src/main/java/com/gopiwebdev/ecommerce/product_service/service/ProductServiceImplementation.java:90 | the matches of a title search are exactly the stored products whose title contains the text |
| Repository.FindByCategory | product-service/src/main/java/com/gopiwebdev/ecommerce/product_service/service/ProductServiceImplementation.java:80-81 | for a valid page request whose offset fits in an int, a category page has the requested number and size and holds the category matches at ranks page*size to page*size+size-1, in order: min(size, remaining) of them, none when the offset is past the last match |
| Repository.FindByTitleContaining | product-service/src/main/java/com/gopiwebdev/ecommerce/product_service/service/ProductServiceImplementation.java:89-90 | for a valid page request whose offset fits in an int, a title page has the requested number and size and holds the title matches at ranks page*size to page*size+size-1, in order: min(size, remaining) of them, none when the offset is past the last match |
| Repository.CategoryMatchOnItsPage | product-service/src/main/java/com/gopiwebdev/ecommerce/product_service/service/ProductServiceImplementation.java:80-81 | every category match of rank j up to Integer.MAX_VALUE is listed: it is entry j - page*size of page j / size |
| Repository.TitleMatchOnItsPage | product-service/src/main/java/com/gopiwebdev/ecommerce/product_service/service/ProductServiceImplementation.java:89-90 | every title match of rank j up to Integer.MAX_VALUE is listed: it is entry j - page*size of page j / size |
| ServiceSpec.CreateProduct | product-service/src/main/java/com/gopiwebdev/ecommerce/product_service/service/ProductServiceImplementation.java:27-42 | create stores one new product under a fresh id, appends that id to the enumeration and advances the id counter, leaves every other product and the whole cache unchanged, and returns its projection, which carries the request's fields except id and quantity |
| ServiceSpec.UpdateProduct | product-service/src/main/java/com/gopiwebdev/ecommerce/product_service/service/ProductServiceImplementation.java:45-62 | update of a missing id fails with NotFound and changes nothing; otherwise it stores the partially updated entity, puts its projection under the id in the cache and returns it |
| ServiceSpec.GetProductById | product-service/src/main/java/com/gopiwebdev/ecommerce/product_service/service/ProductServiceImplementation.java:65-75 | the result is what an uncached lookup returns (the projection, or NotFound); the body runs exactly on a cache miss; a found projection is cached, a failure is not; the repository is unchanged |
| ServiceSpec.GetProductsByCategory | product-service/src/main/java/com/gopiwebdev/ecommerce/product_service/service/ProductServiceImplementation.java:78-84 | a hit returns the cached page without running the body; a miss with an invalid page request, or with an offset past Integer.MAX_VALUE, fails without caching; otherwise the page of the projections of the category matches at ranks page*size to page*size+size-1, in order, is cached and returned, each entry the projection of a stored product of that category |
| ServiceSpec.SearchProductsByTitle | product-service/src/main/java/com/gopiwebdev/ecommerce/product_service/service/ProductServiceImplementation.java:87-92 | a hit returns the cached page without running the body; a miss with an invalid page request, or with an offset past Integer.MAX_VALUE, fails without caching; otherwise the page of the projections of the title matches at ranks page*size to page*size+size-1, in order, is cached and returned, each entry the projection of a stored product whose title contains the text |
| ServiceSpec.GetAll | product-service/src/main/java/com/gopiwebdev/ecommerce/product_service/service/ProductServiceImplementation.java:95-102 | a hit returns the cached list without running the body; a miss returns the projection of every stored product in order and caches it |
| ServiceSpec.DeleteProduct | product-service/src/main/java/com/gopiwebdev/ecommerce/product_service/service/ProductServiceImplementation.java:105-110 | delete of a missing id fails with NotFound and changes nothing; otherwise it removes exactly that product, removes its id from the enumeration keeping the others in order, and evicts exactly its id entry |
| ServiceSpec.ProjectedCategoryPage | product-service/src/main/java/com/gopiwebdev/ecommerce/product_service/service/ProductServiceImplementation.java:83 | every DTO of a projected category page is the projection of a stored product of that category |
| ServiceSpec.ProjectedTitlePage | product-service/src/main/java/com/gopiwebdev/ecommerce/product_service/service/ProductServiceImplementation.java:91 | every DTO of a projected title page is the projection of a stored product whose title contains the text |
| ServiceProperties.UpdateWritesThrough | product-service/src/main/java/com/gopiwebdev/ecommerce/product_service/service/ProductServiceImplementation.java:45-75 | after a successful update, reading the product is answered from the cache with the updated projection |
| ServiceProperties.RepeatedGetProductById | product-service/src/main/java/com/gopiwebdev/ecommerce/product_service/service/ProductServiceImplementation.java:65-75 | two reads in a row agree; the second is served from the cache exactly when the first succeeded |
| ServiceProperties.DeleteEvicts | product-service/src/main/java/com/gopiwebdev/ecommerce/product_service/service/ProductServiceImplementation.java:65-110 | after a successful delete the id's entry is gone and the next read runs the body and fails with NotFound |
| ServiceProperties.CreateThenGet | product-service/src/main/java/com/gopiwebdev/ecommerce/product_service/service/ProductServiceImplementation.java:27-75 | a created product is read back, from the repository, under the id it was given |
| ServiceProperties.WritesKeepListingEntries | product-service/src/main/java/com/gopiwebdev/ecommerce/product_service/service/ProductServiceImplementation.java:26-110 | no create, update or delete removes or changes a category, title or "allProducts" entry |
| ServiceProperties.AllProductsStaleAfterCreate | product-service/src/main/java/com/gopiwebdev/ecommerce/product_service/service/ProductServiceImplementation.java:27-102 | after getAll has cached the list, a created product is missing from the next getAll, which is served from the cache |
| ServiceProperties.AllProductsStaleAfterDelete | product-service/src/main/java/com/gopiwebdev/ecommerce/product_service/service/ProductServiceImplementation.java:95-110 | after getAll has cached the list, a deleted product is still in the next getAll, which is served from the cache |
| ServiceProperties.SearchServedFromCategoryEntry | product-service/src/main/java/com/gopiwebdev/ecommerce/product_service/service/ProductServiceImplementation.java:78-92 | a cached category page answers the title search with the same string, page and size without running it |
| ServiceProperties.CategoryServedFromSearchEntry | product-service/src/main/java/com/gopiwebdev/ecommerce/product_service/service/ProductServiceImplementation.java:78-92 | a cached title search answers the category listing with the same string, page and size without running it |
| ServiceProperties.SearchReturnsNonMatchingTitle | product-service/src/main/java/com/gopiwebdev/ecommerce/product_service/service/ProductServiceImplementation.java:78-92 | with one product "Boot" in category "shoes", a title search for "shoes" after the category listing returns the boot, whose title does not contain "shoes" |
| ServiceProperties.OversizedOffsetNeverCached | product-service/src/main/java/com/gopiwebdev/ecommerce/product_service/service/ProductServiceImplementation.java:78-84 | a category page whose offset exceeds Integer.MAX_VALUE fails, caches nothing, and fails again when asked again, running the body each time |
| ServiceProperties.OversizedOffsetExample | product-service/src/main/java/com/gopiwebdev/ecommerce/product_service/service/ProductServiceImplementation.java:80-81 | page 2^30 of size 4 passes `PageRequest.of` but its offset, 2^32, exceeds Integer.MAX_VALUE |
| ServiceProperties.FirstCategoryPageListsAll | product-service/src/main/java/com/gopiwebdev/ecommerce/product_service/service/ProductServiceImplementation.java:78-84 | on a miss, a first page at least as large as the number of matches lists exactly the projections of the category matches, in enumeration order |
| ServiceProperties.FirstSearchPageListsAll | product-service/src/main/java/com/gopiwebdev/ecommerce/product_service/service/ProductServiceImplementation.java:87-92 | on a miss, a first page at least as large as the number of matches lists exactly the projections of the title matches, in enumeration order |
| ServiceProperties.CreateAppendsToCategory | product-service/src/main/java/com/gopiwebdev/ecommerce/product_service/service/ProductServiceImplementation.java:27-42 | a created product goes to the end of findAll and to the end of its category's matches; the other products keep their ranks |
| ServiceProperties.DeleteKeepsCategoryOrder | product-service/src/main/java/com/gopiwebdev/ecommerce/product_service/service/ProductServiceImplementation.java:105-110 | deleting the product at rank i removes it from findAll and from its category's matches; the products before and after it keep their order |
| ServiceProperties.CreateUpdateRead | product-service/src/main/java/com/gopiwebdev/ecommerce/product_service/service/ProductServiceImplementation.java:27-75 | create "Pen", update only its price, read it: the read is served from the cache with the new price, the same title and the same category |
| ProductService.SetProvidedFields | product-service/src/main/java/com/gopiwebdev/ecommerce/product_service/service/ProductServiceImplementation.java:49-57 | the nine conditional setters run in sequence produce ApplyUpdate of the loaded entity |
| ProductService.ProductServiceImplementation.RepositorySave | product-service/src/main/java/com/gopiwebdev/ecommerce/product_service/service/ProductServiceImplementation.java:39 | the repository fields change exactly as Repository.Save says; the cache is untouched |
| ProductService.ProductServiceImplementation.RepositoryDelete | product-service/src/main/java/com/gopiwebdev/ecommerce/product_service/service/ProductServiceImplementation.java:109 | the repository fields change exactly as Repository.Delete says; the cache is untouched |
| ProductService.ProductServiceImplementation.CreateProduct | product-service/src/main/java/com/gopiwebdev/ecommerce/product_service/service/ProductServiceImplementation.java:27-42 | keeps the invariant; new fields and result are those of ServiceSpec.CreateProduct |
| ProductService.ProductServiceImplementation.UpdateProduct | product-service/src/main/java/com/gopiwebdev/ecommerce/product_service/service/ProductServiceImplementation.java:45-62 | keeps the invariant; new fields and result are those of ServiceSpec.UpdateProduct |
| ProductService.ProductServiceImplementation.GetProductById | product-service/src/main/java/com/gopiwebdev/ecommerce/product_service/service/ProductServiceImplementation.java:65-75 | keeps the invariant; new fields and result are those of ServiceSpec.GetProductById |
| ProductService.ProductServiceImplementation.GetProductsByCategory | product-service/src/main/java/com/gopiwebdev/ecommerce/product_service/service/ProductServiceImplementation.java:78-84 | keeps the invariant; new fields and result are those of ServiceSpec.GetProductsByCategory |
| ProductService.ProductServiceImplementation.SearchProductsByTitle | product-service/src/main/java/com/gopiwebdev/ecommerce/product_service/service/ProductServiceImplementation.java:87-92 | keeps the invariant; new fields and result are those of ServiceSpec.SearchProductsByTitle |
| ProductService.ProductServiceImplementation.GetAll | product-service/src/main/java/com/gopiwebdev/ecommerce/product_service/service/ProductServiceImplementation.java:95-102 | keeps the invariant; new fields and result are those of ServiceSpec.GetAll |
| ProductService.ProductServiceImplementation.DeleteProduct | product-service/src/main/java/com/gopiwebdev/ecommerce/product_service/service/ProductServiceImplementation.java:105-110 | keeps the invariant; new fields and result are those of ServiceSpec.DeleteProduct |

The invariant `ServiceSpec.Valid`, kept by every operation, has three
parts:
- the repository is well formed;
- each cache key holds the kind of value its operation returns;
- every id-keyed entry is the projection of the product currently stored
  under that id.

So single-product entries are never stale. Only the listing entries can
be stale.

## Left out

- Null arguments other than the listing strings: a null id makes `findById` (and, for the id-keyed methods, the cache key) throw IllegalArgumentException, a null update request throws NullPointerException at its first getter (line 49), and a null create request throws NullPointerException at its first getter (line 29); the model's ids, update requests and create requests are never null.
- The user service's repository: it only declares derived query signatures and has no logic.
- Spring wiring (`@Service`, `@Autowired`) and the "Fetching from DB" log line of `getAll`; the `invoked` flag of an outcome records when that body, and so the log line, runs.
- The page metadata of Spring's `Page` (total elements, total pages): library code that is not shown.
- The numeric types of price, discount percentage and rating: the service only copies them, so they are an opaque type with equality.
- The text of the `ProductNotFoundException` messages; the model records only the id.
- Strings passed as null to the listing methods (their keys would contain "null"): the model takes category and title as strings.
- The 64-bit width of `Long` ids: ids are unbounded integers and the id counter never wraps.
- JPA's managed-entity semantics: the model updates a copy of the loaded entity and saves it, which has the same effect as flushing the managed entity.
- A cache hit whose value has the wrong type (a ClassCastException in Java): the invariant shows it cannot happen, so the model does not represent that exception.
- Concurrency (racing updates, cache-miss stampedes) and cache backend configuration (TTL, serialisation, key encoding).
