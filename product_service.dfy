/** `ProductServiceImplementation` as an object: the repository it calls
    and the shared "products" cache are fields that its methods update in
    place. Each method performs the annotation's cache steps around the
    method body explicitly, and is proved to make exactly the transition
    the corresponding function of `ServiceSpec` describes. */
module ProductService {
  import opened Wrappers
  import opened Paging
  import opened Entities
  import opened Repository
  import opened CacheKeys
  import opened ServiceSpec

  /** The conditional setters of `updateProduct`, applied one after the
      other to the loaded entity. */
  method SetProvidedFields(loaded: Product, dto: UpdateProductDTO) returns (product: Product)
    ensures product == ApplyUpdate(loaded, dto)
  {
    product := loaded;
    if dto.title.Some? { product := product.(title := dto.title); }
    if dto.description.Some? { product := product.(description := dto.description); }
    if dto.price.Some? { product := product.(price := dto.price); }
    if dto.quantity.Some? { product := product.(quantity := dto.quantity); }
    if dto.category.Some? { product := product.(category := dto.category); }
    if dto.thumbnail.Some? { product := product.(thumbnail := dto.thumbnail); }
    if dto.rating.Some? { product := product.(rating := dto.rating); }
    if dto.discountPercentage.Some? { product := product.(discountPercentage := dto.discountPercentage); }
    if dto.images.Some? { product := product.(images := dto.images); }
  }

  class ProductServiceImplementation {
    /** The product repository: stored entities by id, their enumeration
        order and the next generated id. */
    var store: map<int, Product>
    var order: seq<int>
    var nextId: int
    /** The "products" cache shared by every annotated method. */
    var cache: Cache

    function Repo(): Store
      reads this
    {
      Store(store, order, nextId)
    }

    function Snapshot(): State
      reads this
    {
      State(Repo(), cache)
    }

    ghost predicate Valid()
      reads this
    {
      ServiceSpec.Valid(Snapshot())
    }

    /** A service over an empty repository with an empty cache. */
    constructor ()
      ensures Valid() && Snapshot() == Initial
    {
      store, order, nextId := map[], [], 1;
      cache := map[];
    }

    /** `repository.save(product)`. */
    method RepositorySave(product: Product) returns (saved: Product)
      requires Repository.Valid(Repo())
      requires product.id.Some? ==> product.id.value in store
      modifies this
      ensures (Repo(), saved) == Repository.Save(old(Repo()), product)
      ensures cache == old(cache)
    {
      if product.id.None? {
        saved := product.(id := Some(nextId));
        store := store[nextId := saved];
        order := order + [nextId];
        nextId := nextId + 1;
      } else {
        saved := product;
        store := store[product.id.value := product];
      }
    }

    /** `repository.delete(product)` of the stored entity with this id. */
    method RepositoryDelete(id: int)
      requires Repository.Valid(Repo()) && id in store
      modifies this
      ensures Repo() == Repository.Delete(old(Repo()), id)
      ensures cache == old(cache)
    {
      store := store - {id};
      order := RemoveId(order, id);
    }

    /** `createProduct(request)`. */
    method CreateProduct(request: ProductDTO) returns (r: ProductDTO)
      requires Valid()
      modifies this
      ensures Valid()
      ensures var o := ServiceSpec.CreateProduct(old(Snapshot()), request);
        Snapshot() == o.post && Ok(r) == o.result
    {
      var product := NewProduct(request);
      var saved := RepositorySave(product);
      r := ToDTO(saved);
    }

    /** `updateProduct(id, dto)`: load the entity, apply each non-null
        field of the request with its setter, save, and under `@CachePut`
        put the returned DTO under the id. */
    method UpdateProduct(id: int, dto: UpdateProductDTO) returns (r: Result<ProductDTO, Error>)
      requires Valid()
      modifies this
      ensures Valid()
      ensures var o := ServiceSpec.UpdateProduct(old(Snapshot()), id, dto);
        Snapshot() == o.post && r == o.result
    {
      if id !in store {
        r := Err(ProductNotFound(id));
        return;
      }
      var product := SetProvidedFields(store[id], dto);
      var updated := RepositorySave(product);
      var d := ToDTO(updated);
      cache := cache[IdKey(id) := One(d)];
      r := Ok(d);
    }

    /** `getProductById(id)` under `@Cacheable`: a hit answers without
        touching the repository; a miss looks the entity up and caches its
        projection only when it is found. */
    method GetProductById(id: int) returns (r: Result<ProductDTO, Error>)
      requires Valid()
      modifies this
      ensures Valid()
      ensures var o := ServiceSpec.GetProductById(old(Snapshot()), id);
        Snapshot() == o.post && r == o.result
    {
      var key := IdKey(id);
      if key in cache {
        r := Ok(cache[key].dto);
        return;
      }
      if id in store {
        var d := ToDTO(store[id]);
        cache := cache[key := One(d)];
        r := Ok(d);
      } else {
        r := Err(ProductNotFound(id));
      }
    }

    /** `getProductsByCategory(category, page, size)` under `@Cacheable`. */
    method GetProductsByCategory(category: string, page: int32, size: int32)
      returns (r: Result<Page<ProductDTO>, Error>)
      requires Valid()
      modifies this
      ensures Valid()
      ensures var o := ServiceSpec.GetProductsByCategory(old(Snapshot()), category, page, size);
        Snapshot() == o.post && r == o.result
    {
      var key := ListingKey(category, page, size);
      if key in cache {
        r := Ok(cache[key].page);
        return;
      }
      if !ValidRequest(page, size) {
        r := Err(IllegalArgument);
        return;
      }
      if !OffsetFits(page, size) {
        r := Err(OffsetTooLarge);
        return;
      }
      var productPage := FindByCategory(Repo(), category, page, size);
      var result := ToDTOPage(productPage);
      cache := cache[key := PageOf(result)];
      r := Ok(result);
    }

    /** `searchProductsByTitle(title, page, size)` under `@Cacheable`. */
    method SearchProductsByTitle(title: string, page: int32, size: int32)
      returns (r: Result<Page<ProductDTO>, Error>)
      requires Valid()
      modifies this
      ensures Valid()
      ensures var o := ServiceSpec.SearchProductsByTitle(old(Snapshot()), title, page, size);
        Snapshot() == o.post && r == o.result
    {
      var key := ListingKey(title, page, size);
      if key in cache {
        r := Ok(cache[key].page);
        return;
      }
      if !ValidRequest(page, size) {
        r := Err(IllegalArgument);
        return;
      }
      if !OffsetFits(page, size) {
        r := Err(OffsetTooLarge);
        return;
      }
      var productPage := FindByTitleContaining(Repo(), title, page, size);
      var result := ToDTOPage(productPage);
      cache := cache[key := PageOf(result)];
      r := Ok(result);
    }

    /** `getAll()` under `@Cacheable(key = "'allProducts'")`. */
    method GetAll() returns (r: seq<ProductDTO>)
      requires Valid()
      modifies this
      ensures Valid()
      ensures var o := ServiceSpec.GetAll(old(Snapshot()));
        Snapshot() == o.post && Ok(r) == o.result
    {
      if AllProducts in cache {
        r := cache[AllProducts].items;
        return;
      }
      var products := FindAll(Repo());
      r := ToDTOs(products);
      cache := cache[AllProducts := ListOf(r)];
    }

    /** `deleteProduct(id)` under `@CacheEvict`: the id's entry is evicted
        only when the deletion returns normally. */
    method DeleteProduct(id: int) returns (r: Result<(), Error>)
      requires Valid()
      modifies this
      ensures Valid()
      ensures var o := ServiceSpec.DeleteProduct(old(Snapshot()), id);
        Snapshot() == o.post && r == o.result
    {
      if id !in store {
        r := Err(ProductNotFound(id));
        return;
      }
      RepositoryDelete(id);
      cache := cache - {IdKey(id)};
      r := Ok(());
    }
  }
}
