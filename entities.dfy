/** The product entity, its transfer object `ProductDTO` and the partial
    update request `UpdateProductDTO`, with the conversions the service
    performs between them. */
module Entities {
  import opened Wrappers
  import opened Paging

  /** The numeric type of price, discount percentage and rating. The
      service only copies these values, so nothing about them is assumed
      beyond equality. */
  type Number(==, !new)

  /** The persisted product. Every field is a nullable reference. */
  datatype Product = Product(
    id: Option<int>,
    title: Option<string>,
    price: Option<Number>,
    discountPercentage: Option<Number>,
    category: Option<string>,
    description: Option<string>,
    rating: Option<Number>,
    thumbnail: Option<string>,
    quantity: Option<int>,
    images: Option<seq<string>>)

  /** The transfer object returned to callers and accepted by
      `createProduct`; it mirrors every field of the entity. */
  datatype ProductDTO = ProductDTO(
    id: Option<int>,
    title: Option<string>,
    price: Option<Number>,
    discountPercentage: Option<Number>,
    category: Option<string>,
    description: Option<string>,
    rating: Option<Number>,
    thumbnail: Option<string>,
    quantity: Option<int>,
    images: Option<seq<string>>)

  /** The partial update request: a null (`None`) field means "keep". */
  datatype UpdateProductDTO = UpdateProductDTO(
    title: Option<string>,
    description: Option<string>,
    price: Option<Number>,
    quantity: Option<int>,
    category: Option<string>,
    thumbnail: Option<string>,
    rating: Option<Number>,
    discountPercentage: Option<Number>,
    images: Option<seq<string>>)

  /** `new ProductDTO(product)`: the projection of an entity. */
  function ToDTO(p: Product): ProductDTO
  {
    ProductDTO(p.id, p.title, p.price, p.discountPercentage, p.category,
               p.description, p.rating, p.thumbnail, p.quantity, p.images)
  }

  /** `new Product(title, price, discountPercentage, category, description,
      rating, thumbnail, images)` built from a create request: the new
      entity has no id yet and no quantity, and agrees with the request on
      every other field. */
  function NewProduct(request: ProductDTO): (p: Product)
    ensures p.id == None && p.quantity == None
    ensures ToDTO(p) == request.(id := None, quantity := None)
  {
    Product(None, request.title, request.price, request.discountPercentage,
            request.category, request.description, request.rating,
            request.thumbnail, None, request.images)
  }

  /** `stream().map(ProductDTO::new).toList()`: the projection of every
      element, in the same order. */
  function ToDTOs(ps: seq<Product>): (r: seq<ProductDTO>)
    ensures |r| == |ps|
    ensures forall i :: 0 <= i < |ps| ==> r[i] == ToDTO(ps[i])
  {
    if ps == [] then [] else [ToDTO(ps[0])] + ToDTOs(ps[1..])
  }

  /** `productPage.map(ProductDTO::new)`: projects the content and keeps the
      page number and size. */
  function ToDTOPage(page: Page<Product>): (r: Page<ProductDTO>)
    ensures r.number == page.number && r.size == page.size
    ensures |r.content| == |page.content|
    ensures forall i :: 0 <= i < |page.content| ==> r.content[i] == ToDTO(page.content[i])
  {
    Page(ToDTOs(page.content), page.number, page.size)
  }

  /** The sequence of conditional setters of `updateProduct`, as a
      function of the loaded entity and the request. */
  function ApplyUpdate(p: Product, dto: UpdateProductDTO): Product
  {
    p.(title := if dto.title.Some? then dto.title else p.title,
       description := if dto.description.Some? then dto.description else p.description,
       price := if dto.price.Some? then dto.price else p.price,
       quantity := if dto.quantity.Some? then dto.quantity else p.quantity,
       category := if dto.category.Some? then dto.category else p.category,
       thumbnail := if dto.thumbnail.Some? then dto.thumbnail else p.thumbnail,
       rating := if dto.rating.Some? then dto.rating else p.rating,
       discountPercentage := if dto.discountPercentage.Some? then dto.discountPercentage else p.discountPercentage,
       images := if dto.images.Some? then dto.images else p.images)
  }

  /** The fields a request can update, for stating the partial update
      field by field. */
  datatype Field = Title | Description | Price | Quantity | Category
                 | Thumbnail | Rating | DiscountPercentage | Images

  datatype FieldValue =
    | Text(text: Option<string>)
    | Amount(amount: Option<Number>)
    | Count(count: Option<int>)
    | Pictures(pictures: Option<seq<string>>)

  /** The value of field `f` of an entity. */
  function Get(p: Product, f: Field): FieldValue
  {
    match f
    case Title => Text(p.title)
    case Description => Text(p.description)
    case Price => Amount(p.price)
    case Quantity => Count(p.quantity)
    case Category => Text(p.category)
    case Thumbnail => Text(p.thumbnail)
    case Rating => Amount(p.rating)
    case DiscountPercentage => Amount(p.discountPercentage)
    case Images => Pictures(p.images)
  }

  /** The new value a request gives field `f`, or `None` when the request
      leaves that field null. */
  function Provided(dto: UpdateProductDTO, f: Field): Option<FieldValue>
  {
    match f
    case Title => if dto.title.Some? then Some(Text(dto.title)) else None
    case Description => if dto.description.Some? then Some(Text(dto.description)) else None
    case Price => if dto.price.Some? then Some(Amount(dto.price)) else None
    case Quantity => if dto.quantity.Some? then Some(Count(dto.quantity)) else None
    case Category => if dto.category.Some? then Some(Text(dto.category)) else None
    case Thumbnail => if dto.thumbnail.Some? then Some(Text(dto.thumbnail)) else None
    case Rating => if dto.rating.Some? then Some(Amount(dto.rating)) else None
    case DiscountPercentage => if dto.discountPercentage.Some? then Some(Amount(dto.discountPercentage)) else None
    case Images => if dto.images.Some? then Some(Pictures(dto.images)) else None
  }

  /** An entity is determined by its id and its updatable fields. */
  lemma {:induction false} FieldsDetermineProduct(p: Product, q: Product)
    requires p.id == q.id
    requires forall f :: Get(p, f) == Get(q, f)
    ensures p == q
  {
    assert Get(p, Title) == Get(q, Title) && Get(p, Description) == Get(q, Description);
    assert Get(p, Price) == Get(q, Price) && Get(p, Quantity) == Get(q, Quantity);
    assert Get(p, Category) == Get(q, Category) && Get(p, Thumbnail) == Get(q, Thumbnail);
    assert Get(p, Rating) == Get(q, Rating) && Get(p, DiscountPercentage) == Get(q, DiscountPercentage);
    assert Get(p, Images) == Get(q, Images);
  }

  /** Partial update: each field the request provides is overwritten with
      the request's value, each field it leaves null keeps its value, and
      the id never changes. */
  lemma PartialUpdate(p: Product, dto: UpdateProductDTO)
    ensures ApplyUpdate(p, dto).id == p.id
    ensures forall f :: Get(ApplyUpdate(p, dto), f)
                     == if Provided(dto, f).Some? then Provided(dto, f).value else Get(p, f)
  {
  }

  /** The field-wise description of the partial update determines it: any
      entity that keeps the id and satisfies it is `ApplyUpdate(p, dto)`. */
  lemma {:induction false} PartialUpdateIsUnique(p: Product, dto: UpdateProductDTO, q: Product)
    requires q.id == p.id
    requires forall f :: Get(q, f) == if Provided(dto, f).Some? then Provided(dto, f).value else Get(p, f)
    ensures q == ApplyUpdate(p, dto)
  {
    PartialUpdate(p, dto);
    FieldsDetermineProduct(q, ApplyUpdate(p, dto));
  }
}
