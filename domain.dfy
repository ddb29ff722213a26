/** The product entity, its stored row, and the request DTOs of the catalogue. */
module Domain {
  import opened Wrappers

  /** .NET's `int`: a 32-bit two's-complement integer. */
  newtype int32 = x: int | -0x8000_0000 <= x < 0x8000_0000

  const Int32Max: int := 0x7fff_ffff

  /** The value of a product as one row of the products table. */
  datatype ProductRow = ProductRow(
    id: int,
    name: string,
    description: string,
    availableQuantity: int, // a .NET long
    price: real)            // a .NET decimal, exact in base 10

  /** The product entity. Its fields are updated in place by the service's Update. */
  class Product {
    var id: int
    var name: string
    var description: string
    var availableQuantity: int
    var price: real

    /** The only constructor: the id keeps its default 0 until the store assigns one. */
    constructor (name: string, description: string, availableQuantity: int, price: real)
      ensures Row() == ProductRow(0, name, description, availableQuantity, price)
    {
      this.id := 0;
      this.name := name;
      this.description := description;
      this.availableQuantity := availableQuantity;
      this.price := price;
    }

    /** The current field values of this object. */
    function Row(): ProductRow
      reads this
    {
      ProductRow(id, name, description, availableQuantity, price)
    }
  }

  /** Request to create a product: all four business fields. */
  datatype CreateProductDto = CreateProductDto(
    name: string,
    description: string,
    availableQuantity: int,
    price: real)

  /** Request to update a product: every field optional; None keeps the stored value. */
  datatype UpdateProductDto = UpdateProductDto(
    name: Option<string>,
    description: Option<string>,
    availableQuantity: Option<int>,
    price: Option<real>)

  datatype PaginationDto = PaginationDto(pageNumber: int32, pageSize: int32)

  /** Search request: optional name fragment, optional sort property, and a page. */
  datatype FindProductsDto = FindProductsDto(
    nameToFind: Option<string>,
    propertyToOrderBy: Option<string>,
    pagination: Option<PaginationDto>)

  /** The public properties of Product, in declaration order. */
  datatype ProductProperty = Id | Name | Description | AvailableQuantity | Price

  function PropertyName(p: ProductProperty): string {
    match p
    case Id => "Id"
    case Name => "Name"
    case Description => "Description"
    case AvailableQuantity => "AvailableQuantity"
    case Price => "Price"
  }

  /** The names of Product's properties: the sort-field allow-list, fixed once. */
  const ProductPropertyNames: set<string> := {"Id", "Name", "Description", "AvailableQuantity", "Price"}

  /** The allow-list holds exactly the names of Product's properties, and each name
      belongs to one property only. */
  lemma PropertyNamesAreTheProperties(s: string)
    ensures s in ProductPropertyNames <==> exists p :: PropertyName(p) == s
    ensures forall p, q :: PropertyName(p) == PropertyName(q) ==> p == q
  {
    if s in ProductPropertyNames {
      var p := if s == "Id" then Id else if s == "Name" then Name
        else if s == "Description" then Description
        else if s == "AvailableQuantity" then AvailableQuantity else Price;
      assert PropertyName(p) == s;
    }
  }
}
