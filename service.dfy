/** `ProductService`: the five catalogue operations over the repository and the cache.
    Every operation turns a failed validation into the grouped FluentResults errors and
    an exception into `Fail(message)`; Create and Update write the product through to
    the cache, Delete evicts it, and GetById reads the cache before the store. */
module Services {
  import opened Wrappers
  import opened Text
  import opened Domain
  import opened Validators
  import opened ValidationResultExtensions
  import opened ProductQuery
  import opened Repository
  import opened Caching

  const CachePrefix := "Product_"
  const ProductNotFound := "Product not found"
  /** The expiration `Set` uses when none is given. */
  const DefaultExpirationInMinutes := 100

  /** The cache key of a product: the prefix followed by the decimal id. */
  function CacheKey(id: int): (k: string)
    ensures |k| > |CachePrefix| && k[..|CachePrefix|] == CachePrefix
  {
    CachePrefix + IntToString(id)
  }

  /** Distinct products never share a cache entry. */
  lemma CacheKeyInjective(a: int, b: int)
    requires CacheKey(a) == CacheKey(b)
    ensures a == b
  {
    assert IntToString(a) == CacheKey(a)[|CachePrefix|..] == CacheKey(b)[|CachePrefix|..] == IntToString(b);
    IntToStringInjective(a, b);
  }

  // ----- the Update merge: `field = dto.Field ?? field` -----

  /** The row after Update has merged the request into it. */
  function ApplyUpdate(row: ProductRow, dto: UpdateProductDto): ProductRow {
    ProductRow(
      row.id,
      dto.name.GetOr(row.name),
      dto.description.GetOr(row.description),
      dto.availableQuantity.GetOr(row.availableQuantity),
      dto.price.GetOr(row.price))
  }

  /** The merge keeps the id, takes each field the request supplies (an empty name
      included) and keeps each field it leaves null. */
  lemma ApplyUpdateFields(row: ProductRow, dto: UpdateProductDto)
    ensures ApplyUpdate(row, dto).id == row.id
    ensures dto.name.Some? ==> ApplyUpdate(row, dto).name == dto.name.value
    ensures dto.name.None? ==> ApplyUpdate(row, dto).name == row.name
    ensures dto.description.Some? ==> ApplyUpdate(row, dto).description == dto.description.value
    ensures dto.description.None? ==> ApplyUpdate(row, dto).description == row.description
    ensures dto.availableQuantity.Some? ==> ApplyUpdate(row, dto).availableQuantity == dto.availableQuantity.value
    ensures dto.availableQuantity.None? ==> ApplyUpdate(row, dto).availableQuantity == row.availableQuantity
    ensures dto.price.Some? ==> ApplyUpdate(row, dto).price == dto.price.value
    ensures dto.price.None? ==> ApplyUpdate(row, dto).price == row.price
  {
  }

  /** A request with every field null changes nothing, and merging the same request
      twice is merging it once. */
  lemma ApplyUpdateIdentityAndIdempotent(row: ProductRow, dto: UpdateProductDto)
    ensures ApplyUpdate(row, UpdateProductDto(None, None, None, None)) == row
    ensures ApplyUpdate(ApplyUpdate(row, dto), dto) == ApplyUpdate(row, dto)
  {
  }

  /** The bounds the validators put on every product they let through to the store:
      names up to 100 characters, descriptions up to 500, and neither quantity nor
      price below zero. */
  predicate WithinLimits(row: ProductRow) {
    |row.name| <= 100 && |row.description| <= 500 && row.availableQuantity >= 0 && row.price >= 0.0
  }

  predicate RowsWithinLimits(table: map<int, ProductRow>) {
    forall id :: id in table ==> WithinLimits(table[id])
  }

  lemma LimitsAfterPut(table: map<int, ProductRow>, id: int, row: ProductRow)
    requires RowsWithinLimits(table) && WithinLimits(row)
    ensures RowsWithinLimits(table[id := row])
  {
  }

  /** Every product the create rules accept lies within the limits. */
  lemma CreatedRowWithinLimits(dto: CreateProductDto, id: int)
    requires |CreateProductFailures(dto)| == 0
    ensures WithinLimits(ProductRow(id, dto.name, dto.description, dto.availableQuantity, dto.price))
  {
  }

  /** Merging a request the update rules accept keeps a row within the limits. */
  lemma UpdatedRowWithinLimits(row: ProductRow, dto: UpdateProductDto)
    requires WithinLimits(row) && |UpdateProductFailures(dto)| == 0
    ensures WithinLimits(ApplyUpdate(row, dto))
  {
  }

  // ----- FindAll's `PropertyToOrderBy ??= nameof(Product.Id)` -----

  /** The options passed on to the repository: a null sort property becomes "Id". */
  function DefaultOrder(options: FindProductsDto): (r: FindProductsDto)
    ensures r.nameToFind == options.nameToFind && r.pagination == options.pagination
    ensures options.propertyToOrderBy.Some? ==> r.propertyToOrderBy == options.propertyToOrderBy
    ensures options.propertyToOrderBy.None? ==> r.propertyToOrderBy == Some(PropertyName(Id))
  {
    options.(propertyToOrderBy := Some(options.propertyToOrderBy.GetOr("Id")))
  }

  /** Options the allow-list validator accepts never make the query raise when the
      offset is computed exactly: the sort property resolves, Pagination is present and
      the offset and size are not negative. The query as written raises too only when
      the offset overflows an `int`. */
  lemma AllowListedQueryReturns(rows: seq<ProductRow>, options: FindProductsDto)
    requires |FindProductsFailures(options)| == 0
    ensures Query(rows, DefaultOrder(options)).Returned?
    ensures Offset(options.pagination.value) <= Int32Max ==> QueryAsWritten(rows, DefaultOrder(options)).Returned?
  {
    var name := DefaultOrder(options).propertyToOrderBy.value;
    PropertyNamesAreTheProperties(name);
    var p :| PropertyName(p) == name;
    ResolvePropertyName(p);
    QueryThrows(rows, DefaultOrder(options));
    if Offset(options.pagination.value) <= Int32Max {
      QueryAsWrittenAgrees(rows, DefaultOrder(options));
    }
  }

  /** The allow-list validator accepts the last page number an `int` holds, and there
      the query as written raises. */
  lemma AllowListedQueryMayOverflow(rows: seq<ProductRow>)
    requires |rows| <= Int32Max
    ensures var options := FindProductsDto(None, None, Some(LastPage));
      && |FindProductsFailures(options)| == 0
      && QueryAsWritten(rows, DefaultOrder(options)) == Threw(NegativeOffsetMessage)
  {
    ResolvePropertyName(Id);
    OffsetOverflows(rows, None, Some("Id"));
  }

  /** The length-only validator lets an unknown sort property through, and the query
      then raises. */
  lemma LengthOnlyQueryMayThrow(rows: seq<ProductRow>)
    ensures var options := FindProductsDto(None, Some("InvalidProperty"), Some(PaginationDto(1, 10)));
      && |FindProductsFailuresLengthOnly(options)| == 0
      && QueryAsWritten(rows, DefaultOrder(options)) == Threw(UnknownPropertyMessage("InvalidProperty"))
  {
    var n := "InvalidProperty";
    assert |Lower(n)| == 15;
    assert forall p :: |Lower(PropertyName(p))| != 15;
    assert ResolveProperty(n).None?;
  }

  /** The in-place merge of `Update`: each field the request supplies replaces the
      product's own; the id is assigned to itself. */
  method Merge(product: Product, productToUpdate: UpdateProductDto)
    modifies product
    ensures product.Row() == ApplyUpdate(old(product.Row()), productToUpdate)
  {
    product.id := product.id;
    product.name := productToUpdate.name.GetOr(product.name);
    product.description := productToUpdate.description.GetOr(product.description);
    product.availableQuantity := productToUpdate.availableQuantity.GetOr(product.availableQuantity);
    product.price := productToUpdate.price.GetOr(product.price);
  }

  // ----- the service -----

  /** The cache holds, under the key of each id it has an entry for, a product whose
      fields are those of the stored row with that id. */
  ghost predicate CacheMirrors(table: map<int, ProductRow>, entries: map<string, Product>)
    reads entries.Values
  {
    forall id :: CacheKey(id) in entries ==> id in table && entries[CacheKey(id)].Row() == table[id]
  }

  /** Storing a product under its id and caching it under that id's key keeps the
      cache a mirror of the store. */
  lemma MirrorsAfterPut(table: map<int, ProductRow>, entries: map<string, Product>, id: int, p: Product)
    requires CacheMirrors(table, entries)
    ensures CacheMirrors(table[id := p.Row()], entries[CacheKey(id) := p])
  {
    forall other | CacheKey(other) in entries[CacheKey(id) := p]
      ensures other in table[id := p.Row()]
        && entries[CacheKey(id) := p][CacheKey(other)].Row() == table[id := p.Row()][other]
    {
      if CacheKey(other) == CacheKey(id) {
        CacheKeyInjective(other, id);
      }
    }
  }

  /** Evicting the key of an id that is deleted keeps the cache a mirror of the store. */
  lemma MirrorsAfterRemove(table: map<int, ProductRow>, entries: map<string, Product>, id: int)
    requires CacheMirrors(table, entries)
    ensures CacheMirrors(table - {id}, entries - {CacheKey(id)})
  {
    forall other | CacheKey(other) in entries - {CacheKey(id)}
      ensures other in table - {id} && entries[CacheKey(other)].Row() == table[other]
    {
    }
  }

  class ProductService {
    const repository: ProductRepository
    const cache: CacheService<Product>
    /** Which of the two FindProductsDto validators the service was given. */
    const findValidator: FindValidator

    /** The repository is well formed, every stored row is within the limits, every id
        the identity sequence will hand out is free, and the cache mirrors the store. */
    ghost predicate Valid()
      reads this, repository, cache, cache.entries.Values
    {
      StoreValid() && CacheMirrors(repository.table, cache.entries)
    }

    /** The half of `Valid` about the store alone. */
    ghost predicate StoreValid()
      reads this, repository
    {
      && repository.Valid()
      && RowsWithinLimits(repository.table)
      && (forall id :: id in repository.table ==> id < repository.nextId)
    }

    constructor (repository: ProductRepository, cache: CacheService<Product>, findValidator: FindValidator)
      requires repository.Valid() && repository.table == map[] && cache.entries == map[]
      ensures Valid()
      ensures this.repository == repository && this.cache == cache && this.findValidator == findValidator
    {
      this.repository := repository;
      this.cache := cache;
      this.findValidator := findValidator;
    }

    /** `Create`: validates, stores a new product with the request's four values under a
        new id, and caches it under that id. */
    method Create(productToCreate: CreateProductDto, fault: Option<string>) returns (r: Result<Product>)
      requires Valid()
      modifies repository, cache
      ensures Valid()
      // an invalid request: the grouped failures, and neither store nor cache is touched
      ensures |CreateProductFailures(productToCreate)| > 0 ==>
        r == Fail(FluentErrors(CreateProductFailures(productToCreate)))
        && unchanged(repository) && unchanged(cache)
      // a valid request reaches the store with id 0 and the request's values
      ensures |CreateProductFailures(productToCreate)| == 0 ==>
        repository.calls == old(repository.calls) + [CreateCall(ProductRow(0, productToCreate.name,
          productToCreate.description, productToCreate.availableQuantity, productToCreate.price))]
      ensures |CreateProductFailures(productToCreate)| == 0 && fault.Some? ==> r == FailWith(fault.value)
      ensures |CreateProductFailures(productToCreate)| == 0 && fault.None? ==> r.Ok?
      ensures r.Ok? ==>
        && fresh(r.value)
        && r.value.Row() == ProductRow(r.value.id, productToCreate.name, productToCreate.description,
             productToCreate.availableQuantity, productToCreate.price)
        && r.value.id !in old(repository.table)
        && repository.table == old(repository.table)[r.value.id := r.value.Row()]
        && cache.entries == old(cache.entries)[CacheKey(r.value.id) := r.value]
        && cache.calls == old(cache.calls) + [SetCall(CacheKey(r.value.id), r.value, DefaultExpirationInMinutes)]
      // after an exception nothing has been written
      ensures r.Fail? ==>
        repository.table == old(repository.table) && cache.entries == old(cache.entries) && cache.calls == old(cache.calls)
    {
      var validationResult := ValidationResult(CreateProductFailures(productToCreate));
      if !validationResult.IsValid() {
        var grouped := GetFluentErrors(validationResult);
        return Fail(grouped.errors);
      }
      CreatedRowWithinLimits(productToCreate, 0);
      r := SaveNew(productToCreate, fault);
    }

    /** The second half of `Create`, on a request that passed validation: build the
        product, store it, and cache it under the id the store gave it. */
    method SaveNew(productToCreate: CreateProductDto, fault: Option<string>) returns (r: Result<Product>)
      requires Valid()
      requires WithinLimits(ProductRow(0, productToCreate.name, productToCreate.description,
        productToCreate.availableQuantity, productToCreate.price))
      modifies repository, cache
      ensures Valid()
      ensures repository.calls == old(repository.calls) + [CreateCall(ProductRow(0, productToCreate.name,
        productToCreate.description, productToCreate.availableQuantity, productToCreate.price))]
      ensures fault.Some? ==>
        && r == FailWith(fault.value) && repository.table == old(repository.table)
        && cache.entries == old(cache.entries) && cache.calls == old(cache.calls)
      ensures fault.None? ==>
        && r.Ok? && fresh(r.value)
        && r.value.Row() == ProductRow(r.value.id, productToCreate.name, productToCreate.description,
             productToCreate.availableQuantity, productToCreate.price)
        && r.value.id !in old(repository.table)
        && repository.table == old(repository.table)[r.value.id := r.value.Row()]
        && cache.entries == old(cache.entries)[CacheKey(r.value.id) := r.value]
        && cache.calls == old(cache.calls) + [SetCall(CacheKey(r.value.id), r.value, DefaultExpirationInMinutes)]
    {
      var created := StoreNew(productToCreate, fault);
      if created.Threw? {
        return FailWith(created.message);
      }
      var createdProduct := created.value;
      ghost var table, entries := repository.table, cache.entries;
      MirrorsAfterPut(table, entries, createdProduct.id, createdProduct);
      assert table[createdProduct.id := createdProduct.Row()] == table;
      var _ := cache.Set(CacheKey(createdProduct.id), createdProduct);
      r := Ok(createdProduct);
    }

    /** The store step of `SaveNew`: a new product with the request's values, inserted
        under the next id of the identity sequence, which is free. */
    method StoreNew(productToCreate: CreateProductDto, fault: Option<string>) returns (r: Attempt<Product>)
      requires Valid()
      requires WithinLimits(ProductRow(0, productToCreate.name, productToCreate.description,
        productToCreate.availableQuantity, productToCreate.price))
      modifies repository
      ensures Valid()
      ensures repository.calls == old(repository.calls) + [CreateCall(ProductRow(0, productToCreate.name,
        productToCreate.description, productToCreate.availableQuantity, productToCreate.price))]
      ensures fault.Some? ==> r == Threw(fault.value) && repository.table == old(repository.table)
      ensures fault.None? ==>
        && r.Returned? && fresh(r.value)
        && r.value.Row() == ProductRow(r.value.id, productToCreate.name, productToCreate.description,
             productToCreate.availableQuantity, productToCreate.price)
        && r.value.id !in old(repository.table)
        && repository.table == old(repository.table)[r.value.id := r.value.Row()]
    {
      ghost var table, entries := repository.table, cache.entries;
      var newProduct := new Product(productToCreate.name, productToCreate.description,
        productToCreate.availableQuantity, productToCreate.price);
      r := repository.Create(newProduct, fault);
      assert CacheMirrors(table, entries);
      if r.Returned? {
        LimitsAfterPut(table, r.value.id, r.value.Row());
      }
    }

    /** `Update`: validates, looks the product up, merges the request into it, stores
        it, and caches it under the id asked for. */
    method Update(id: int, productToUpdate: UpdateProductDto, lookupFault: Option<string>, updateFault: Option<string>)
      returns (r: Result<Product>)
      requires Valid()
      modifies repository, cache
      ensures Valid()
      ensures |UpdateProductFailures(productToUpdate)| > 0 ==>
        r == Fail(FluentErrors(UpdateProductFailures(productToUpdate)))
        && unchanged(repository) && unchanged(cache)
      // the lookup: an exception, or a missing product, ends the operation
      ensures |UpdateProductFailures(productToUpdate)| == 0 && (lookupFault.Some? || id !in old(repository.table)) ==>
        && repository.calls == old(repository.calls) + [GetByIdCall(id)]
        && r == FailWith(if lookupFault.Some? then lookupFault.value else ProductNotFound)
      // the merged product is stored; an exception there leaves the row as it was
      ensures |UpdateProductFailures(productToUpdate)| == 0 && lookupFault.None? && id in old(repository.table) ==>
        && repository.calls == old(repository.calls)
             + [GetByIdCall(id), UpdateCall(ApplyUpdate(old(repository.table)[id], productToUpdate))]
        && (updateFault.Some? ==> r == FailWith(updateFault.value))
        && (updateFault.None? ==> r.Ok?)
      ensures r.Ok? ==>
        && fresh(r.value)
        && r.value.Row() == ApplyUpdate(old(repository.table)[id], productToUpdate)
        && repository.table == old(repository.table)[id := r.value.Row()]
        && cache.entries == old(cache.entries)[CacheKey(id) := r.value]
        && cache.calls == old(cache.calls) + [SetCall(CacheKey(id), r.value, DefaultExpirationInMinutes)]
      ensures r.Fail? ==>
        repository.table == old(repository.table) && cache.entries == old(cache.entries) && cache.calls == old(cache.calls)
    {
      var validationResult := ValidationResult(UpdateProductFailures(productToUpdate));
      if !validationResult.IsValid() {
        var grouped := GetFluentErrors(validationResult);
        return Fail(grouped.errors);
      }
      var found := repository.GetById(id, lookupFault);
      if found.Threw? {
        return FailWith(found.message);
      }
      if found.value.None? {
        return FailWith(ProductNotFound);
      }
      UpdatedRowWithinLimits(repository.table[id], productToUpdate);
      r := SaveMerged(id, found.value.value, productToUpdate, updateFault);
    }

    /** The second half of `Update`, on the product the lookup returned: merge the
        request into it, store it, and cache it under the id asked for. */
    method SaveMerged(id: int, product: Product, productToUpdate: UpdateProductDto, updateFault: Option<string>)
      returns (r: Result<Product>)
      requires Valid()
      requires id in repository.table && product.Row() == repository.table[id]
      requires WithinLimits(ApplyUpdate(repository.table[id], productToUpdate))
      requires product !in cache.entries.Values
      modifies repository, cache, product
      ensures Valid()
      ensures repository.calls == old(repository.calls) + [UpdateCall(ApplyUpdate(old(repository.table)[id], productToUpdate))]
      ensures updateFault.Some? ==>
        && r == FailWith(updateFault.value) && repository.table == old(repository.table)
        && cache.entries == old(cache.entries) && cache.calls == old(cache.calls)
      ensures updateFault.None? ==>
        && r == Ok(product)
        && product.Row() == ApplyUpdate(old(repository.table)[id], productToUpdate)
        && repository.table == old(repository.table)[id := product.Row()]
        && cache.entries == old(cache.entries)[CacheKey(id) := product]
        && cache.calls == old(cache.calls) + [SetCall(CacheKey(id), product, DefaultExpirationInMinutes)]
    {
      var updated := StoreMerged(id, product, productToUpdate, updateFault);
      if updated.Threw? {
        return FailWith(updated.message);
      }
      var updatedProduct := updated.value;
      MirrorsAfterPut(old(repository.table), cache.entries, id, updatedProduct);
      var _ := cache.Set(CacheKey(id), updatedProduct);
      r := Ok(updatedProduct);
    }

    /** The store step of `SaveMerged`: the merged product is written over the row with
        its id. */
    method StoreMerged(id: int, product: Product, productToUpdate: UpdateProductDto, updateFault: Option<string>)
      returns (r: Attempt<Product>)
      requires Valid()
      requires id in repository.table && product.Row() == repository.table[id]
      requires WithinLimits(ApplyUpdate(repository.table[id], productToUpdate))
      requires product !in cache.entries.Values
      modifies repository, product
      ensures StoreValid() && CacheMirrors(old(repository.table), cache.entries)
      ensures repository.calls == old(repository.calls) + [UpdateCall(ApplyUpdate(old(repository.table)[id], productToUpdate))]
      ensures product.Row() == ApplyUpdate(old(repository.table)[id], productToUpdate)
      ensures updateFault.Some? ==> r == Threw(updateFault.value) && repository.table == old(repository.table)
      ensures updateFault.None? ==> r == Returned(product) && repository.table == old(repository.table)[id := product.Row()]
    {
      ghost var table, entries := repository.table, cache.entries;
      Merge(product, productToUpdate);
      assert CacheMirrors(table, entries);
      r := repository.Update(product, updateFault);
      if r.Returned? {
        LimitsAfterPut(table, id, product.Row());
      }
    }

    /** `Delete`: decides from the store whether the product exists, deletes it, and
        evicts its cache entry and no other. */
    method Delete(id: int, lookupFault: Option<string>, deleteFault: Option<string>) returns (r: Result<()>)
      requires Valid()
      modifies repository, cache
      ensures Valid()
      ensures lookupFault.Some? || id !in old(repository.table) ==>
        && repository.calls == old(repository.calls) + [GetByIdCall(id)]
        && r == FailWith(if lookupFault.Some? then lookupFault.value else ProductNotFound)
      ensures lookupFault.None? && id in old(repository.table) ==>
        && repository.calls == old(repository.calls) + [GetByIdCall(id), DeleteCall(id)]
        && (deleteFault.Some? ==> r == FailWith(deleteFault.value))
        && (deleteFault.None? ==> r == Ok(()))
      ensures r.Ok? ==>
        && repository.table == old(repository.table) - {id}
        && cache.entries == old(cache.entries) - {CacheKey(id)}
        && cache.calls == old(cache.calls) + [RemoveCall(CacheKey(id))]
      ensures r.Fail? ==>
        repository.table == old(repository.table) && cache.entries == old(cache.entries) && cache.calls == old(cache.calls)
    {
      var stored := IsStored(id, lookupFault);
      if stored.Threw? || !stored.value {
        return FailWith(if stored.Threw? then stored.message else ProductNotFound);
      }
      r := RemoveStored(id, deleteFault);
    }

    /** The first half of `Delete`: asks the store for the product and reports whether
        it is there, or the exception the lookup raised. */
    method IsStored(id: int, fault: Option<string>) returns (r: Attempt<bool>)
      requires Valid()
      modifies repository`calls
      ensures Valid()
      ensures repository.table == old(repository.table)
      ensures repository.calls == old(repository.calls) + [GetByIdCall(id)]
      ensures fault.Some? ==> r == Threw(fault.value)
      ensures fault.None? ==> r == Returned(id in repository.table)
    {
      ghost var table, entries := repository.table, cache.entries;
      var found := repository.GetById(id, fault);
      assert repository.table == table && cache.entries == entries;
      r := if found.Threw? then Threw(found.message) else Returned(found.value.Some?);
    }

    /** The second half of `Delete`, once the store has the product: delete it and
        evict its cache entry. */
    method RemoveStored(id: int, deleteFault: Option<string>) returns (r: Result<()>)
      requires Valid() && id in repository.table
      modifies repository, cache
      ensures Valid()
      ensures repository.calls == old(repository.calls) + [DeleteCall(id)]
      ensures deleteFault.Some? ==>
        && r == FailWith(deleteFault.value) && repository.table == old(repository.table)
        && cache.entries == old(cache.entries) && cache.calls == old(cache.calls)
      ensures deleteFault.None? ==>
        && r == Ok(())
        && repository.table == old(repository.table) - {id}
        && cache.entries == old(cache.entries) - {CacheKey(id)}
        && cache.calls == old(cache.calls) + [RemoveCall(CacheKey(id))]
    {
      ghost var table, entries := repository.table, cache.entries;
      var deleted := repository.Delete(id, deleteFault);
      if deleted.Threw? {
        return FailWith(deleted.message);
      }
      assert CacheMirrors(table, entries);
      MirrorsAfterRemove(table, entries, id);
      cache.Remove(CacheKey(id));
      r := Ok(());
    }

    /** `GetById`: the cached product when there is one, with no store call; otherwise
        the stored product, which is not cached. Either way it holds the stored row. */
    method GetById(id: int, fault: Option<string>) returns (r: Result<Product>)
      requires Valid()
      modifies repository`calls, cache`calls
      ensures Valid()
      ensures repository.table == old(repository.table) && cache.entries == old(cache.entries)
      ensures cache.calls == old(cache.calls) + [GetCall(CacheKey(id))]
      ensures CacheKey(id) in cache.entries ==>
        r == Ok(cache.entries[CacheKey(id)]) && repository.calls == old(repository.calls)
      ensures CacheKey(id) !in cache.entries ==>
        && repository.calls == old(repository.calls) + [GetByIdCall(id)]
        && (fault.Some? ==> r == FailWith(fault.value))
        && (fault.None? && id !in repository.table ==> r == FailWith(ProductNotFound))
        && (r.Ok? ==> fresh(r.value))
      ensures fault.None? ==> (r.Ok? <==> id in repository.table)
      ensures r.Ok? ==> id in repository.table && r.value.Row() == repository.table[id]
    {
      var productFromCache := cache.Get(CacheKey(id));
      if productFromCache.Some? {
        return Ok(productFromCache.value);
      }
      var found := repository.GetById(id, fault);
      if found.Threw? {
        return FailWith(found.message);
      }
      if found.value.None? {
        return FailWith(ProductNotFound);
      }
      r := Ok(found.value.value);
    }

    /** `FindAll`: validates, defaults the sort property to "Id", and returns the page
        the repository's query selects; the cache is neither read nor written. */
    method FindAll(options: FindProductsDto, fault: Option<string>) returns (r: Result<seq<Product>>)
      requires Valid()
      modifies repository`calls
      ensures Valid()
      ensures repository.table == old(repository.table)
      ensures cache.entries == old(cache.entries) && cache.calls == old(cache.calls)
      ensures |FindFailures(findValidator, options)| > 0 ==>
        r == Fail(FluentErrors(FindFailures(findValidator, options))) && repository.calls == old(repository.calls)
      ensures |FindFailures(findValidator, options)| == 0 ==>
        var query := QueryAsWritten(repository.Scan(), DefaultOrder(options));
        && repository.calls == old(repository.calls) + [FindAllCall(DefaultOrder(options))]
        && (fault.Some? ==> r == FailWith(fault.value))
        && (fault.None? && query.Threw? ==> r == FailWith(query.message))
        && (fault.None? && query.Returned? ==> r.Ok? && RowsOf(r.value) == query.value)
      // with the allow-list validator a validated request fails in the query only when
      // the offset overflows an `int`
      ensures
        (&& findValidator == AllowList && |FindFailures(findValidator, options)| == 0 && fault.None?
         && options.pagination.Some? && Offset(options.pagination.value) <= Int32Max)
        ==> r.Ok?
    {
      var validationResult := ValidationResult(FindFailures(findValidator, options));
      if !validationResult.IsValid() {
        var grouped := GetFluentErrors(validationResult);
        return Fail(grouped.errors);
      }
      var defaulted := DefaultOrder(options);
      if findValidator == AllowList {
        AllowListedQueryReturns(repository.Scan(), options);
      }
      var products := repository.FindAll(defaulted, fault);
      if products.Threw? {
        return FailWith(products.message);
      }
      r := Ok(products.value);
    }
  }
}
