# Product catalogue: request layer in Dafny

This project models the request-fulfilment layer of a small product catalogue API:

- `ProductService`, with Create, Update, Delete, GetById and FindAll, over a product store and a key/value cache;
- the FluentValidation rule sets for the three request DTOs;
- `GetFluentErrors`, which groups validation failures into one error per property;
- the repository and its `FindAll` query: name filter, sort by a named property, then `Skip((PageNumber - 1) * PageSize).Take(PageSize)`;
- `CacheService`.

The files:

| file | module | what it holds |
|---|---|---|
| `wrappers.dfy` | `Wrappers` | `Option`; `Attempt` (a call that returns or throws with a message); `Result` and `Error`, standing for FluentResults' result and error |
| `text.dfy` | `Text` | whitespace, decimal rendering of ids, ASCII case folding, substring search, ordinal string order |
| `domain.dfy` | `Domain` | the `Product` class (updated in place by Update), its row value, the DTOs, .NET `int` as `int32` |
| `validators.dfy` | `Validators` | the create, update and both find validators as functions from a DTO to its failures, in rule order |
| `grouping.dfy` | `ValidationResultExtensions` | a reference definition of the grouped errors; the one-pass `GroupBy`; the `GetFluentErrors` loop |
| `query.dfy` | `ProductQuery` | the `FindAll` pipeline as a function over the rows of the table, with the page offset in wrapping 32-bit arithmetic as written (`QueryAsWritten`, which the repository runs) or computed exactly (`Query`, the corrected query) |
| `repository.dfy` | `Repository` | `ProductRepository`: a table of rows, the order a scan visits them, and the identity sequence for new ids |
| `cache.dfy` | `Caching` | `CacheService` over a map, and the cache scenarios |
| `service.dfy` | `Services` | `ProductService` and the invariant it keeps |

How the model is set up:

- **Store exceptions.** Every store call takes a `fault: Option<string>` argument. `Some(m)` makes that call throw with message `m`; the store's own failures (a duplicate key, an update of a row that is gone, a negative OFFSET) are modelled where they arise. A thrown call becomes `Fail([Error(m, [])])`, as `Result.Fail(ex.Message)` builds it.
- **Call logs.** The repository and the cache each keep a ghost log of the calls made on them. The contracts use these logs to say what the unit tests check with their mocks: no store call on a cache hit, no cache write after a throw, exactly one `Remove` of exactly one key.
- **Service invariant.** `ProductService.Valid()` says four things:
  - every stored row sits under its own non-zero id;
  - every row is within the validators' bounds;
  - every id the identity sequence will hand out is still free;
  - every cache entry holds a product whose fields are those of the stored row with that id.

  Every operation keeps `Valid()`.

## Model

| member | source | states |
|---|---|---|
| Wrappers.FailWith | Service/Services/ProductService.cs:55-59 | `Result.Fail(ex.Message)`: a failure carrying exactly one error, with the exception's message and no reasons |
| Domain.Product.constructor | Domain/Models/Product.cs:20-26 | a new product holds the four given values and Id 0: there is no constructor that takes an id |
| Domain.PropertyNamesAreTheProperties | Domain/Models/Product.cs:9-17 | the sort allow-list is exactly the names of Product's five properties, and no two properties share a name |
| Validators.RequiredTextRules | Service/Validations/CreateProductDtoValidator.cs:16-22 | on a required text field, the "is required" failure appears iff the text is empty or whitespace, and the "less than or equal to" failure iff it exceeds the bound (a text exactly at the bound passes); each failure is tagged with the field, and its message starts with the field's name |
| Validators.RequiredNumberRules | Service/Validations/CreateProductDtoValidator.cs:24-30 | on a numeric field, "is required" appears iff the value is zero and "greater than or equal to 0" iff it is negative |
| Validators.CreateProductFailures | Service/Validations/CreateProductDtoValidator.cs:14-31 | a create request is valid iff name and description are non-blank and at most 100 and 500 characters long, and quantity and price are strictly positive; every failure is tagged with one of the four fields, and its message starts with that field's name |
| Validators.CreateProductTextRules | Service/Validations/CreateProductDtoValidator.cs:16-22 | each of the four name and description messages appears iff its own condition holds |
| Validators.CreateProductNumberRules | Service/Validations/CreateProductDtoValidator.cs:24-30 | a zero quantity or price gives "… is required"; a negative one gives "… must be greater than or equal to 0" |
| Validators.UpdateProductFailures | Service/Validations/UpdateProductDtoValidator.cs:16-26 | each of the four messages appears iff its field is non-null and out of bounds, and no other failure is produced; the request is valid iff every supplied field is within bounds |
| Validators.UpdateProductEdgeCases | Service/Validations/UpdateProductDtoValidator.cs:16-26 | a request with every field null is valid, and so is one with "" for name and description and 0 for quantity and price |
| Validators.PaginationFailures | Service/Validations/FindProductsDtoValidator.cs:23-31 | a null Pagination gives "Pagination is required"; on a present one, each page rule's message appears iff its bound fails, and the result is empty iff PageNumber >= 1 and 1 <= PageSize <= 200 |
| Validators.FindProductsFailures | Service/Validations/FindProductsDtoValidator.cs:17-39 | allow-list variant: each message appears iff its condition holds (NameToFind over 100; a non-null sort name outside the allow-list; the page rules); valid iff none does |
| Validators.FindProductsFailuresLengthOnly | Service/Services/Validations/FindProductsDtoValidator.cs:10-24 | length-only variant: the same, except that the sort name is only refused when it is over 100 characters |
| Validators.FindValidatorsOnSortProperty | Service/Validations/FindProductsDtoValidator.cs:20-21 | "InvalidProperty" and "" are refused by the allow-list and accepted by the length check; null and every real property name are accepted; "name" is refused, because the comparison is case-sensitive |
| Validators.AllowListIsStricter | Service/Validations/FindProductsDtoValidator.cs:17-31 | whatever the allow-list variant accepts, the length-only variant accepts |
| ValidationResultExtensions.GroupByProperty | Service/Extensions/ValidationResultExtensions.cs:21-26 | the `GroupBy`/`ToDictionary` pass: the failures folded one at a time into groups keyed by property; what it yields is stated by `GroupByPropertyIsReference` |
| ValidationResultExtensions.FieldError | Service/Extensions/ValidationResultExtensions.cs:33 | one property's error: the message "Invalid field: <property>", caused by that property's messages |
| ValidationResultExtensions.FluentErrors | Service/Extensions/ValidationResultExtensions.cs:30-35 | one error per distinct failing property, in first-occurrence order: exactly as many errors as failing properties |
| ValidationResultExtensions.DistinctProperties | Service/Extensions/ValidationResultExtensions.cs:21-26 | reference definition: every failing property appears, only failing properties appear, and each appears once |
| ValidationResultExtensions.AddToGroupsKeys | Service/Extensions/ValidationResultExtensions.cs:21-26 | grouping one more failure opens a new group, at the end, exactly when its property has none yet |
| ValidationResultExtensions.AddToGroupsMessages | Service/Extensions/ValidationResultExtensions.cs:21-26 | grouping one more failure appends its message to its own property's group and to no other |
| ValidationResultExtensions.GroupByPropertyIsReference | Service/Extensions/ValidationResultExtensions.cs:21-26 | the one-pass GroupBy/ToDictionary gives one group per failing property, in first-occurrence order, holding that property's messages in their original order |
| ValidationResultExtensions.GroupingKeepsEveryMessage | Service/Extensions/ValidationResultExtensions.cs:21-26 | the groups hold as many messages as there were failures |
| ValidationResultExtensions.FluentErrorsPartition | Service/Extensions/ValidationResultExtensions.cs:21-35 | the errors carry, between them, exactly as many reasons as there were failures: the grouping partitions them |
| ValidationResultExtensions.FluentErrorsCoverFailures | Service/Extensions/ValidationResultExtensions.cs:30-35 | every failing property has an error "Invalid field: <property>" whose reasons are that property's messages |
| ValidationResultExtensions.FluentErrorsFromFailures | Service/Extensions/ValidationResultExtensions.cs:30-35 | every error is about a property that failed, and carries that property's messages |
| ValidationResultExtensions.FluentErrorsDistinct | Service/Extensions/ValidationResultExtensions.cs:30-35 | no two errors have the same message: one error per property |
| ValidationResultExtensions.GetFluentErrors | Service/Extensions/ValidationResultExtensions.cs:16-38 | a valid result gives Ok; an invalid one gives Fail with the errors of the reference grouping, in order |
| ProductQuery.ApplyNameFilter | Infrastructure/Repositories/ProductRepository.cs:49-52 | a null or empty NameToFind leaves the rows as they are; otherwise the result is the rows whose name contains it ignoring case, and never more rows than there were |
| ProductQuery.FilterByName | Infrastructure/Repositories/ProductRepository.cs:49-52 | the filtered rows are the rows whose name contains the fragment, ignoring case, and no more rows than there were |
| ProductQuery.ResolveProperty | Infrastructure/Repositories/ProductRepository.cs:54-57 | a sort name resolves to a property whose name equals it ignoring case, and fails to resolve iff no property's name does |
| ProductQuery.ResolvePropertyName | Infrastructure/Repositories/ProductRepository.cs:54-57 | each property's own name resolves to that property |
| ProductQuery.FieldLeTotal | Infrastructure/Repositories/ProductRepository.cs:54-57 | any two rows are ordered one way or the other on every property |
| ProductQuery.FieldLeTransitive | Infrastructure/Repositories/ProductRepository.cs:54-57 | the order on every property is transitive |
| ProductQuery.SortBy | Infrastructure/Repositories/ProductRepository.cs:54-57 | sorting gives an ascending permutation of the rows |
| ProductQuery.SortedByPairwise | Infrastructure/Repositories/ProductRepository.cs:54-57 | in an ascending sequence any earlier row is at most any later one |
| ProductQuery.ApplyOrder | Infrastructure/Repositories/ProductRepository.cs:54-57 | a null or empty sort name returns the rows untouched; otherwise ordering gives a permutation of the rows; it throws iff the sort name is non-empty and names no property; with a name given the result is ascending on that property |
| ProductQuery.Page | Infrastructure/Repositories/ProductRepository.cs:59-60 | the database refuses a negative OFFSET, then a negative LIMIT; otherwise the page is the run of at most LIMIT rows starting at OFFSET, and empty past the end |
| ProductQuery.Wrap32 | Infrastructure/Repositories/ProductRepository.cs:59 | the wrapped value is congruent to the exact one modulo 2^32, and equal to it within the int range |
| ProductQuery.OffsetAsWritten | Infrastructure/Repositories/ProductRepository.cs:59 | the offset as written: `(PageNumber - 1) * PageSize` with each operation wrapped to 32 bits; `OffsetAsWrittenCongruent` and `OffsetAsWrittenWithoutOverflow` state how it relates to the exact offset |
| ProductQuery.OffsetAsWrittenCongruent | Infrastructure/Repositories/ProductRepository.cs:59 | the 32-bit offset differs from the exact offset by a multiple of 2^32 |
| ProductQuery.Offset | Infrastructure/Repositories/ProductRepository.cs:59 | the corrected offset, the exact product: for PageNumber and PageSize at least 1 the offset is not negative, and on page 1 it is 0 |
| ProductQuery.OffsetAsWrittenWithoutOverflow | Infrastructure/Repositories/ProductRepository.cs:59 | where the exact offset fits in an int, the 32-bit offset equals it |
| ProductQuery.QueryWith | Infrastructure/Repositories/ProductRepository.cs:45-63 | the pipeline in source order (filter, sort, dereference of Pagination, Skip/Take), for either offset arithmetic: whatever it returns is at most PageSize rows under a non-null Pagination, and a null Pagination reached after a successful sort throws the null-reference message |
| ProductQuery.Query | Infrastructure/Repositories/ProductRepository.cs:45-63 | the corrected query, with the exact offset; its behaviour is stated by `QueryThrows`, `QueryFilters`, `QuerySorted` and `QueryPage` |
| ProductQuery.QueryAsWritten | Infrastructure/Repositories/ProductRepository.cs:59 | the query as written, with the 32-bit offset; `QueryAsWrittenAgrees` and `OffsetOverflows` say where it agrees with `Query` and where it does not |
| ProductQuery.QueryAsWrittenAgrees | Infrastructure/Repositories/ProductRepository.cs:59 | where the exact offset lies in 0..2147483647 (and PageNumber >= 1), the query as written returns or throws exactly as the corrected one does, so every property of `Query` carries over to it |
| ProductQuery.QueryThrows | Infrastructure/Repositories/ProductRepository.cs:45-63 | the query throws iff the sort name is unknown, Pagination is null, the offset is negative or PageSize is negative; a null Pagination gives the null-reference message |
| ProductQuery.QueryFilters | Infrastructure/Repositories/ProductRepository.cs:49-52 | every returned row is a row of the table; with a non-empty NameToFind its name contains the fragment, ignoring case, at some position of the lower-cased name |
| ProductQuery.QuerySorted | Infrastructure/Repositories/ProductRepository.cs:54-57 | with a non-empty sort name the returned page is ascending on the named property |
| ProductQuery.PageSorted | Infrastructure/Repositories/ProductRepository.cs:59-60 | a page of an ascending sequence is ascending |
| ProductQuery.QueryPage | Infrastructure/Repositories/ProductRepository.cs:59-62 | the result is the contiguous run of the filtered, ordered rows starting at (PageNumber - 1) * PageSize; it holds at most PageSize rows and exactly min(remaining, PageSize); past the end it is empty |
| ProductQuery.OverflowPageOffsets | Infrastructure/Repositories/ProductRepository.cs:59 | in 32-bit arithmetic PageNumber 2147483647 with PageSize 200 gives offset -400 where the exact offset is 429496729200, and PageNumber 33554433 with PageSize 128 gives 0 where the exact offset is 2^32 |
| ProductQuery.OffsetOverflows | Infrastructure/Repositories/ProductRepository.cs:59 | as written, PageNumber 2147483647 with PageSize 200 wraps to offset -400 and the query throws, and PageNumber 33554433 with PageSize 128 wraps to 0 and returns the first page; the exact offset gives an empty page in both cases |
| Repository.Without | Infrastructure/Repositories/ProductRepository.cs:34-42 | removing an id from the scan order keeps every other id, in order, and is a no-op on an absent id |
| Repository.Materialize | Infrastructure/Repositories/ProductRepository.cs:66-69 | a new object holding exactly the given row, id included |
| Repository.MaterializeAll | Infrastructure/Repositories/ProductRepository.cs:62 | `ToListAsync` returns distinct new objects holding the selected rows, in order |
| Repository.ProductRepository.constructor | Infrastructure/Repositories/ProductRepository.cs:19-22 | a repository over an empty table, with no calls made yet, satisfies the table invariant |
| Repository.ProductRepository.Scan | Infrastructure/Repositories/ProductRepository.cs:47 | a scan of the table visits every stored row, and only those |
| Repository.ProductRepository.Insert | Infrastructure/Repositories/ProductRepository.cs:27-28 | an Id of 0 takes the next identity value, which is consumed even when the insert fails; an id already in the table makes the save throw and changes nothing; otherwise the row is stored and the same object is returned with its id set |
| Repository.ProductRepository.Create | Infrastructure/Repositories/ProductRepository.cs:25-31 | an injected fault throws and writes nothing; otherwise as Insert, returning the object it was given |
| Repository.ProductRepository.Update | Infrastructure/Repositories/ProductRepository.cs:72-78 | overwrites the row with the product's id and returns the same object; a row that is gone makes the save throw; a product with Id 0 is inserted as new |
| Repository.ProductRepository.Delete | Infrastructure/Repositories/ProductRepository.cs:34-42 | removes exactly the row with the id; an absent id is a no-op |
| Repository.ProductRepository.GetById | Infrastructure/Repositories/ProductRepository.cs:66-69 | a new object holding the stored row, or None iff there is no row with the id |
| Repository.ProductRepository.FindAll | Infrastructure/Repositories/ProductRepository.cs:45-63 | new objects holding exactly the rows that the query as written (`QueryAsWritten`, with the 32-bit offset) selects from a scan of the table, or that query's exception |
| Caching.CacheService.constructor | Service/Services/CacheService.cs:17-20 | a cache service over an empty memory cache: no entries and no calls made yet |
| Caching.CacheService.Get | Service/Services/CacheService.cs:23-26 | the stored value when the key is present, otherwise None (the default); nothing changes |
| Caching.CacheService.Set | Service/Services/CacheService.cs:29-37 | stores the value under the key, replacing any old value; a non-positive expiration throws and stores nothing |
| Caching.CacheService.Remove | Service/Services/CacheService.cs:40-43 | removes the key, if present, and no other |
| Caching.SetThenGet | Service/Services/CacheService.cs:23-37 | Get after Set with the default expiration returns the value set |
| Caching.GetMissing | Service/Services/CacheService.cs:23-26 | Get of a key never set returns None |
| Caching.RemoveThenGet | Service/Services/CacheService.cs:23-43 | Get after Remove returns None; removing a key never set does not fail |
| Caching.SetOverwrites | Service/Services/CacheService.cs:29-37 | a second Set replaces the first value and leaves other keys alone |
| Services.CacheKey | Service/Services/ProductService.cs:37 | every cache key begins with "Product_" |
| Services.CacheKeyInjective | Service/Services/ProductService.cs:37 | different ids have different cache keys |
| Services.ApplyUpdate | Service/Services/ProductService.cs:76-80 | the merge of an update request into a row; its meaning is stated by `ApplyUpdateFields` and `ApplyUpdateIdentityAndIdempotent` |
| Services.ApplyUpdateFields | Service/Services/ProductService.cs:76-80 | the merge keeps the id, takes every field the request supplies (an empty name included) and keeps every field the request leaves null |
| Services.ApplyUpdateIdentityAndIdempotent | Service/Services/ProductService.cs:76-80 | an all-null request changes nothing, and merging a request twice equals merging it once |
| Services.CreatedRowWithinLimits | Service/Services/ProductService.cs:44-48 | a product built from a request the create rules accept satisfies `WithinLimits`, the bounds the create validator enforces (name and description at most 100 and 500 characters, quantity and price not negative); the create rules ask more, and the table itself checks none of it |
| Services.UpdatedRowWithinLimits | Service/Services/ProductService.cs:67-80 | merging a request the update rules accept into a row that satisfies `WithinLimits` gives a row that still satisfies it: the validators' bounds, not constraints of the table |
| Services.DefaultOrder | Service/Services/ProductService.cs:145 | a null sort property becomes "Id"; everything else is passed on unchanged |
| Services.AllowListedQueryReturns | Service/Services/ProductService.cs:141-147 | options the allow-list variant accepts never make the corrected query throw, and never make the query as written throw when the exact offset fits in an int |
| Services.AllowListedQueryMayOverflow | Infrastructure/Repositories/ProductRepository.cs:59 | PageNumber 2147483647 with PageSize 200 passes the allow-list validator, and the query as written then throws on the negative offset |
| Services.LengthOnlyQueryMayThrow | Service/Services/ProductService.cs:141-147 | with the length-only variant, a sort name of "InvalidProperty" passes validation and the query as written then throws |
| Services.Merge | Service/Services/ProductService.cs:76-80 | the in-place merge leaves the product holding the merged row |
| Services.MirrorsAfterPut | Service/Services/ProductService.cs:50-51 | storing a product and caching it under its id's key keeps the cache a mirror of the store |
| Services.MirrorsAfterRemove | Service/Services/ProductService.cs:102-103 | deleting a row and evicting its key keeps the cache a mirror of the store |
| Services.ProductService.constructor | Service/Services/ProductService.cs:22-36 | a service over an empty store and an empty cache satisfies the invariant |
| Services.ProductService.Create | Service/Services/ProductService.cs:40-60 | an invalid request returns the grouped failures and touches neither store nor cache; a valid one reaches the store once with Id 0 and the request's values; a store exception becomes Fail with its message and nothing is written; otherwise the result is a new product under a fresh id, stored and cached under "Product_<id>" with 100 minutes' expiration |
| Services.ProductService.SaveNew | Service/Services/ProductService.cs:48-53 | the store-then-cache step of Create: a fault writes nothing; otherwise the new product is stored under a fresh id, cached under its key and returned |
| Services.ProductService.StoreNew | Service/Services/ProductService.cs:48-50 | the new product, built with the request's values, is stored under an id not yet in the table; a fault changes nothing |
| Services.ProductService.Update | Service/Services/ProductService.cs:63-92 | validation comes before the lookup; a lookup exception or a missing id gives Fail with no store write and no cache write; otherwise the merged row is stored, the product is cached under the id argument and returned; a store exception writes nothing |
| Services.ProductService.SaveMerged | Service/Services/ProductService.cs:76-85 | the merge, store and cache step of Update: a fault writes neither store nor cache; otherwise the merged product is stored, cached under the id's key and returned |
| Services.ProductService.StoreMerged | Service/Services/ProductService.cs:76-82 | the product is merged in place and written over its row; a fault leaves the table as it was |
| Services.ProductService.Delete | Service/Services/ProductService.cs:95-111 | existence is decided by the store, not the cache; a missing id gives "Product not found" with no Remove; success removes exactly that row and exactly the key "Product_<id>"; an exception writes nothing |
| Services.ProductService.IsStored | Service/Services/ProductService.cs:99 | asks the store once; returns whether the id is stored, or the lookup's exception; the table is unchanged and the service invariant holds |
| Services.ProductService.RemoveStored | Service/Services/ProductService.cs:102-104 | the row is deleted and its key evicted; a fault changes neither store nor cache |
| Services.ProductService.GetById | Service/Services/ProductService.cs:114-134 | a cache hit returns the cached product with no store call; a miss asks the store: no row gives "Product not found", a row gives it as a new object and writes no cache entry; with no fault the result is Ok iff the id is stored, and an Ok product holds the stored row |
| Services.ProductService.FindAll | Service/Services/ProductService.cs:137-155 | invalid options fail without a store call; otherwise the store is queried once with a null sort property set to "Id", and the result holds exactly the rows of the query as written or its exception; the cache is neither read nor written; with the allow-list validator a valid request without a store fault succeeds whenever the exact offset fits in an int |

## Where the code and its tests disagree

The model follows the code in each case:

- **GetById does not cache.** After a store hit, GetById returns without writing the cache (Service/Services/ProductService.cs:122-127). The test at Test.Unit/Service.Test/ProductServiceTest.cs:457 expects a `Set`. `Services.ProductService.GetById` states that no entry is written.
- **A zero quantity or price is rejected.** FluentValidation's `NotEmpty` treats a number's default value, 0, as empty (Service/Validations/CreateProductDtoValidator.cs:25, :29). The test at Test.Unit/Service.Test/ProductServiceTest.cs:60-67 expects success. `Validators.CreateProductNumberRules` states what the rules do.
- **The allow-list rule has no message of its own.** The `Must` rule (Service/Validations/FindProductsDtoValidator.cs:20-21) produces FluentValidation's default message, "The specified condition was not met for 'Property To Order By'.", not the "should be one of those options" text the test at Test.Unit/Service.Test/ProductServiceTest.cs:578 expects.
- **Two validator classes share one name.** Both files declare `Service.Services.Validations.FindProductsDtoValidator`. The model keeps both, as `FindProductsFailures` and `FindProductsFailuresLengthOnly`. The service is given one of them through `FindValidator`.
- **Product has no id-taking constructor.** The tests build `new Product(1, …)`, which the class does not declare. The model's only constructor is the four-argument one, with Id 0.
- **Update accepts an empty name.** The update rules have no "required" rule, so "" passes and overwrites the stored name (`Validators.UpdateProductEdgeCases`, `Services.ApplyUpdateFields`).
- **A null Pagination throws instead of failing validation.** The rules on `Pagination.PageNumber` and `Pagination.PageSize` (Service/Validations/FindProductsDtoValidator.cs:26-31) read through the null Pagination, so `Validate` throws a NullReferenceException and FindAll returns `Fail("Object reference not set to an instance of an object.")` (Service/Services/ProductService.cs:150-153). The test at Test.Unit/Service.Test/ProductServiceTest.cs:582-596 expects the error "Invalid field: Pagination" with the reason "Pagination is required". The validator functions produce that reason and skip the page rules on a null Pagination; see the `## Left out` lines for them.
- **FindProductsDto has no usable default constructor.** Its parameterless constructor calls `new PaginationDto()`, which `PaginationDto` does not declare (Infrastructure/Dtos/FindProductsDto.cs:16-18). The model lets Pagination be absent, which is the case the "Pagination is required" rule is there for.

## Left out

- Async/`Task` plumbing and logging: each operation is one sequential method, and log calls are dropped.
- Cache expiry: there is no clock. The expiration argument is recorded in the cache's call log and checked to be positive, as the entry options check it; entries never expire.
- PostgreSQL `ILike`: modelled as substring search after ASCII lower-casing. Unicode case folding, collations, and the unescaped `%`, `_` and `\` wildcards in NameToFind are not modelled.
- Dynamic LINQ: `OrderBy` resolves a bare member name ignoring case; an unknown name throws. Expressions such as "Price desc" or "Name, Id" are not parsed. Text is ordered ordinally, by code unit, not by database collation.
- The order of an unsorted table scan: the model visits rows in insertion order. The database promises no order, and every query lemma holds for any scan order.
- String lengths are counted in `char`s. UTF-16 surrogate pairs are not distinguished.
- Ids are unbounded integers. The overflow of the 32-bit identity column is not modelled. Quantity is an unbounded integer, not a 64-bit `long`, and price is an exact real, without `decimal`'s 28-digit range.
- Validators.PaginationFailures: on a null Pagination it yields only "Pagination is required". The validator goes on to read `Pagination.PageNumber` and throws a NullReferenceException; the page rules are evaluated only on a non-null Pagination.
- Validators.FindProductsFailures: as PaginationFailures; on a null Pagination the real validator throws, and FindAll returns `Fail("Object reference not set to an instance of an object.")`, not the grouped "Pagination is required" error.
- Validators.FindProductsFailuresLengthOnly: as FindProductsFailures; the throw on a null Pagination is not modelled.
- Services.ProductService.FindAll: on a null Pagination it returns the validation failure "Pagination is required" where the code returns the NullReferenceException's message.
- Services.ProductService.FindAll: `??=` assigns to the caller's DTO; the model passes a defaulted copy to the store, so the caller does not see the change.
- EF's identity map: each GetById and FindAll returns new objects rather than an object tracked from an earlier call in the same scope.
- Exception messages other than those the store's own checks produce come from the `fault` argument. They are opaque strings, not .NET's exact texts.
- Fault ordering: an injected store fault is raised at the start of the call, before the store's own errors (a duplicate key, a missing row, a negative OFFSET) can arise.
- Concurrency between requests, HTTP controllers, error DTO shaping, dependency wiring, migrations and the database mapping: outside this layer.

## Findings

| source | as written | input that shows it | evidently intended | confidence | as-written member | corrected member |
|---|---|---|---|---|---|---|
| Infrastructure/Repositories/ProductRepository.cs:59 | `(PageNumber - 1) * PageSize` is computed in 32-bit `int` and wraps; the validators bound PageSize to 200 but leave PageNumber unbounded above | PageNumber = 2147483647, PageSize = 200 gives skip -400, and the database refuses the query; PageNumber = 33554433, PageSize = 128 gives skip 0, so the first page comes back | a page past the end is empty (the offset computed exactly, as 64-bit arithmetic gives; `ProductQuery.QueryPage`); `ProductQuery.QueryAsWrittenAgrees` shows the code already behaves so wherever the exact offset fits in an int | not executed | ProductQuery.OffsetOverflows | ProductQuery.Query |
