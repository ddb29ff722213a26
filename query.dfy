/** The repository's `FindAll` query: filter by name fragment, order by a named
    property, skip `(PageNumber - 1) * PageSize` rows and take `PageSize`, as the
    database evaluates it over the rows of the products table. */
module ProductQuery {
  import opened Wrappers
  import opened Text
  import opened Domain

  // ----- the name filter: `ILike(p.Name, "%" + NameToFind + "%")` -----

  /** The row's name contains the fragment, ignoring case. */
  predicate NameMatches(row: ProductRow, fragment: string) {
    Contains(Lower(row.name), Lower(fragment))
  }

  /** The rows whose name contains `fragment`, in their original order. */
  function FilterByName(rows: seq<ProductRow>, fragment: string): (r: seq<ProductRow>)
    ensures |r| <= |rows|
    ensures forall x :: x in r <==> x in rows && NameMatches(x, fragment)
  {
    if rows == [] then []
    else (if NameMatches(rows[0], fragment) then [rows[0]] else []) + FilterByName(rows[1..], fragment)
  }

  /** A null or empty `NameToFind` leaves the rows unfiltered; any other keeps the rows
      whose name contains it. */
  function ApplyNameFilter(rows: seq<ProductRow>, nameToFind: Option<string>): (r: seq<ProductRow>)
    ensures nameToFind.None? || nameToFind.value == "" ==> r == rows
    ensures |r| <= |rows|
    ensures forall x :: x in r <==>
      x in rows && (nameToFind.None? || nameToFind.value == "" || NameMatches(x, nameToFind.value))
  {
    if nameToFind.None? || nameToFind.value == "" then rows else FilterByName(rows, nameToFind.value)
  }

  // ----- the ordering: Dynamic LINQ `OrderBy(PropertyToOrderBy)`, ascending -----

  /** The Product member a sort name denotes; member names are matched ignoring case. */
  function ResolveProperty(name: string): (r: Option<ProductProperty>)
    ensures r.Some? ==> EqualsIgnoreCase(PropertyName(r.value), name)
    ensures r.None? <==> forall p :: !EqualsIgnoreCase(PropertyName(p), name)
  {
    if EqualsIgnoreCase("Id", name) then Some(Id)
    else if EqualsIgnoreCase("Name", name) then Some(Name)
    else if EqualsIgnoreCase("Description", name) then Some(Description)
    else if EqualsIgnoreCase("AvailableQuantity", name) then Some(AvailableQuantity)
    else if EqualsIgnoreCase("Price", name) then Some(Price)
    else None
  }

  /** Each property's own name resolves to it. */
  lemma ResolvePropertyName(p: ProductProperty)
    ensures ResolveProperty(PropertyName(p)) == Some(p)
  {
    assert |Lower("Id")| == 2 && |Lower("Name")| == 4 && |Lower("Description")| == 11;
    assert |Lower("AvailableQuantity")| == 17 && |Lower("Price")| == 5;
  }

  /** Ascending order on one property: numeric for numbers, ordinal for text. */
  predicate FieldLe(p: ProductProperty, a: ProductRow, b: ProductRow) {
    match p
    case Id => a.id <= b.id
    case Name => OrdinalLe(a.name, b.name)
    case Description => OrdinalLe(a.description, b.description)
    case AvailableQuantity => a.availableQuantity <= b.availableQuantity
    case Price => a.price <= b.price
  }

  lemma FieldLeTotal(p: ProductProperty, a: ProductRow, b: ProductRow)
    ensures FieldLe(p, a, b) || FieldLe(p, b, a)
  {
    match p
    case Name => OrdinalLeTotal(a.name, b.name);
    case Description => OrdinalLeTotal(a.description, b.description);
    case _ =>
  }

  lemma FieldLeTransitive(p: ProductProperty, a: ProductRow, b: ProductRow, c: ProductRow)
    requires FieldLe(p, a, b) && FieldLe(p, b, c)
    ensures FieldLe(p, a, c)
  {
    match p
    case Name => OrdinalLeTransitive(a.name, b.name, c.name);
    case Description => OrdinalLeTransitive(a.description, b.description, c.description);
    case _ =>
  }

  /** Each row is at most its successor on property `p`. */
  predicate SortedBy(p: ProductProperty, s: seq<ProductRow>) {
    forall i :: 0 <= i < |s| - 1 ==> FieldLe(p, s[i], s[i + 1])
  }

  /** Inserts `x` into a sorted sequence before the first row it does not exceed. */
  function InsertBy(p: ProductProperty, x: ProductRow, s: seq<ProductRow>): (r: seq<ProductRow>)
    requires SortedBy(p, s)
    ensures SortedBy(p, r)
    ensures multiset(r) == multiset(s) + multiset{x}
    ensures |r| == |s| + 1 && (r[0] == x || (s != [] && r[0] == s[0]))
  {
    if s == [] || FieldLe(p, x, s[0]) then [x] + s
    else
      FieldLeTotal(p, x, s[0]);
      assert s == [s[0]] + s[1..];
      [s[0]] + InsertBy(p, x, s[1..])
  }

  /** The rows in ascending order of property `p`: a sorted permutation. */
  function SortBy(p: ProductProperty, rows: seq<ProductRow>): (r: seq<ProductRow>)
    ensures SortedBy(p, r)
    ensures multiset(r) == multiset(rows)
  {
    if rows == [] then []
    else
      assert rows == [rows[0]] + rows[1..];
      InsertBy(p, rows[0], SortBy(p, rows[1..]))
  }

  /** Ascending between successors is ascending between any two positions. */
  lemma {:induction false} SortedByPairwise(p: ProductProperty, s: seq<ProductRow>, i: int, j: int)
    requires SortedBy(p, s) && 0 <= i <= j < |s|
    ensures FieldLe(p, s[i], s[j])
    decreases j - i
  {
    if i == j {
      FieldLeTotal(p, s[i], s[i]);
    } else {
      SortedByPairwise(p, s, i + 1, j);
      FieldLeTransitive(p, s[i], s[i + 1], s[j]);
    }
  }

  /** The message Dynamic LINQ raises for a name that is no member of Product. */
  function UnknownPropertyMessage(name: string): string {
    "No property or field '" + name + "' exists in type 'Product'"
  }

  /** A null or empty sort name leaves the order as it is; any other name is resolved
      and sorts ascending, or raises when it names no property. */
  function ApplyOrder(rows: seq<ProductRow>, propertyToOrderBy: Option<string>): (r: Attempt<seq<ProductRow>>)
    ensures r.Returned? ==> multiset(r.value) == multiset(rows)
    ensures propertyToOrderBy.None? || propertyToOrderBy.value == "" ==> r == Returned(rows)
    ensures r.Threw? <==>
      propertyToOrderBy.Some? && propertyToOrderBy.value != "" && ResolveProperty(propertyToOrderBy.value).None?
    ensures r.Returned? && propertyToOrderBy.Some? && propertyToOrderBy.value != "" ==>
      SortedBy(ResolveProperty(propertyToOrderBy.value).value, r.value)
  {
    if propertyToOrderBy.None? || propertyToOrderBy.value == "" then Returned(rows)
    else match ResolveProperty(propertyToOrderBy.value)
      case None => Threw(UnknownPropertyMessage(propertyToOrderBy.value))
      case Some(p) => Returned(SortBy(p, rows))
  }

  // ----- the page: `Skip(skip).Take(PageSize)`, run as OFFSET / LIMIT -----

  const NegativeOffsetMessage := "2201X: OFFSET must not be negative"
  const NegativeLimitMessage := "2201W: LIMIT must not be negative"
  /** The NullReferenceException of reading `Pagination.PageNumber` on a null Pagination. */
  const NullPaginationMessage := "Object reference not set to an instance of an object."

  /** The rows from position `offset` on, at most `limit` of them; the database refuses
      a negative offset before a negative limit. */
  function Page(s: seq<ProductRow>, offset: int, limit: int): (r: Attempt<seq<ProductRow>>)
    ensures r.Threw? <==> offset < 0 || limit < 0
    ensures offset < 0 ==> r == Threw(NegativeOffsetMessage)
    ensures offset >= 0 && limit < 0 ==> r == Threw(NegativeLimitMessage)
    ensures r.Returned? ==> |r.value| <= limit
    ensures r.Returned? ==> forall i :: 0 <= i < |r.value| ==> offset + i < |s| && r.value[i] == s[offset + i]
    ensures r.Returned? && offset < |s| ==> |r.value| == if |s| - offset < limit then |s| - offset else limit
    ensures r.Returned? && offset >= |s| ==> r.value == []
  {
    if offset < 0 then Threw(NegativeOffsetMessage)
    else if limit < 0 then Threw(NegativeLimitMessage)
    else if offset >= |s| then Returned([])
    else if |s| - offset <= limit then Returned(s[offset..])
    else Returned(s[offset..offset + limit])
  }

  /** .NET's unchecked `int` arithmetic: the value reduced into [-2^31, 2^31). */
  function Wrap32(x: int): (r: int32)
    ensures -0x8000_0000 <= x < 0x8000_0000 ==> r as int == x
    ensures (r as int - x) % 0x1_0000_0000 == 0
  {
    (((x + 0x8000_0000) % 0x1_0000_0000) - 0x8000_0000) as int32
  }

  /** The offset as the source computes it: `(PageNumber - 1) * PageSize` in 32-bit
      arithmetic, each operation wrapping around. */
  function OffsetAsWritten(p: PaginationDto): int32 {
    Wrap32(Wrap32(p.pageNumber as int - 1) as int * p.pageSize as int)
  }

  /** The 32-bit offset differs from the exact one by a multiple of 2^32. */
  lemma OffsetAsWrittenCongruent(p: PaginationDto)
    ensures (OffsetAsWritten(p) as int - Offset(p)) % 0x1_0000_0000 == 0
  {
    var b, c := p.pageNumber as int - 1, p.pageSize as int;
    var a := Wrap32(b) as int;
    CongruentTimes(a, b, c);
    CongruentTrans(OffsetAsWritten(p) as int, a * c, b * c);
  }

  /** Multiplying congruent numbers by the same factor keeps them congruent. */
  lemma CongruentTimes(a: int, b: int, c: int)
    requires (a - b) % 0x1_0000_0000 == 0
    ensures (a * c - b * c) % 0x1_0000_0000 == 0
  {
    var k := (a - b) / 0x1_0000_0000;
    assert a - b == k * 0x1_0000_0000;
    assert a * c - b * c == (k * c) * 0x1_0000_0000;
  }

  lemma CongruentTrans(x: int, y: int, z: int)
    requires (x - y) % 0x1_0000_0000 == 0 && (y - z) % 0x1_0000_0000 == 0
    ensures (x - z) % 0x1_0000_0000 == 0
  {
    var k1, k2 := (x - y) / 0x1_0000_0000, (y - z) / 0x1_0000_0000;
    assert x - z == (k1 + k2) * 0x1_0000_0000;
  }

  /** The offset it is meant to be: the exact product, as 64-bit arithmetic gives for
      any two `int` operands. */
  function Offset(p: PaginationDto): (r: int)
    ensures p.pageNumber >= 1 && p.pageSize >= 1 ==> r >= 0
    ensures p.pageNumber == 1 ==> r == 0
  {
    (p.pageNumber as int - 1) * p.pageSize as int
  }

  /** Where the exact product fits in 32 bits the source's offset is the exact one. */
  lemma OffsetAsWrittenWithoutOverflow(p: PaginationDto)
    requires p.pageNumber >= 1 && 0 <= Offset(p) <= Int32Max
    ensures OffsetAsWritten(p) as int == Offset(p)
  {
  }

  /** Which arithmetic computes the offset: the exact product, or the source's 32-bit one. */
  datatype Arithmetic = Exact | Wrapping32

  function OffsetBy(arithmetic: Arithmetic, p: PaginationDto): int {
    match arithmetic
    case Exact => Offset(p)
    case Wrapping32 => OffsetAsWritten(p) as int
  }

  /** The whole pipeline over `rows`, in evaluation order: the filter, the sort (which
      raises on an unknown property when the query is built), the page arithmetic
      (which dereferences Pagination), then OFFSET/LIMIT. */
  function QueryWith(rows: seq<ProductRow>, options: FindProductsDto, arithmetic: Arithmetic): (r: Attempt<seq<ProductRow>>)
    ensures r.Returned? ==> options.pagination.Some? && |r.value| <= options.pagination.value.pageSize as int
    ensures options.pagination.None? && ApplyOrder(ApplyNameFilter(rows, options.nameToFind), options.propertyToOrderBy).Returned? ==>
      r == Threw(NullPaginationMessage)
  {
    var filtered := ApplyNameFilter(rows, options.nameToFind);
    match ApplyOrder(filtered, options.propertyToOrderBy)
    case Threw(m) => Threw(m)
    case Returned(ordered) =>
      match options.pagination
      case None => Threw(NullPaginationMessage)
      case Some(p) => Page(ordered, OffsetBy(arithmetic, p), p.pageSize as int)
  }

  /** `FindAll` with the offset it is meant to have. */
  function Query(rows: seq<ProductRow>, options: FindProductsDto): Attempt<seq<ProductRow>> {
    QueryWith(rows, options, Exact)
  }

  /** `FindAll` as written, with the 32-bit offset. */
  function QueryAsWritten(rows: seq<ProductRow>, options: FindProductsDto): Attempt<seq<ProductRow>> {
    QueryWith(rows, options, Wrapping32)
  }

  // ----- what a query returns -----

  /** A query raises exactly on an unknown sort name, a null Pagination, a negative
      offset or a negative page size, and in that order. */
  lemma QueryThrows(rows: seq<ProductRow>, options: FindProductsDto)
    ensures Query(rows, options).Threw? <==>
      || (options.propertyToOrderBy.Some? && options.propertyToOrderBy.value != ""
          && ResolveProperty(options.propertyToOrderBy.value).None?)
      || options.pagination.None?
      || Offset(options.pagination.value) < 0
      || options.pagination.value.pageSize < 0
    ensures options.pagination.None? && ApplyOrder([], options.propertyToOrderBy).Returned? ==>
      Query(rows, options) == Threw(NullPaginationMessage)
  {
    var filtered := ApplyNameFilter(rows, options.nameToFind);
    assert ApplyOrder(filtered, options.propertyToOrderBy).Threw? == ApplyOrder([], options.propertyToOrderBy).Threw?;
  }

  /** Every row returned is a row of the table, and when a non-empty NameToFind is given
      its name contains that fragment, ignoring case. */
  lemma QueryFilters(rows: seq<ProductRow>, options: FindProductsDto, x: ProductRow)
    requires Query(rows, options).Returned? && x in Query(rows, options).value
    ensures x in rows
    ensures options.nameToFind.Some? && options.nameToFind.value != "" ==>
      NameMatches(x, options.nameToFind.value)
      && exists k :: OccursAt(Lower(x.name), Lower(options.nameToFind.value), k)
  {
    var filtered := ApplyNameFilter(rows, options.nameToFind);
    var ordered := ApplyOrder(filtered, options.propertyToOrderBy).value;
    var p := options.pagination.value;
    var r := Page(ordered, Offset(p), p.pageSize as int).value;
    assert r == Query(rows, options).value;
    var i :| 0 <= i < |r| && r[i] == x;
    assert ordered[Offset(p) + i] == x;
    assert x in multiset(ordered);
    assert x in filtered;
    if options.nameToFind.Some? && options.nameToFind.value != "" {
      ContainsAt(Lower(x.name), Lower(options.nameToFind.value));
    }
  }

  /** Where the exact offset of a page at or after the first fits in an `int`, the query
      as written returns what the exact one does: the properties proved of `Query`
      hold of the code. */
  lemma QueryAsWrittenAgrees(rows: seq<ProductRow>, options: FindProductsDto)
    requires options.pagination.Some? ==>
      options.pagination.value.pageNumber >= 1 && 0 <= Offset(options.pagination.value) <= Int32Max
    ensures QueryAsWritten(rows, options) == Query(rows, options)
  {
    if options.pagination.Some? {
      OffsetAsWrittenWithoutOverflow(options.pagination.value);
    }
  }

  /** With a non-empty sort name the page is ascending on the property it names. */
  lemma QuerySorted(rows: seq<ProductRow>, options: FindProductsDto, i: int, j: int)
    requires Query(rows, options).Returned?
    requires options.propertyToOrderBy.Some? && options.propertyToOrderBy.value != ""
    requires 0 <= i <= j < |Query(rows, options).value|
    ensures var r := Query(rows, options).value;
      FieldLe(ResolveProperty(options.propertyToOrderBy.value).value, r[i], r[j])
  {
    var ordered := ApplyOrder(ApplyNameFilter(rows, options.nameToFind), options.propertyToOrderBy).value;
    var p := options.pagination.value;
    assert Query(rows, options) == Page(ordered, Offset(p), p.pageSize as int);
    PageSorted(ResolveProperty(options.propertyToOrderBy.value).value, ordered, Offset(p), p.pageSize as int, i, j);
  }

  /** A page of a sorted sequence is sorted. */
  lemma PageSorted(p: ProductProperty, s: seq<ProductRow>, offset: int, limit: int, i: int, j: int)
    requires SortedBy(p, s) && Page(s, offset, limit).Returned?
    requires 0 <= i <= j < |Page(s, offset, limit).value|
    ensures FieldLe(p, Page(s, offset, limit).value[i], Page(s, offset, limit).value[j])
  {
    SortedByPairwise(p, s, offset + i, offset + j);
  }

  /** The page is the run of the filtered, ordered rows that starts at the offset; it
      holds at most PageSize rows, and is empty once the offset is past the end. */
  lemma QueryPage(rows: seq<ProductRow>, options: FindProductsDto)
    requires Query(rows, options).Returned?
    ensures options.pagination.Some?
    ensures var ordered := ApplyOrder(ApplyNameFilter(rows, options.nameToFind), options.propertyToOrderBy);
      var p, r := options.pagination.value, Query(rows, options).value;
      && ordered.Returned?
      && |r| <= p.pageSize as int
      && (forall i :: 0 <= i < |r| ==> r[i] == ordered.value[Offset(p) + i])
      && (Offset(p) >= |ordered.value| ==> r == [])
      && (Offset(p) < |ordered.value| ==> |r| == Min(|ordered.value| - Offset(p), p.pageSize as int))
  {
  }

  function Min(a: int, b: int): int {
    if a < b then a else b
  }

  // ----- the 32-bit offset -----

  /** The largest PageNumber the validators leave open, with the largest PageSize they
      allow. */
  const LastPage := PaginationDto(0x7fff_ffff, 200)

  /** A page whose exact offset, 33554432 * 128, is 2^32. */
  const PageAtTwoToThe32 := PaginationDto(33554433, 128)

  /** The first page of the same size. */
  const FirstPageOf128 := PaginationDto(1, 128)

  /** The 32-bit offsets of the three pages above. */
  lemma OverflowPageOffsets()
    ensures OffsetAsWritten(LastPage) == -400 && Offset(LastPage) == 0x7fff_fffe * 200
    ensures OffsetAsWritten(PageAtTwoToThe32) == 0 && Offset(PageAtTwoToThe32) == 0x1_0000_0000
    ensures OffsetAsWritten(FirstPageOf128) == 0
  {
    assert Wrap32(0x7fff_fffe) == 0x7fff_fffe;
    assert Wrap32(33554432) == 33554432;
  }

  /** At `LastPage` the offset wraps round to a negative number and the database refuses
      the query; at `PageAtTwoToThe32` it wraps round to exactly 0 and the first page comes
      back instead of an empty one. */
  lemma OffsetOverflows(rows: seq<ProductRow>, name: Option<string>, order: Option<string>)
    requires ApplyOrder(ApplyNameFilter(rows, name), order).Returned?
    requires |rows| <= Int32Max
    ensures OffsetAsWritten(LastPage) == -400
    ensures QueryAsWritten(rows, FindProductsDto(name, order, Some(LastPage))) == Threw(NegativeOffsetMessage)
    ensures Query(rows, FindProductsDto(name, order, Some(LastPage))) == Returned([])
    ensures OffsetAsWritten(PageAtTwoToThe32) == 0
    ensures QueryAsWritten(rows, FindProductsDto(name, order, Some(PageAtTwoToThe32)))
      == Query(rows, FindProductsDto(name, order, Some(FirstPageOf128)))
    ensures Query(rows, FindProductsDto(name, order, Some(PageAtTwoToThe32))) == Returned([])
  {
    OverflowPageOffsets();
    var ordered := ApplyOrder(ApplyNameFilter(rows, name), order).value;
    assert |ordered| == |multiset(ordered)| <= |rows| by {
      assert |multiset(ApplyNameFilter(rows, name))| <= |rows|;
    }
  }
}
