/** The FluentValidation rule sets for the three request DTOs, as pure functions from a
    DTO to the list of failures, in rule order. An empty list means the DTO is valid.
    Each chain is evaluated to the end (FluentValidation's default cascade), so one
    property can fail several rules at once. */
module Validators {
  import opened Wrappers
  import opened Text
  import opened Domain

  /** One failed rule: the property it is attached to and its message. */
  datatype ValidationFailure = ValidationFailure(propertyName: string, errorMessage: string)

  datatype ValidationResult = ValidationResult(errors: seq<ValidationFailure>) {
    predicate IsValid() { |errors| == 0 }
  }

  /** A rule whose violation condition is `violated`. */
  function Rule(violated: bool, propertyName: string, errorMessage: string): seq<ValidationFailure> {
    if violated then [ValidationFailure(propertyName, errorMessage)] else []
  }

  /** FluentValidation's `MaximumLength(n)`: a null string passes. */
  predicate TooLong(s: Option<string>, n: nat) {
    s.Some? && |s.value| > n
  }

  // ----- CreateProductDtoValidator -----

  // Each message starts with the property's name, as `nameof(...)` puts it there.
  const NameRequired := "Name" + " is required"
  const NameTooLong := "Name" + " must be less than or equal to 100 characters"
  const DescriptionRequired := "Description" + " is required"
  const DescriptionTooLong := "Description" + " must be less than or equal to 500 characters"
  const QuantityRequired := "AvailableQuantity" + " is required"
  const QuantityNegative := "AvailableQuantity" + " must be greater than or equal to 0"
  const PriceRequired := "Price" + " is required"
  const PriceNegative := "Price" + " must be greater than or equal to 0"

  /** The message of `f` begins with the name of the property it is attached to. */
  predicate NamesItsProperty(f: ValidationFailure) {
    |f.propertyName| <= |f.errorMessage| && f.errorMessage[..|f.propertyName|] == f.propertyName
  }

  /** The rules on one required text field: `NotEmpty` then `MaximumLength(maxLength)`. */
  function RequiredTextRules(propertyName: string, value: string, maxLength: nat,
                             required: string, tooLong: string): (fs: seq<ValidationFailure>)
    requires required != tooLong
    requires NamesItsProperty(ValidationFailure(propertyName, required))
    requires NamesItsProperty(ValidationFailure(propertyName, tooLong))
    ensures ValidationFailure(propertyName, required) in fs <==> IsBlank(value)
    ensures ValidationFailure(propertyName, tooLong) in fs <==> |value| > maxLength
    ensures forall f :: f in fs ==> f.propertyName == propertyName && NamesItsProperty(f)
  {
    Rule(IsBlank(value), propertyName, required) + Rule(|value| > maxLength, propertyName, tooLong)
  }

  /** The rules on one numeric field: `NotEmpty` (fails on the default 0) then
      `GreaterThanOrEqualTo(0)`. */
  function RequiredNumberRules(propertyName: string, isZero: bool, isNegative: bool,
                               required: string, negative: string): (fs: seq<ValidationFailure>)
    requires required != negative
    requires NamesItsProperty(ValidationFailure(propertyName, required))
    requires NamesItsProperty(ValidationFailure(propertyName, negative))
    ensures ValidationFailure(propertyName, required) in fs <==> isZero
    ensures ValidationFailure(propertyName, negative) in fs <==> isNegative
    ensures forall f :: f in fs ==> f.propertyName == propertyName && NamesItsProperty(f)
  {
    Rule(isZero, propertyName, required) + Rule(isNegative, propertyName, negative)
  }

  /** The eight create rules, in declaration order. `NotEmpty` on a number fails on the
      type's default value, so a zero quantity or a zero price is "required" although
      it is not negative. A request is accepted exactly when the name and description
      have a non-whitespace character and fit their columns and the quantity and price
      are strictly positive; every failure is tagged with its field, and its message
      begins with that field's name. */
  function CreateProductFailures(dto: CreateProductDto): (fs: seq<ValidationFailure>)
    ensures |fs| == 0 <==>
      && !IsBlank(dto.name) && |dto.name| <= 100
      && !IsBlank(dto.description) && |dto.description| <= 500
      && dto.availableQuantity > 0 && dto.price > 0.0
    ensures forall f :: f in fs ==>
      f.propertyName in {"Name", "Description", "AvailableQuantity", "Price"} && NamesItsProperty(f)
  {
    var name := RequiredTextRules("Name", dto.name, 100, NameRequired, NameTooLong);
    var description := RequiredTextRules("Description", dto.description, 500, DescriptionRequired, DescriptionTooLong);
    var quantity := RequiredNumberRules("AvailableQuantity", dto.availableQuantity == 0, dto.availableQuantity < 0,
                                        QuantityRequired, QuantityNegative);
    var price := RequiredNumberRules("Price", dto.price == 0.0, dto.price < 0.0, PriceRequired, PriceNegative);
    name + description + quantity + price
  }

  /** Each create rule on a text field fires exactly when its condition holds. */
  lemma CreateProductTextRules(dto: CreateProductDto)
    ensures ValidationFailure("Name", NameRequired) in CreateProductFailures(dto) <==> IsBlank(dto.name)
    ensures ValidationFailure("Name", NameTooLong) in CreateProductFailures(dto) <==> |dto.name| > 100
    ensures ValidationFailure("Description", DescriptionRequired) in CreateProductFailures(dto)
      <==> IsBlank(dto.description)
    ensures ValidationFailure("Description", DescriptionTooLong) in CreateProductFailures(dto)
      <==> |dto.description| > 500
  {
  }

  /** Each create rule on a number field fires exactly when its condition holds. */
  lemma CreateProductNumberRules(dto: CreateProductDto)
    ensures ValidationFailure("AvailableQuantity", QuantityRequired) in CreateProductFailures(dto)
      <==> dto.availableQuantity == 0
    ensures ValidationFailure("AvailableQuantity", QuantityNegative) in CreateProductFailures(dto)
      <==> dto.availableQuantity < 0
    ensures ValidationFailure("Price", PriceRequired) in CreateProductFailures(dto) <==> dto.price == 0.0
    ensures ValidationFailure("Price", PriceNegative) in CreateProductFailures(dto) <==> dto.price < 0.0
  {
  }

  // ----- UpdateProductDtoValidator -----

  /** The four update rules; each skips a null (absent) field and none demands presence. */
  function UpdateProductFailures(dto: UpdateProductDto): (fs: seq<ValidationFailure>)
    ensures ValidationFailure("Name", NameTooLong) in fs <==> TooLong(dto.name, 100)
    ensures ValidationFailure("Description", DescriptionTooLong) in fs <==> TooLong(dto.description, 500)
    ensures ValidationFailure("AvailableQuantity", QuantityNegative) in fs <==>
      dto.availableQuantity.Some? && dto.availableQuantity.value < 0
    ensures ValidationFailure("Price", PriceNegative) in fs <==> dto.price.Some? && dto.price.value < 0.0
    ensures forall f :: f in fs ==>
      f in {ValidationFailure("Name", NameTooLong), ValidationFailure("Description", DescriptionTooLong),
            ValidationFailure("AvailableQuantity", QuantityNegative), ValidationFailure("Price", PriceNegative)}
    // accepted exactly when every supplied field is within bounds; zero and "" are
    ensures |fs| == 0 <==>
      && (dto.name.Some? ==> |dto.name.value| <= 100)
      && (dto.description.Some? ==> |dto.description.value| <= 500)
      && (dto.availableQuantity.Some? ==> dto.availableQuantity.value >= 0)
      && (dto.price.Some? ==> dto.price.value >= 0.0)
  {
    Rule(TooLong(dto.name, 100), "Name", NameTooLong)
    + Rule(TooLong(dto.description, 500), "Description", DescriptionTooLong)
    + Rule(dto.availableQuantity.Some? && dto.availableQuantity.value < 0, "AvailableQuantity", QuantityNegative)
    + Rule(dto.price.Some? && dto.price.value < 0.0, "Price", PriceNegative)
  }

  /** A request with every field null is accepted, and so is one that clears the name
      and description to "" and sets quantity and price to zero. */
  lemma UpdateProductEdgeCases()
    ensures |UpdateProductFailures(UpdateProductDto(None, None, None, None))| == 0
    ensures |UpdateProductFailures(UpdateProductDto(Some(""), Some(""), Some(0), Some(0.0)))| == 0
  {
  }

  // ----- the two FindProductsDtoValidator variants -----

  const NameToFindTooLong := "NameToFind must be less than or equal to 100 characters"
  /** FluentValidation's default message for a `Must` rule without `WithMessage`; the
      display name is the property name split at its capitals. */
  const OrderByNotAProperty := "The specified condition was not met for 'Property To Order By'."
  const OrderByTooLong := "PropertyToOrderBy must be less than or equal to 100 characters"
  const PaginationRequired := "Pagination is required"
  const PageNumberTooSmall := "PageNumber must be greater than or equal to 1"
  const PageSizeTooSmall := "PageSize must be greater than or equal to 1"
  const PageSizeTooLarge := "PageSize must be less than or equal to 200"

  /** Which `IValidator<FindProductsDto>` the service is given: the allow-list variant
      (Service/Validations) or the older length-only variant (Service/Services/Validations). */
  datatype FindValidator = AllowList | LengthOnly

  /** The Pagination rules. The rules on `Pagination.PageNumber` and `Pagination.PageSize`
      are evaluated here only on a non-null Pagination; the validator itself reads
      those members through a null Pagination and throws instead of reporting
      "Pagination is required". */
  function PaginationFailures(pagination: Option<PaginationDto>): (fs: seq<ValidationFailure>)
    ensures ValidationFailure("Pagination", PaginationRequired) in fs <==> pagination.None?
    ensures ValidationFailure("Pagination.PageNumber", PageNumberTooSmall) in fs <==>
      pagination.Some? && pagination.value.pageNumber < 1
    ensures ValidationFailure("Pagination.PageSize", PageSizeTooSmall) in fs <==>
      pagination.Some? && pagination.value.pageSize < 1
    ensures ValidationFailure("Pagination.PageSize", PageSizeTooLarge) in fs <==>
      pagination.Some? && pagination.value.pageSize > 200
    ensures forall f :: f in fs ==>
      f.propertyName in {"Pagination", "Pagination.PageNumber", "Pagination.PageSize"}
    ensures |fs| == 0 <==> ValidPagination(pagination)
  {
    match pagination
    case None => Rule(true, "Pagination", PaginationRequired)
    case Some(p) =>
      Rule(p.pageNumber < 1, "Pagination.PageNumber", PageNumberTooSmall)
      + Rule(p.pageSize < 1, "Pagination.PageSize", PageSizeTooSmall)
      + Rule(p.pageSize > 200, "Pagination.PageSize", PageSizeTooLarge)
  }

  /** Whether the pagination rules pass: present, page at least 1, size in [1, 200]. */
  predicate ValidPagination(pagination: Option<PaginationDto>) {
    pagination.Some? && pagination.value.pageNumber >= 1
    && 1 <= pagination.value.pageSize <= 200
  }

  /** The allow-list variant: the sort property, when given, must be one of Product's
      property names, compared case-sensitively. */
  function FindProductsFailures(dto: FindProductsDto): (fs: seq<ValidationFailure>)
    ensures ValidationFailure("NameToFind", NameToFindTooLong) in fs <==> TooLong(dto.nameToFind, 100)
    ensures ValidationFailure("PropertyToOrderBy", OrderByNotAProperty) in fs <==>
      dto.propertyToOrderBy.Some? && dto.propertyToOrderBy.value !in ProductPropertyNames
    ensures ValidationFailure("Pagination", PaginationRequired) in fs <==> dto.pagination.None?
    ensures ValidationFailure("Pagination.PageNumber", PageNumberTooSmall) in fs <==>
      dto.pagination.Some? && dto.pagination.value.pageNumber < 1
    ensures ValidationFailure("Pagination.PageSize", PageSizeTooSmall) in fs <==>
      dto.pagination.Some? && dto.pagination.value.pageSize < 1
    ensures ValidationFailure("Pagination.PageSize", PageSizeTooLarge) in fs <==>
      dto.pagination.Some? && dto.pagination.value.pageSize > 200
    ensures |fs| == 0 <==>
      !TooLong(dto.nameToFind, 100)
      && (dto.propertyToOrderBy.Some? ==> dto.propertyToOrderBy.value in ProductPropertyNames)
      && ValidPagination(dto.pagination)
  {
    Rule(TooLong(dto.nameToFind, 100), "NameToFind", NameToFindTooLong)
    + Rule(dto.propertyToOrderBy.Some? && dto.propertyToOrderBy.value !in ProductPropertyNames,
           "PropertyToOrderBy", OrderByNotAProperty)
    + PaginationFailures(dto.pagination)
  }

  /** The length-only variant: any sort property of at most 100 characters passes. */
  function FindProductsFailuresLengthOnly(dto: FindProductsDto): (fs: seq<ValidationFailure>)
    ensures ValidationFailure("NameToFind", NameToFindTooLong) in fs <==> TooLong(dto.nameToFind, 100)
    ensures ValidationFailure("PropertyToOrderBy", OrderByTooLong) in fs <==> TooLong(dto.propertyToOrderBy, 100)
    ensures ValidationFailure("Pagination", PaginationRequired) in fs <==> dto.pagination.None?
    ensures ValidationFailure("Pagination.PageNumber", PageNumberTooSmall) in fs <==>
      dto.pagination.Some? && dto.pagination.value.pageNumber < 1
    ensures ValidationFailure("Pagination.PageSize", PageSizeTooSmall) in fs <==>
      dto.pagination.Some? && dto.pagination.value.pageSize < 1
    ensures ValidationFailure("Pagination.PageSize", PageSizeTooLarge) in fs <==>
      dto.pagination.Some? && dto.pagination.value.pageSize > 200
    ensures |fs| == 0 <==>
      !TooLong(dto.nameToFind, 100) && !TooLong(dto.propertyToOrderBy, 100)
      && ValidPagination(dto.pagination)
  {
    Rule(TooLong(dto.nameToFind, 100), "NameToFind", NameToFindTooLong)
    + Rule(TooLong(dto.propertyToOrderBy, 100), "PropertyToOrderBy", OrderByTooLong)
    + PaginationFailures(dto.pagination)
  }

  function FindFailures(validator: FindValidator, dto: FindProductsDto): seq<ValidationFailure> {
    match validator
    case AllowList => FindProductsFailures(dto)
    case LengthOnly => FindProductsFailuresLengthOnly(dto)
  }

  /** The two variants differ on the sort property: "InvalidProperty" and "" are
      refused by the allow-list and accepted by the length check; a null property and
      every real property name are accepted by both; page 1 is the first valid page. */
  lemma FindValidatorsOnSortProperty(p: PaginationDto)
    requires p.pageNumber == 1 && 1 <= p.pageSize <= 200
    ensures |FindProductsFailures(FindProductsDto(None, Some("InvalidProperty"), Some(p)))| > 0
    ensures |FindProductsFailuresLengthOnly(FindProductsDto(None, Some("InvalidProperty"), Some(p)))| == 0
    ensures |FindProductsFailures(FindProductsDto(None, Some(""), Some(p)))| > 0
    ensures |FindProductsFailuresLengthOnly(FindProductsDto(None, Some(""), Some(p)))| == 0
    ensures forall v :: |FindFailures(v, FindProductsDto(None, None, Some(p)))| == 0
    ensures forall q :: |FindProductsFailures(FindProductsDto(None, Some(PropertyName(q)), Some(p)))| == 0
    ensures |FindProductsFailures(FindProductsDto(None, Some("name"), Some(p)))| > 0
  {
    assert "InvalidProperty" !in ProductPropertyNames;
    assert "name" != "Name";
  }

  /** Every name the allow-list accepts is at most 100 characters long, so whatever the
      allow-list variant accepts, the length-only variant accepts too. */
  lemma AllowListIsStricter(dto: FindProductsDto)
    requires |FindProductsFailures(dto)| == 0
    ensures |FindProductsFailuresLengthOnly(dto)| == 0
  {
  }
}
