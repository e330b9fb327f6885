/**
 * The mapping from a REST filter query (field, operator name, value text)
 * to a typed filter: the operator name picks one of twelve operators, and
 * the four numeric operators read the value as a `long`.
 */
module FilterFactory {
  import opened Wrappers
  import opened JavaLong

  datatype FilterOperator =
    | Equals
    | NotEquals
    | EqualsNumeric
    | NotEqualsNumeric
    | RegexMatch
    | NotRegexMatch
    | GreaterThan
    | SmallerThan
    | InCidr
    | NotInCidr
    | IsPrivate
    | IsNotPrivate

  /** A filter's value: the query text as it came, or the number it spells. */
  datatype FilterValue = Text(text: string) | Number(number: int)

  datatype Filter = Filter(field: string, operator: FilterOperator, value: FilterValue)

  /** One filter of a REST query, as the client sent it. */
  datatype FiltersParameter = FiltersParameter(field: string, operator: string, value: string)

  /**
   * Why a query is refused: an operator name outside the twelve (the
   * `RuntimeException`), or a numeric operator whose value is not a `long`
   * (the `NumberFormatException` of `Long.valueOf`).
   */
  datatype FilterError = UnknownOperator(name: string) | NotANumber(text: string)

  /** The operators whose value is read as a `long`. */
  predicate IsNumeric(op: FilterOperator) {
    op in {EqualsNumeric, NotEqualsNumeric, GreaterThan, SmallerThan}
  }

  /** The name a REST query uses for each operator. */
  function OperatorName(op: FilterOperator): string {
    match op
    case Equals => "equals"
    case NotEquals => "not_equals"
    case EqualsNumeric => "equals_numeric"
    case NotEqualsNumeric => "not_equals_numeric"
    case RegexMatch => "regex_match"
    case NotRegexMatch => "not_regex_match"
    case GreaterThan => "greater_than"
    case SmallerThan => "smaller_than"
    case InCidr => "in_cidr"
    case NotInCidr => "not_in_cidr"
    case IsPrivate => "is_private"
    case IsNotPrivate => "is_not_private"
  }

  /** A filter whose value is read as a `long`, or the refusal of a value that is not one. */
  function NumericFilter(field: string, op: FilterOperator, value: string): (r: Result<Filter, FilterError>)
    ensures r.Ok? <==> ParseLong(value).Some?
    ensures r.Ok? ==> r.value == Filter(field, op, Number(ParseLong(value).value))
    ensures r.Err? ==> r.error == NotANumber(value)
  {
    match ParseLong(value)
    case None => Err(NotANumber(value))
    case Some(n) => Ok(Filter(field, op, Number(n)))
  }

  /**
   * `fromRestQuery`. A successful result names the operator the query
   * named, keeps the field, carries the value text for the eight text
   * operators and the number it spells for the four numeric ones. A refusal
   * names the unknown operator or the value that is not a number.
   */
  function FromRestQuery(parameter: FiltersParameter): (r: Result<Filter, FilterError>)
    ensures r.Ok? ==> OperatorName(r.value.operator) == parameter.operator
    ensures r.Ok? ==> r.value.field == parameter.field
    ensures r.Ok? && !IsNumeric(r.value.operator) ==> r.value.value == Text(parameter.value)
    ensures r.Ok? && IsNumeric(r.value.operator) ==>
              r.value.value.Number? && ParseLong(parameter.value) == Some(r.value.value.number)
    ensures r.Err? && r.error.UnknownOperator? ==> r.error.name == parameter.operator
    ensures r.Err? && r.error.NotANumber? ==>
              r.error.text == parameter.value && ParseLong(parameter.value).None?
  {
    var field, value := parameter.field, parameter.value;
    match parameter.operator
    case "equals" => Ok(Filter(field, Equals, Text(value)))
    case "not_equals" => Ok(Filter(field, NotEquals, Text(value)))
    case "equals_numeric" => NumericFilter(field, EqualsNumeric, value)
    case "not_equals_numeric" => NumericFilter(field, NotEqualsNumeric, value)
    case "regex_match" => Ok(Filter(field, RegexMatch, Text(value)))
    case "not_regex_match" => Ok(Filter(field, NotRegexMatch, Text(value)))
    case "greater_than" => NumericFilter(field, GreaterThan, value)
    case "smaller_than" => NumericFilter(field, SmallerThan, value)
    case "in_cidr" => Ok(Filter(field, InCidr, Text(value)))
    case "not_in_cidr" => Ok(Filter(field, NotInCidr, Text(value)))
    case "is_private" => Ok(Filter(field, IsPrivate, Text(value)))
    case "is_not_private" => Ok(Filter(field, IsNotPrivate, Text(value)))
    case _ => Err(UnknownOperator(parameter.operator))
  }

  /** Distinct operators have distinct names, so a name selects at most one operator. */
  lemma OperatorNamesDistinct(a: FilterOperator, b: FilterOperator)
    requires OperatorName(a) == OperatorName(b)
    ensures a == b
  {
    assert OperatorName(a)[..3] == OperatorName(b)[..3];
  }

  /**
   * Every operator is reachable by its name: a text operator always gives
   * a filter with the value text, a numeric one gives a filter exactly when
   * the value is a `long`.
   */
  lemma NamedOperatorAccepted(field: string, op: FilterOperator, value: string)
    ensures var r := FromRestQuery(FiltersParameter(field, OperatorName(op), value));
      && (!IsNumeric(op) ==> r == Ok(Filter(field, op, Text(value))))
      && (IsNumeric(op) ==> r == NumericFilter(field, op, value))
  {
  }

  /** A numeric operator with the text of any `long` gives back that number. */
  lemma NumericValueRoundTrip(field: string, op: FilterOperator, n: int)
    requires IsNumeric(op) && InLong(n)
    ensures FromRestQuery(FiltersParameter(field, OperatorName(op), Format(n))) == Ok(Filter(field, op, Number(n)))
  {
    NamedOperatorAccepted(field, op, Format(n));
    FormatRoundTrip(n);
  }

  /** An operator name outside the twelve is refused, whatever the field and value. */
  lemma UnknownOperatorRefused(parameter: FiltersParameter)
    requires forall op :: OperatorName(op) != parameter.operator
    ensures FromRestQuery(parameter) == Err(UnknownOperator(parameter.operator))
  {
    assert && OperatorName(Equals) != parameter.operator
           && OperatorName(NotEquals) != parameter.operator
           && OperatorName(EqualsNumeric) != parameter.operator
           && OperatorName(NotEqualsNumeric) != parameter.operator
           && OperatorName(RegexMatch) != parameter.operator
           && OperatorName(NotRegexMatch) != parameter.operator
           && OperatorName(GreaterThan) != parameter.operator
           && OperatorName(SmallerThan) != parameter.operator
           && OperatorName(InCidr) != parameter.operator
           && OperatorName(NotInCidr) != parameter.operator
           && OperatorName(IsPrivate) != parameter.operator
           && OperatorName(IsNotPrivate) != parameter.operator;
  }

  /** A refused operator name is none of the twelve: there is no default operator. */
  lemma RefusedOperatorIsUnknown(parameter: FiltersParameter)
    requires FromRestQuery(parameter).Err? && FromRestQuery(parameter).error.UnknownOperator?
    ensures forall op :: OperatorName(op) != parameter.operator
  {
    forall op
      ensures OperatorName(op) != parameter.operator
    {
      NamedOperatorAccepted(parameter.field, op, parameter.value);
      assert OperatorName(op) == parameter.operator ==>
               parameter == FiltersParameter(parameter.field, OperatorName(op), parameter.value);
    }
  }
}
