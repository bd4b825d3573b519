/** The failures `get_data` reports, each with the HTTP status and the
    detail message the handler attaches to it. */
module Errors {
  import Decimal

  datatype Error =
    | PlanDataNotFound           // the plan file does not exist
    | InvalidJson                // the plan file is not well-formed JSON
    | PremiumNotFound(age: int)  // the plan option has no entry for this age
    | InvalidParameters(key: string)  // the plan option is not in the table

  datatype Result<T> = Ok(value: T) | Err(error: Error)

  /** Python's `str(KeyError(key))`, which quotes the key. */
  function QuotedKey(key: string): string {
    "'" + key + "'"
  }

  /** The status code of the HTTP error the handler raises. */
  function Status(e: Error): (code: int)
    ensures code == 400 <==> e.PremiumNotFound? || e.InvalidParameters?
    ensures code == 404 <==> e.PlanDataNotFound?
    ensures code == 500 <==> e.InvalidJson?
  {
    match e
    case PlanDataNotFound => 404
    case InvalidJson => 500
    case PremiumNotFound(_) => 400
    case InvalidParameters(_) => 400
  }

  const PremiumPrefix: string := "Premium data not found for age "
  const InvalidPrefix: string := "Invalid parameters: "

  /** The `detail` text of the HTTP error the handler raises.  A missing
      premium is reported with the age in the canonical form the table keys
      it by; a missing plan option with the key between quotes. */
  function Detail(e: Error): (d: string)
    ensures e.PlanDataNotFound? ==> d == "Plan data not found"
    ensures e.InvalidJson? ==> d == "Invalid JSON data"
    ensures e.PremiumNotFound? ==>
              && |d| > |PremiumPrefix| && d[..|PremiumPrefix|] == PremiumPrefix
              && Decimal.IsCanonical(d[|PremiumPrefix|..])
              && Decimal.ParseDecimal(d[|PremiumPrefix|..]) == Decimal.Some(e.age)
    ensures e.InvalidParameters? ==>
              && |d| == |InvalidPrefix| + |e.key| + 2 && d[..|InvalidPrefix|] == InvalidPrefix
              && d[|InvalidPrefix|] == '\'' == d[|d| - 1]
              && d[|InvalidPrefix| + 1..|d| - 1] == e.key
  {
    match e
    case PlanDataNotFound => "Plan data not found"
    case InvalidJson => "Invalid JSON data"
    case PremiumNotFound(age) =>
      var d := PremiumPrefix + Decimal.IntToString(age);
      assert d[|PremiumPrefix|..] == Decimal.IntToString(age);
      d
    case InvalidParameters(key) =>
      var d := InvalidPrefix + QuotedKey(key);
      assert d[|InvalidPrefix| + 1..|d| - 1] == key;
      d
  }

  /** The message of a missing-premium error names exactly one age: two such
      errors with the same text are about the same age. */
  lemma PremiumDetailNamesAge(a: int, b: int)
    requires Detail(PremiumNotFound(a)) == Detail(PremiumNotFound(b))
    ensures a == b
  {
  }

  /** The message of an invalid-parameters error names exactly one key. */
  lemma InvalidParametersDetailNamesKey(k1: string, k2: string)
    requires Detail(InvalidParameters(k1)) == Detail(InvalidParameters(k2))
    ensures k1 == k2
  {
  }
}
