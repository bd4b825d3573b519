/** The `POST /getData` handler: resolve the plan file, then project the
    premiums, and turn each failure into the HTTP error it is reported as.

    Opening and decoding the plan file is not modelled; its outcome is an
    input to the handler instead: the file is missing, it is not valid JSON,
    or it decoded to a price table.
 */
module Endpoint {
  import Decimal
  import opened Errors
  import opened Projection

  /** The request body.  `company` and `planFileName` only locate the plan
      file; `numberOfYears` is accepted but never read. */
  datatype CalculationRequest = CalculationRequest(
    company: string,
    planFileName: string,
    age: int,
    planOption: string,
    numberOfYears: int)

  /** What loading the plan file produced. */
  datatype LoadOutcome<V> = FileNotFound | Corrupt | Loaded(data: PriceTable<V>)

  /** The handler's response: the projection, or the error it raises. */
  function GetData<V>(load: LoadOutcome<V>, req: CalculationRequest): (r: Result<seq<Record<V>>>)
    ensures load.FileNotFound? ==> r == Err(PlanDataNotFound) && Status(r.error) == 404
    ensures load.Corrupt? ==> r == Err(InvalidJson) && Status(r.error) == 500
    ensures r.Ok? <==>
              load.Loaded? && req.planOption in load.data &&
              AllPresent(load.data[req.planOption], req.age, req.age + Horizon(req.age))
    ensures r.Ok? ==> |r.value| == Horizon(req.age)
    ensures r.Ok? ==> forall i :: 0 <= i < |r.value| ==>
              RecordAt(load.data[req.planOption], req.age, 1, i, r.value[i])
    ensures load.Loaded? && req.planOption !in load.data ==>
              r == Err(InvalidParameters(req.planOption))
    ensures load.Loaded? && r.Err? ==> Status(r.error) == 400
    ensures load.Loaded? && req.planOption in load.data && r.Err? ==>
              r.error.PremiumNotFound? &&
              IsFirstMissing(load.data[req.planOption], req.age, req.age + Horizon(req.age), r.error.age)
  {
    match load
    case FileNotFound => Err(PlanDataNotFound)
    case Corrupt => Err(InvalidJson)
    case Loaded(data) => Project(data, req.age, req.planOption)
  }

  /** The response never depends on `numberOfYears`. */
  lemma NumberOfYearsIgnored<V>(load: LoadOutcome<V>, req: CalculationRequest, n: int)
    ensures GetData(load, req.(numberOfYears := n)) == GetData(load, req)
  {
  }

  /** Keys that `str(int)` cannot produce, such as "040", never influence a
      response: adding one to the chosen option's premiums changes nothing. */
  lemma NonCanonicalKeyIgnored<V>(data: PriceTable<V>, req: CalculationRequest, key: string, v: V)
    requires req.planOption in data
    requires !Decimal.IsCanonical(key)
    ensures var option := req.planOption;
            GetData(Loaded(data[option := data[option][key := v]]), req) == GetData(Loaded(data), req)
  {
    var option := req.planOption;
    var p := data[option];
    var data' := data[option := p[key := v]];
    forall a | req.age <= a < req.age + Horizon(req.age)
      ensures AgreeAt(data'[option], p, a)
    {
      Decimal.KeyMatchesExactly(key, a);
    }
    ProjectDependsOnlyOnHorizon(data', data, req.age, option);
  }

  /** A table with premiums for ages 40 to 100 under "Gold": a request at
      age 40 gets 61 records, from year 1 at age 40 to year 61 at age 100,
      each carrying the stored premium. */
  lemma GoldFromForty<V>(prices: map<string, V>, req: CalculationRequest)
    requires AllPresent(prices, 40, 101)
    requires req.age == 40 && req.planOption == "Gold"
    ensures var r := GetData(Loaded(map["Gold" := prices]), req);
            && Present(prices, 40) && Decimal.IntToString(40) == "40"
            && Present(prices, 100) && Decimal.IntToString(100) == "100"
            && r.Ok? && |r.value| == 61
            && r.value[0] == Record(1, 40, prices["40"])
            && r.value[60] == Record(61, 100, prices["100"])
  {
  }

  /** An enrollee already past 100 still gets one projected year, at their
      own age; a table that stops at 100 therefore rejects the request. */
  lemma PastHundredNeedsOwnAge<V>(prices: map<string, V>, req: CalculationRequest)
    requires "105" !in prices
    requires req.age == 105 && req.planOption == "Gold"
    ensures var r := GetData(Loaded(map["Gold" := prices]), req);
            && r == Err(PremiumNotFound(105))
            && Status(r.error) == 400
            && Detail(r.error) == "Premium data not found for age 105"
  {
    assert Decimal.IntToString(105) == "105";
  }
}
