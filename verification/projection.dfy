/** The premium projection at the heart of `get_data`: once the plan's price
    table is in memory, walk the ages from the enrollee's age up to 100 and
    look each one up under the chosen plan option.

    The price table maps a plan option to a map from age keys (the decimal
    rendering of the age) to premiums.  Premiums are only passed through, so
    their type is a parameter `V`.
 */
module Projection {
  import Decimal
  import opened Errors

  /** The age the projection runs up to. */
  const MaxAge: int := 100

  type PriceTable<V> = map<string, map<string, V>>

  /** One element of the response: the 1-based year, the enrollee's age in
      that year and the premium stored for that age. */
  datatype Record<V> = Record(yearNumber: int, age: int, medicalPremium: V)

  /** Number of years projected: up to and including age 100, and at least
      one year even when the enrollee is already older than 100. */
  function Horizon(age: int): (h: nat)
    ensures h >= 1
    ensures age <= MaxAge ==> age + h - 1 == MaxAge
    ensures age > MaxAge ==> h == 1
  {
    if MaxAge - age + 1 > 1 then MaxAge - age + 1 else 1
  }

  /** The option's premiums have an entry for age `a`. */
  predicate Present<V>(prices: map<string, V>, a: int) {
    Decimal.IntToString(a) in prices
  }

  /** Every age in `[lo, hi)` has an entry. */
  predicate AllPresent<V>(prices: map<string, V>, lo: int, hi: int) {
    forall a :: lo <= a < hi ==> Present(prices, a)
  }

  /** `a` is the smallest age in `[lo, hi)` without an entry. */
  predicate IsFirstMissing<V>(prices: map<string, V>, lo: int, hi: int, a: int) {
    lo <= a < hi && !Present(prices, a) && AllPresent(prices, lo, a)
  }

  /** Record `i` of a successful projection from age `lo`. */
  ghost predicate RecordAt<V>(prices: map<string, V>, lo: int, firstYear: int, i: int, r: Record<V>) {
    && Present(prices, lo + i)
    && r.yearNumber == firstYear + i
    && r.age == lo + i
    && r.medicalPremium == prices[Decimal.IntToString(lo + i)]
  }

  /** The loop of `get_data` from iteration `year` on, for an enrollee of
      `age` and a horizon of `h` years.  Each iteration first looks the plan
      option up (a missing option is a `KeyError`), then the age, and stops
      at the first failure; the records of later years follow the current
      one. */
  function ProjectFrom<V>(data: PriceTable<V>, age: int, option: string, year: int, h: int)
    : (r: Result<seq<Record<V>>>)
    requires 1 <= year <= h + 1
    ensures r.Ok? <==> year > h || (option in data && AllPresent(data[option], age + year - 1, age + h))
    ensures r.Ok? ==> |r.value| == h - year + 1
    ensures r.Ok? && year <= h ==>
              forall i :: 0 <= i < |r.value| ==> RecordAt(data[option], age + year - 1, year, i, r.value[i])
    ensures r.Err? && option !in data ==> r.error == InvalidParameters(option)
    ensures r.Err? && option in data ==>
              r.error.PremiumNotFound? && IsFirstMissing(data[option], age + year - 1, age + h, r.error.age)
    decreases h + 1 - year
  {
    if year > h then Ok([])
    else
      var currentAge := age + year - 1;
      if option !in data then Err(InvalidParameters(option))
      else if !Present(data[option], currentAge) then Err(PremiumNotFound(currentAge))
      else
        match ProjectFrom(data, age, option, year + 1, h)
        case Err(e) =>
          AllPresentExtend(data[option], currentAge, e.age);
          Err(e)
        case Ok(rest) =>
          AllPresentExtend(data[option], currentAge, age + h);
          var first := Record(year, currentAge, data[option][Decimal.IntToString(currentAge)]);
          RecordsCons(data[option], currentAge, year, first, rest);
          Ok([first] + rest)
  }

  /** Prepending the record of the current year to the records of the
      following years keeps every record in its place. */
  lemma RecordsCons<V>(prices: map<string, V>, lo: int, year: int, first: Record<V>, rest: seq<Record<V>>)
    requires RecordAt(prices, lo, year, 0, first)
    requires forall i :: 0 <= i < |rest| ==> RecordAt(prices, lo + 1, year + 1, i, rest[i])
    ensures forall i :: 0 <= i < |[first] + rest| ==> RecordAt(prices, lo, year, i, ([first] + rest)[i])
  {
  }

  /** An entry for `lo` and entries for `(lo, hi)` cover `[lo, hi)`. */
  lemma AllPresentExtend<V>(prices: map<string, V>, lo: int, hi: int)
    requires Present(prices, lo) && AllPresent(prices, lo + 1, hi)
    ensures AllPresent(prices, lo, hi)
  {
  }

  /** The whole projection for an enrollee of `age` under `option`. */
  function Project<V>(data: PriceTable<V>, age: int, option: string): (r: Result<seq<Record<V>>>)
    ensures r.Ok? <==> option in data && AllPresent(data[option], age, age + Horizon(age))
    ensures r.Ok? ==> |r.value| == Horizon(age) >= 1
    ensures r.Ok? ==> forall i :: 0 <= i < |r.value| ==> RecordAt(data[option], age, 1, i, r.value[i])
    ensures option !in data ==> r == Err(InvalidParameters(option))
    ensures r.Err? && option in data ==>
              r.error.PremiumNotFound? && IsFirstMissing(data[option], age, age + Horizon(age), r.error.age)
  {
    ProjectFrom(data, age, option, 1, Horizon(age))
  }

  /** The projection as a sequence built directly from the table: record
      `i` is year `i + 1` at age `age + i`, for every year of the horizon. */
  function Expected<V>(prices: map<string, V>, age: int): (rs: seq<Record<V>>)
    requires AllPresent(prices, age, age + Horizon(age))
  {
    seq(Horizon(age), i requires 0 <= i < Horizon(age) =>
      assert Present(prices, age + i);
      Record(i + 1, age + i, prices[Decimal.IntToString(age + i)]))
  }

  /** A successful projection is exactly the directly built sequence, and
      a complete table always gives one. */
  lemma ProjectMatchesExpected<V>(data: PriceTable<V>, age: int, option: string)
    requires option in data && AllPresent(data[option], age, age + Horizon(age))
    ensures Project(data, age, option) == Ok(Expected(data[option], age))
  {
    var r := Project(data, age, option);
    var e := Expected(data[option], age);
    assert |r.value| == |e|;
    forall i | 0 <= i < |e|
      ensures r.value[i] == e[i]
    {
      assert RecordAt(data[option], age, 1, i, r.value[i]);
    }
    assert r.value == e;
  }

  /** Year numbers are contiguous and ascending, and so are the ages. */
  lemma ProjectAscending<V>(data: PriceTable<V>, age: int, option: string, i: int, j: int)
    requires Project(data, age, option).Ok?
    requires 0 <= i < j < |Project(data, age, option).value|
    ensures Project(data, age, option).value[j].yearNumber - Project(data, age, option).value[i].yearNumber == j - i
    ensures Project(data, age, option).value[i].age < Project(data, age, option).value[j].age
  {
  }

  /** The last record of a successful projection is at age 100, or at the
      enrollee's own age when that is already past 100. */
  lemma ProjectLastAge<V>(data: PriceTable<V>, age: int, option: string)
    requires Project(data, age, option).Ok?
    ensures var rs := Project(data, age, option).value;
            rs[|rs| - 1].age == if age <= MaxAge then MaxAge else age
  {
  }

  /** All or nothing: one missing age anywhere in the horizon makes the
      result an error, whatever else the table holds. */
  lemma MissingAgeFails<V>(data: PriceTable<V>, age: int, option: string, a: int)
    requires option in data
    requires age <= a < age + Horizon(age) && !Present(data[option], a)
    ensures Project(data, age, option).Err?
    ensures Project(data, age, option).error.PremiumNotFound?
    ensures Project(data, age, option).error.age <= a
  {
  }

  /** Two premium maps have the same entry, or both none, for age `a`. */
  ghost predicate AgreeAt<V>(p1: map<string, V>, p2: map<string, V>, a: int) {
    && (Present(p1, a) <==> Present(p2, a))
    && (Present(p1, a) ==> p1[Decimal.IntToString(a)] == p2[Decimal.IntToString(a)])
  }

  /** Only the chosen option's entries for the horizon's ages matter: two
      tables that agree on them give the same projection. */
  lemma ProjectDependsOnlyOnHorizon<V>(d1: PriceTable<V>, d2: PriceTable<V>, age: int, option: string)
    requires option in d1 <==> option in d2
    requires option in d1 ==> forall a :: age <= a < age + Horizon(age) ==> AgreeAt(d1[option], d2[option], a)
    ensures Project(d1, age, option) == Project(d2, age, option)
  {
    if option in d1 {
      var p1, p2 := d1[option], d2[option];
      var hi := age + Horizon(age);
      forall a | age <= a < hi
        ensures Present(p1, a) <==> Present(p2, a)
      {
        assert AgreeAt(p1, p2, a);
      }
      var r1 := Project(d1, age, option);
      var r2 := Project(d2, age, option);
      if r1.Ok? {
        forall i | 0 <= i < |r1.value|
          ensures r1.value[i] == r2.value[i]
        {
          assert AgreeAt(p1, p2, age + i);
          assert RecordAt(p1, age, 1, i, r1.value[i]);
          assert RecordAt(p2, age, 1, i, r2.value[i]);
        }
        assert r1.value == r2.value;
      } else {
        assert AgreeAt(p1, p2, r1.error.age);
        assert AgreeAt(p1, p2, r2.error.age);
      }
    }
  }
}
