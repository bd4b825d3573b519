# Premium projection service, modelled in Dafny

The service has one endpoint, `POST /getData`. It loads a plan's price table,
which maps a plan option to a map from age keys to premiums. It then returns
one record per year, `(yearNumber, age, medicalPremium)`, from the enrollee's
age up to age 100. The request fails as a whole if any premium it needs is
missing. This project models that handler as pure functions:

- `Decimal` (`decimal.dfy`): Python's `str(int)`, which decides which age key
  an age selects. It comes with a reference reader `ParseDecimal` and a
  canonical-form predicate.
- `Errors` (`errors.dfy`): the four failures the handler reports, with their
  HTTP status codes and detail messages.
- `Projection` (`projection.dfy`): the horizon `max(100 - age + 1, 1)` and the
  projection loop. The loop is a recursive function over the iterations. It
  stops at the first missing plan option or age.
- `Endpoint` (`endpoint.dfy`): the request shape and the handler. The
  outcome of loading the plan file is an input, `FileNotFound | Corrupt |
  Loaded(table)`. The first two become 404 and 500 before any lookup.

Premiums have an opaque type `V`, because they are only passed through.

A plan option that is absent from the table is not reported as a missing
premium. It raises `KeyError` on the first loop iteration. That becomes a 400
error with the detail "Invalid parameters: 'option'", whatever the age.
The loop always runs at least once, so this holds even for ages above 100.
The 400 raised for a missing age is an `HTTPException`, not a `KeyError`. The
`except KeyError` handler therefore leaves it alone, and it reaches the caller
with "Premium data not found for age N".

## Model

| member | source | states |
|---|---|---|
| Decimal.IntToString | main.py:64-65 | The key an age is looked up by is a canonical decimal string (optional minus sign, no leading zero) that reads back as that age |
| Decimal.IntToStringRoundTrip | main.py:64-65 | Reading back the key rendered for an age gives that age, negative ages included |
| Decimal.IntToStringInjective | main.py:64-65 | Two different ages never select the same price-table key |
| Decimal.KeyMatchesExactly | main.py:65 | A key is selected by age n exactly when it is in canonical form and reads back as n |
| Decimal.LeadingZeroNeverMatches | main.py:65 | A key with a leading zero such as "040" is selected by no age |
| Errors.Status | main.py:66-84 | A missing premium or a missing key gives 400; a missing file gives 404; undecodable JSON gives 500; no other status arises |
| Errors.Detail | main.py:66-84 | The four detail texts: "Plan data not found", "Invalid JSON data", the missing-premium prefix followed by the age in canonical form, and "Invalid parameters: " followed by the quoted key |
| Errors.PremiumDetailNamesAge | main.py:66-69 | The missing-premium message identifies exactly one age |
| Errors.InvalidParametersDetailNamesKey | main.py:79-81 | The invalid-parameters message identifies exactly one key |
| Projection.Horizon | main.py:58-59 | At least one year; the last projected age is 100 when the enrollee is at most 100, and only one year is projected past 100 |
| Projection.ProjectFrom | main.py:63-75 | From a given iteration on: success exactly when no iteration remains, or the option exists and every remaining age is present. Then the records are the remaining years in order, with the stored premiums. A missing option gives the invalid-parameters error. Otherwise the error names the smallest missing remaining age |
| Projection.Project | main.py:57-75 | Success exactly when the option exists and every age of the horizon is present. Then there are exactly horizon records, record i is year i+1 at age+i with the premium stored under str(age+i). An absent option gives the invalid-parameters error at any age. Otherwise the error names the smallest missing age, and no records are returned |
| Projection.ProjectMatchesExpected | main.py:63-75 | With a complete table, the projection equals the sequence built directly, index by index, from the table |
| Projection.ProjectAscending | main.py:63-72 | Year numbers are contiguous and ascending, and ages strictly increase |
| Projection.ProjectLastAge | main.py:58-64 | The last record is at age 100, or at the enrollee's own age when that is past 100 |
| Projection.MissingAgeFails | main.py:63-69 | Any missing age in the horizon makes the result a missing-premium error, for that age or an earlier one |
| Projection.ProjectDependsOnlyOnHorizon | main.py:63-74 | Two tables that agree on the chosen option's entries for the horizon's ages give the same result |
| Endpoint.GetData | main.py:43-84 | A missing file gives 404 and undecodable JSON gives 500, whatever the request. A loaded table gives the projection's success or first-failure result, and every failure then has status 400 |
| Endpoint.NumberOfYearsIgnored | main.py:29-34 | Changing numberOfYears never changes the response |
| Endpoint.NonCanonicalKeyIgnored | main.py:63-74 | Adding a key that str(int) cannot produce to the option's premiums never changes the response |
| Endpoint.GoldFromForty | main.py:57-75 | A "Gold" table covering ages 40 to 100 gives 61 records at age 40, from (1, 40) to (61, 100), with the stored premiums |
| Endpoint.PastHundredNeedsOwnAge | main.py:58-69 | At age 105 one year is projected. Without a "105" key that is a 400 error "Premium data not found for age 105" |

## Left out

- Building the file path from `company` and `planFileName`, opening the file,
  and `json.load` (main.py:47-55) are file-system I/O and a foreign parser.
  They are replaced by the `LoadOutcome` input. The unsanitised path
  concatenation is not modelled.
- LoadOutcome: covers only the three outcomes the handler catches. A file
  that is not UTF-8 (`UnicodeDecodeError`), a directory (`IsADirectoryError`)
  or an unreadable file (`PermissionError`) raises none of
  `FileNotFoundError`, `KeyError` or `JSONDecodeError` (main.py:76-84). Such
  a failure escapes the handler as an unhandled server error, without the
  "Invalid JSON data" detail. It is not modelled.
- PriceTable: documents that decode to something other than an object of
  objects are not modelled. Their outcome depends on the shape. If the
  option's value is a list or a string that does not contain the age key,
  the `in` test on main.py:65 is false, so the handled 400 "Premium data not
  found for age N" is raised. If that list or string does contain the key,
  the lookup on main.py:73 raises `TypeError`. A number, boolean or `null`
  under the option, or a list or scalar at the top level, also raises
  `TypeError`. That error escapes as an
  unhandled server error.
- FastAPI app creation, CORS middleware, routing and Pydantic request
  validation (main.py:20-27, 42) are framework wiring and are not modelled.
- Endpoint.GetData: premiums are opaque, so the response model's coercion of
  `medicalPremium` to `float` (main.py:39, 42) is not modelled. A stored
  premium the coercion rejects, such as `null` or `"abc"`, makes the real
  response a 500 after the handler returns. For that table `GetData` still
  returns `Ok`. Its "every failure on a loaded table is a 400" holds only for
  premiums the response model accepts.
- Logging and the debug `print` (main.py:13-17, 46, 77, 80, 83) are side
  effects only.
- Errors.Detail: renders the `KeyError` message as the key between single
  quotes. It does not model Python's `repr` escaping or its switch to double
  quotes for keys that contain a single quote.
- Decimal.ParseDecimal: a reference reader of optional sign and digits, used
  to characterise `str(int)`. It is not Python's `int()`, which also accepts
  whitespace and underscores.
