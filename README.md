# CO₂ trip calculator — Dafny model

A model of the calculation core of a browser form that estimates the CO₂ a trip between
two cities emits. The form looks up a per-passenger emission factor for the chosen transport.
It then checks the distance and the factor. Last, it computes the trip's total emission and
a per-person breakdown into transport and human respiration.

- `wrappers.dfy`: module `Wrappers`, an `Option` for a distance that could not be determined.
- `catalog.dfy`: module `Catalog`, the static transport catalogue of `js/config.js`. It holds
  the factor table `EMISSION_FACTORS`, the respiration factor `HUMAN_RESPIRATION_FACTOR`, the
  transport list with names and icons, and the lookups over them. The source's list is an
  unnamed array literal returned by `getTransportTypes` (js/config.js:65-76); the model names
  it `TRANSPORT_TYPES`. `Array.find` is modelled
  by `FirstIndex` (the first matching position) and `Find` (the entry there).
- `calculator.dfy`: module `Calculator`, the emission model, display strings, tree count and
  parameter validator of `js/calculator.js`. `Collapsed` names the guards under which both
  emission functions return zero. The validator's failure messages are the source's own
  Portuguese strings.

Numbers are exact `real`s, not IEEE doubles. `people` is an `int`. The default arguments of
the source (`people = 1`, `transportId = ''`, `humanRespirationFactor = 0.0083`,
`decimals = 2`) are Dafny default parameters.

The total `CalculateCO2Emission` divides the transport's emission among the travellers and
multiplies the respiration by their number. So it is neither one person's emission nor the
group's. `TotalIsScaledBreakdownOnlyForOne` proves that, past the guards (when `Collapsed` does not hold), it equals the per-person total times
the group size only for one traveller or for a transport that emits nothing. The source's
inline comments describe this split as deliberate, so the model keeps both formulas as written.

## Model

| member | source | states |
|---|---|---|
| `Catalog.EMISSION_FACTORS` | js/config.js:12-28 | the ten transport ids with their factors in kg CO₂ per passenger per km |
| `Catalog.HUMAN_RESPIRATION_FACTOR` | js/config.js:33 | 0.0083 kg CO₂ per person per km |
| `Catalog.TRANSPORT_TYPES` | js/config.js:65-76 | the ten entries (id, name, icon) of the array literal `getTransportTypes` returns, in order |
| `Catalog.EmissionFactorsNonNegative` | js/config.js:12-28 | every factor in the table is ≥ 0, and `walking` maps to 0 |
| `Catalog.IdsDistinct` | js/config.js:64-77 | no two transport list entries share an id |
| `Catalog.IdsAreKeys` | js/config.js:12-77 | the set of list ids is exactly the key set of the factor table |
| `Catalog.TablesAgree` | js/config.js:12-77 | list ids are pairwise distinct, each is a table key, and each table key is some entry's id |
| `Catalog.GetEmissionFactor` | js/config.js:40-42 | the table value for a known id, 0 for an unknown id, never negative |
| `Catalog.GetHumanRespirationFactor` | js/config.js:33-50 | always 0.0083, a positive factor |
| `Catalog.GetAllEmissionFactors` | js/config.js:56-58 | the factor table itself: its keys are the list ids, and each value is ≥ 0 and equals `GetEmissionFactor` of its key |
| `Catalog.GetTransportTypes` | js/config.js:64-77 | the ten entries of the list literal, whose ids are pairwise distinct and are exactly the keys of the factor table |
| `Catalog.FirstIndex` | js/config.js:84-88 | `None` iff no entry has the id; otherwise an in-range position holding the id with no earlier entry holding it |
| `Catalog.Find` | js/config.js:84-88 | `None` iff no entry has the id; otherwise the first entry of the list with that id, and with distinct ids the unique such entry |
| `Catalog.KnownIffListed` | js/config.js:12-88 | an id is a key of the factor table iff the list search finds it |
| `Catalog.GetTransportName` | js/config.js:84-88 | the name of the entry with the id; the id itself for an id outside the catalogue |
| `Catalog.GetTransportIcon` | js/config.js:95-99 | the icon of the entry with the id; `""` for an id outside the catalogue |
| `Catalog.GetTransportNameWithIcon` | js/config.js:106-110 | icon, space and name of the entry with the id; the id itself for an id outside the catalogue |
| `Catalog.LabelsConsistent` | js/config.js:84-110 | known id: label == icon + " " + name; unknown id: label == name == id and icon is empty |
| `Catalog.CarExample` | js/config.js:104-110 | `car` is labelled "🚗 Carro (Gasolina)" |
| `Catalog.CarFactor` | js/config.js:14-42 | the factor of `car` is 0.192 |
| `Catalog.WalkingExample` | js/config.js:12-88 | `walking` has factor 0 and name "Pessoa A Pé" |
| `Catalog.UnknownExample` | js/config.js:40-99 | an id outside the catalogue gets factor 0, itself as name and an empty icon |
| `Calculator.Collapsed` | js/calculator.js:20-31 | the guards shared by both emission functions (distance ≤ 0, people < 1, a negative factor, walking); the same guards stand at js/calculator.js:57-80 |
| `Calculator.CalculateCO2Emission` | js/calculator.js:19-43 | 0 under every guard (distance ≤ 0, people < 1, a negative factor, walking); never negative; positive iff no guard holds and some factor is positive |
| `Calculator.CalculateDetailedEmissionPerPerson` | js/calculator.js:56-96 | all-zero under the same guards; total = transport + human; both parts ≥ 0; otherwise human = d·h (independent of people) and transport·people = d·f |
| `Calculator.WalkingEmitsNothing` | js/calculator.js:28-80 | `walking` gives total 0 and the all-zero breakdown whatever the other inputs |
| `Calculator.TotalFromBreakdown` | js/calculator.js:33-89 | for all inputs the total equals transportPerPerson + humanPerPerson · people |
| `Calculator.SingleTravellerTotal` | js/calculator.js:19-96 | with one traveller the total equals totalPerPerson |
| `Calculator.TotalIsScaledBreakdownOnlyForOne` | js/calculator.js:33-89 | past the guards, total == totalPerPerson · people iff people == 1 or the transport factor is 0 |
| `Calculator.TransportShareFallsWithGroupSize` | js/calculator.js:82-86 | past the guards, more people never raise transportPerPerson, strictly lower it when the factor is positive, and leave humanPerPerson unchanged |
| `Calculator.CarTripForTwo` | js/calculator.js:19-96 | 429 km by car (0.192) for two: breakdown 41.184 / 3.5607 / 44.7447, total 48.3054 |
| `Calculator.CalculateTreesNeeded` | js/calculator.js:135-138 | the least integer n with 22·n ≥ emission |
| `Calculator.TreesMonotonic` | js/calculator.js:135-138 | more emission never needs fewer trees |
| `Calculator.TreesExamples` | js/calculator.js:135-138 | 0 → 0, 22 → 1, 23 → 2, 44 → 2 trees |
| `Calculator.FormatEmission` | js/calculator.js:105-112 | exactly 0 shows as "0 kg CO₂"; otherwise the rendered value plus " kg CO₂"; always ends in " kg CO₂" |
| `Calculator.FormatDistance` | js/calculator.js:120-126 | a distance ≤ 0 shows as "0 km"; otherwise the rendered value plus " km"; always ends in " km" |
| `Calculator.ValidateCalculationParams` | js/calculator.js:147-183 | valid iff the distance is present and positive and the factor is ≥ 0 (zero factor accepted); message empty iff valid; the first failing check, in the source's order, picks the message |
| `Calculator.MessagesDistinct` | js/calculator.js:147-175 | the four failure messages differ, so the message names the failed check |
| `Calculator.ValidatorMatchesGuards` | js/calculator.js:147-183 | for people ≥ 1, a non-walking id and a respiration factor ≥ 0, the validator accepts exactly when the emission guards let the formula run |
| `Calculator.CatalogueFactorAccepted` | js/app.js:103-118 | a factor from the catalogue never draws the negative-factor message |
| `Calculator.ValidTripEmission` | js/app.js:103-138 | a validated trip with catalogue factors emits a positive total iff it is not a walk, and its breakdown is all zero iff it is a walk |

## Left out

- `FormatEmission`: does not model `Number.prototype.toFixed`. The non-zero branch takes the rendering function as a parameter, because decimal rounding of IEEE doubles is outside a model over exact reals.
- `FormatDistance`: does not model JavaScript's number-to-string conversion. The template string's rendering of the distance is a parameter.
- IEEE-754 behaviour: NaN inputs that pass the `<`/`<=` guards, `-0`, rounding of the arithmetic, and `Math.ceil` on doubles. Numbers are exact reals.
- JavaScript coercions: `|| 0` on a non-number and prototype keys such as `EMISSION_FACTORS["toString"]`. The model's table holds only its ten keys. A non-numeric `people` cannot arise, because `people` is an `int`.
- `validateCalculationParams` treats `null` and `undefined` alike (js/calculator.js:148); both are `None` here.
- js/ui.js: DOM work, `getFormData`, `validateForm` (reads its input through the DOM), `displayResult`, and the timed auto-hide of messages.
- js/app.js: event wiring and `handleFormSubmit`. Only the order in which it calls the core is reflected, in `CatalogueFactorAccepted` and `ValidTripEmission`.
- The distance table between capitals (`getDistanceBetweenCapitals`, `getAllCapitals`) is not part of this model. The distance is an input.
