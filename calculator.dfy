/**
 * The CO₂ trip calculator: total and per-person emission of a trip, the
 * display strings for emissions and distances, the number of trees that
 * offset an emission, and the validation of the calculation's inputs.
 *
 * Numbers are exact reals; a distance that could not be determined is `None`.
 */
module Calculator {
  import opened Wrappers
  import Catalog

  /** The transport identifier whose trips carry no emission at all. */
  const WALKING: string := "walking"

  /** kg of CO₂ one tree absorbs in a year. */
  const CO2_PER_TREE_PER_YEAR: int := 22

  /** The inputs on which both emission functions return zero without computing:
      no distance, nobody travelling, a negative factor, or a walk. */
  predicate Collapsed(distance: real, transportEmissionFactor: real, people: int, transportId: string, humanRespirationFactor: real)
  {
    distance <= 0.0 || people < 1 || transportEmissionFactor < 0.0 || humanRespirationFactor < 0.0 || transportId == WALKING
  }

  // ---------------------------------------------------------------------------
  // Emission model
  // ---------------------------------------------------------------------------

  /** Emission of a trip in kg of CO₂: the transport's emission shared among the
      travellers plus the respiration of every traveller. */
  function CalculateCO2Emission(distance: real, transportEmissionFactor: real, people: int := 1,
                                transportId: string := "", humanRespirationFactor: real := 0.0083): (r: real)
    ensures Collapsed(distance, transportEmissionFactor, people, transportId, humanRespirationFactor) ==> r == 0.0
    ensures r >= 0.0
    ensures r > 0.0 <==>
      !Collapsed(distance, transportEmissionFactor, people, transportId, humanRespirationFactor) &&
      (transportEmissionFactor > 0.0 || humanRespirationFactor > 0.0)
  {
    if distance <= 0.0 || people < 1 then 0.0
    else if transportEmissionFactor < 0.0 || humanRespirationFactor < 0.0 then 0.0
    else if transportId == WALKING then 0.0
    else
      var transportEmission := (distance * transportEmissionFactor) / (people as real);
      var humanEmission := distance * humanRespirationFactor * (people as real);
      PositiveQuotient(distance * transportEmissionFactor, people as real);
      transportEmission + humanEmission
  }

  /** A non-negative amount shared among a positive number of parts stays
      non-negative, and positive when the amount is. */
  lemma PositiveQuotient(x: real, y: real)
    requires x >= 0.0 && y > 0.0
    ensures x / y >= 0.0
    ensures x > 0.0 ==> x / y > 0.0
  {
  }

  /** The product of two positive quantities is positive. */
  lemma PositiveProduct(x: real, y: real)
    requires x > 0.0 && y > 0.0
    ensures x * y > 0.0
  {
  }

  /** Per-person emission split between transport and respiration. */
  datatype EmissionBreakdown = EmissionBreakdown(transportPerPerson: real, humanPerPerson: real, totalPerPerson: real)

  const ZERO_BREAKDOWN: EmissionBreakdown := EmissionBreakdown(0.0, 0.0, 0.0)

  /** Per-person emission of a trip: the transport's share of one traveller and
      that traveller's own respiration, which does not depend on the group size. */
  function CalculateDetailedEmissionPerPerson(distance: real, transportEmissionFactor: real, people: int := 1,
                                              transportId: string := "", humanRespirationFactor: real := 0.0083): (b: EmissionBreakdown)
    ensures Collapsed(distance, transportEmissionFactor, people, transportId, humanRespirationFactor) ==> b == ZERO_BREAKDOWN
    ensures b.totalPerPerson == b.transportPerPerson + b.humanPerPerson
    ensures b.transportPerPerson >= 0.0 && b.humanPerPerson >= 0.0
    ensures !Collapsed(distance, transportEmissionFactor, people, transportId, humanRespirationFactor) ==>
      b.humanPerPerson == distance * humanRespirationFactor &&
      b.transportPerPerson * (people as real) == distance * transportEmissionFactor
  {
    if distance <= 0.0 || people < 1 then ZERO_BREAKDOWN
    else if transportEmissionFactor < 0.0 || humanRespirationFactor < 0.0 then ZERO_BREAKDOWN
    else if transportId == WALKING then ZERO_BREAKDOWN
    else
      var transportPerPerson := (distance * transportEmissionFactor) / (people as real);
      var humanPerPerson := distance * humanRespirationFactor;
      PositiveQuotient(distance * transportEmissionFactor, people as real);
      EmissionBreakdown(transportPerPerson, humanPerPerson, transportPerPerson + humanPerPerson)
  }

  /** Walking zeroes both results whatever the other inputs are. */
  lemma WalkingEmitsNothing(distance: real, transportEmissionFactor: real, people: int, humanRespirationFactor: real)
    ensures CalculateCO2Emission(distance, transportEmissionFactor, people, WALKING, humanRespirationFactor) == 0.0
    ensures CalculateDetailedEmissionPerPerson(distance, transportEmissionFactor, people, WALKING, humanRespirationFactor) == ZERO_BREAKDOWN
  {
  }

  /** The total's respiration term is the per-person respiration times the group
      size, and its transport term is the per-person transport share. */
  lemma TotalFromBreakdown(distance: real, transportEmissionFactor: real, people: int, transportId: string, humanRespirationFactor: real)
    ensures var b := CalculateDetailedEmissionPerPerson(distance, transportEmissionFactor, people, transportId, humanRespirationFactor);
      CalculateCO2Emission(distance, transportEmissionFactor, people, transportId, humanRespirationFactor) ==
      b.transportPerPerson + b.humanPerPerson * (people as real)
  {
  }

  /** For one traveller the total equals the per-person total. */
  lemma SingleTravellerTotal(distance: real, transportEmissionFactor: real, transportId: string, humanRespirationFactor: real)
    ensures CalculateCO2Emission(distance, transportEmissionFactor, 1, transportId, humanRespirationFactor) ==
      CalculateDetailedEmissionPerPerson(distance, transportEmissionFactor, 1, transportId, humanRespirationFactor).totalPerPerson
  {
  }

  /** The total is not the per-person total times the group size: the two agree
      exactly when there is one traveller or the transport emits nothing. */
  lemma TotalIsScaledBreakdownOnlyForOne(distance: real, transportEmissionFactor: real, people: int,
                                          transportId: string, humanRespirationFactor: real)
    requires !Collapsed(distance, transportEmissionFactor, people, transportId, humanRespirationFactor)
    ensures var b := CalculateDetailedEmissionPerPerson(distance, transportEmissionFactor, people, transportId, humanRespirationFactor);
      CalculateCO2Emission(distance, transportEmissionFactor, people, transportId, humanRespirationFactor) == b.totalPerPerson * (people as real)
      <==> people == 1 || transportEmissionFactor == 0.0
  {
    var p := people as real;
    var t := distance * transportEmissionFactor;
    var b := CalculateDetailedEmissionPerPerson(distance, transportEmissionFactor, people, transportId, humanRespirationFactor);
    var total := CalculateCO2Emission(distance, transportEmissionFactor, people, transportId, humanRespirationFactor);
    assert total == t / p + b.humanPerPerson * p;
    assert b.totalPerPerson * p == t + b.humanPerPerson * p by {
      assert b.transportPerPerson * p == t;
    }
    if people != 1 && transportEmissionFactor != 0.0 {
      assert t > 0.0 && p > 1.0;
      PositiveQuotient(t, p);
      var share := t / p;
      var excess := share * (p - 1.0);
      assert share * p == t;
      PositiveProduct(share, p - 1.0);
      assert share * p == excess + share;
      assert share < t;
    }
  }

  /** A larger group never raises one traveller's transport share, strictly
      lowers it when the transport emits, and leaves the respiration untouched. */
  lemma TransportShareFallsWithGroupSize(distance: real, transportEmissionFactor: real, people: int, morePeople: int,
                                         transportId: string, humanRespirationFactor: real)
    requires !Collapsed(distance, transportEmissionFactor, people, transportId, humanRespirationFactor)
    requires people < morePeople
    ensures var b := CalculateDetailedEmissionPerPerson(distance, transportEmissionFactor, people, transportId, humanRespirationFactor);
      var c := CalculateDetailedEmissionPerPerson(distance, transportEmissionFactor, morePeople, transportId, humanRespirationFactor);
      c.transportPerPerson <= b.transportPerPerson &&
      (transportEmissionFactor > 0.0 ==> c.transportPerPerson < b.transportPerPerson) &&
      c.humanPerPerson == b.humanPerPerson
  {
  }

  /** The worked example of a 429 km car trip for two. */
  lemma CarTripForTwo()
    ensures CalculateDetailedEmissionPerPerson(429.0, 0.192, 2, "car", 0.0083) == EmissionBreakdown(41.184, 3.5607, 44.7447)
    ensures CalculateCO2Emission(429.0, 0.192, 2, "car", 0.0083) == 48.3054
  {
  }

  /** The number of trees that absorb `emission` kg of CO₂ in a year: the least
      integer whose trees absorb at least that much. */
  function CalculateTreesNeeded(emission: real): (n: int)
    ensures (CO2_PER_TREE_PER_YEAR * n) as real >= emission
    ensures ((CO2_PER_TREE_PER_YEAR * (n - 1)) as real) < emission
  {
    -((-(emission / (CO2_PER_TREE_PER_YEAR as real))).Floor)
  }

  /** More emission never needs fewer trees. */
  lemma TreesMonotonic(emission: real, moreEmission: real)
    requires emission <= moreEmission
    ensures CalculateTreesNeeded(emission) <= CalculateTreesNeeded(moreEmission)
  {
  }

  /** The ceiling at the tree boundaries. */
  lemma TreesExamples()
    ensures CalculateTreesNeeded(0.0) == 0
    ensures CalculateTreesNeeded(22.0) == 1
    ensures CalculateTreesNeeded(23.0) == 2
    ensures CalculateTreesNeeded(44.0) == 2
  {
  }

  // ---------------------------------------------------------------------------
  // Display strings
  // ---------------------------------------------------------------------------

  const EMISSION_UNIT: string := " kg CO₂"
  const DISTANCE_UNIT: string := " km"

  /** An emission for display. Exactly zero shows as "0 kg CO₂"; any other value
      is rendered by `toFixed` with `decimals` places and given the unit. */
  function FormatEmission(emission: real, toFixed: (real, int) -> string, decimals: int := 2): (s: string)
    ensures emission == 0.0 ==> s == "0 kg CO₂"
    ensures emission != 0.0 ==> s == toFixed(emission, decimals) + EMISSION_UNIT
    ensures |s| >= |EMISSION_UNIT| && s[|s| - |EMISSION_UNIT|..] == EMISSION_UNIT
  {
    if emission == 0.0 then "0" + EMISSION_UNIT
    else toFixed(emission, decimals) + EMISSION_UNIT
  }

  /** A distance for display. A non-positive distance shows as "0 km"; any other
      value is rendered by `render` and given the unit. */
  function FormatDistance(distance: real, render: real -> string): (s: string)
    ensures distance <= 0.0 ==> s == "0 km"
    ensures distance > 0.0 ==> s == render(distance) + DISTANCE_UNIT
    ensures |s| >= |DISTANCE_UNIT| && s[|s| - |DISTANCE_UNIT|..] == DISTANCE_UNIT
  {
    if distance <= 0.0 then "0" + DISTANCE_UNIT
    else render(distance) + DISTANCE_UNIT
  }

  // ---------------------------------------------------------------------------
  // Input validation
  // ---------------------------------------------------------------------------

  /** Outcome of validation: the message is empty exactly when the inputs are valid. */
  datatype ValidationResult = ValidationResult(isValid: bool, message: string)

  const MSG_NO_DISTANCE: string := "Não foi possível calcular a distância entre as cidades selecionadas."
  const MSG_NEGATIVE_DISTANCE: string := "A distância não pode ser negativa."
  const MSG_SAME_CITY: string := "A origem e o destino não podem ser a mesma cidade."
  const MSG_NEGATIVE_FACTOR: string := "O fator de emissão não pode ser negativo."

  /** Checks a distance and an emission factor in order; the first failing check
      decides the message. A zero factor is accepted. */
  function ValidateCalculationParams(distance: Option<real>, emissionFactor: real): (r: ValidationResult)
    ensures r.isValid <==> distance.Some? && distance.value > 0.0 && emissionFactor >= 0.0
    ensures r.isValid <==> r.message == ""
    ensures distance.None? ==> r.message == MSG_NO_DISTANCE
    ensures distance.Some? && distance.value < 0.0 ==> r.message == MSG_NEGATIVE_DISTANCE
    ensures distance == Some(0.0) ==> r.message == MSG_SAME_CITY
    ensures distance.Some? && distance.value > 0.0 && emissionFactor < 0.0 ==> r.message == MSG_NEGATIVE_FACTOR
  {
    if distance.None? then ValidationResult(false, MSG_NO_DISTANCE)
    else if distance.value < 0.0 then ValidationResult(false, MSG_NEGATIVE_DISTANCE)
    else if distance.value == 0.0 then ValidationResult(false, MSG_SAME_CITY)
    else if emissionFactor < 0.0 then ValidationResult(false, MSG_NEGATIVE_FACTOR)
    else ValidationResult(true, "")
  }

  /** The four failure messages are distinct, so a message names the check that failed. */
  lemma MessagesDistinct()
    ensures MSG_NO_DISTANCE != MSG_NEGATIVE_DISTANCE && MSG_NO_DISTANCE != MSG_SAME_CITY && MSG_NO_DISTANCE != MSG_NEGATIVE_FACTOR
    ensures MSG_NEGATIVE_DISTANCE != MSG_SAME_CITY && MSG_NEGATIVE_DISTANCE != MSG_NEGATIVE_FACTOR
    ensures MSG_SAME_CITY != MSG_NEGATIVE_FACTOR
  {
  }

  /** The validator's checks and the calculator's guards agree: for one or more
      travellers on a non-walking transport with a non-negative respiration
      factor, the inputs are valid exactly when the calculator computes. */
  lemma ValidatorMatchesGuards(distance: real, emissionFactor: real, people: int, transportId: string, humanRespirationFactor: real)
    requires people >= 1 && transportId != WALKING && humanRespirationFactor >= 0.0
    ensures ValidateCalculationParams(Some(distance), emissionFactor).isValid <==>
      !Collapsed(distance, emissionFactor, people, transportId, humanRespirationFactor)
  {
  }

  /** A factor taken from the catalogue never fails the factor check. */
  lemma CatalogueFactorAccepted(distance: Option<real>, transportId: string)
    ensures ValidateCalculationParams(distance, Catalog.GetEmissionFactor(transportId)).message != MSG_NEGATIVE_FACTOR
  {
  }

  /** A trip that passes validation with a catalogue factor and the catalogue's
      respiration factor emits something unless it is a walk, in which case it
      emits nothing; its breakdown is then all zero exactly for a walk. */
  lemma ValidTripEmission(distance: real, transportId: string, people: int)
    requires ValidateCalculationParams(Some(distance), Catalog.GetEmissionFactor(transportId)).isValid
    requires people >= 1
    ensures var e := CalculateCO2Emission(distance, Catalog.GetEmissionFactor(transportId), people, transportId, Catalog.GetHumanRespirationFactor());
      e > 0.0 <==> transportId != WALKING
    ensures var b := CalculateDetailedEmissionPerPerson(distance, Catalog.GetEmissionFactor(transportId), people, transportId, Catalog.GetHumanRespirationFactor());
      b == ZERO_BREAKDOWN <==> transportId == WALKING
  {
  }
}
