/**
 * The static transport catalogue: per-passenger emission factors keyed by
 * transport identifier, the human respiration factor, and the list of
 * transport types with their display names and icons.
 */
module Catalog {
  import opened Wrappers

  /** One entry of the transport list. */
  datatype TransportType = TransportType(id: string, name: string, icon: string)

  /** kg of CO₂ per passenger per km, keyed by transport identifier. */
  const EMISSION_FACTORS: map<string, real> := map[
    "car" := 0.192,
    "car_electric" := 0.05,
    "motorcycle" := 0.113,
    "bus" := 0.089,
    "train" := 0.014,
    "walking" := 0.0,
    "plane_domestic" := 0.255,
    "plane_international" := 0.195,
    "ship" := 0.019,
    "ferry" := 0.018
  ]

  /** kg of CO₂ exhaled per person per km travelled (1 kg a day over 120 km a day). */
  const HUMAN_RESPIRATION_FACTOR: real := 0.0083

  /** The transport list, in display order: the array literal that the source's
      getTransportTypes returns, given a name here. Icons are spelled with escapes so that
      the variation selector U+FE0F some of them carry is visible. */
  const TRANSPORT_TYPES: seq<TransportType> := [
    TransportType("car", "Carro (Gasolina)", "\U{1F697}"),
    TransportType("car_electric", "Carro Elétrico", "\U{1F699}"),
    TransportType("motorcycle", "Motocicleta", "\U{1F3CD}\U{FE0F}"),
    TransportType("bus", "Ônibus", "\U{1F68C}"),
    TransportType("train", "Trem", "\U{1F682}"),
    TransportType("walking", "Pessoa A Pé", "\U{1F6B6}"),
    TransportType("plane_domestic", "Avião (Voo Doméstico)", "\U{2708}\U{FE0F}"),
    TransportType("plane_international", "Avião (Voo Internacional)", "\U{1F6EB}"),
    TransportType("ship", "Navio/Cruzeiro", "\U{1F6A2}"),
    TransportType("ferry", "Balsa/Ferry", "\U{26F4}\U{FE0F}")
  ]

  /** No two entries of `ts` share an identifier. */
  predicate DistinctIds(ts: seq<TransportType>)
  {
    forall i, j :: 0 <= i < j < |ts| ==> ts[i].id != ts[j].id
  }

  /** Every factor in the table is non-negative, and walking carries none. */
  lemma EmissionFactorsNonNegative()
    ensures forall id :: id in EMISSION_FACTORS ==> EMISSION_FACTORS[id] >= 0.0
    ensures "walking" in EMISSION_FACTORS && EMISSION_FACTORS["walking"] == 0.0
  {
  }

  /** The identifiers of the transport list are pairwise distinct. */
  lemma IdsDistinct()
    ensures DistinctIds(TRANSPORT_TYPES)
  {
    var ts := TRANSPORT_TYPES;
    forall i, j | 0 <= i < j < |ts| ensures ts[i].id != ts[j].id {
      assert ts[i].id[..2] != ts[j].id[..2] || |ts[i].id| != |ts[j].id| || ts[i].id[|ts[i].id| - 1] != ts[j].id[|ts[j].id| - 1];
    }
  }

  /** The identifiers of the transport list are exactly the keys of the factor table. */
  lemma IdsAreKeys()
    ensures EMISSION_FACTORS.Keys == set k | 0 <= k < |TRANSPORT_TYPES| :: TRANSPORT_TYPES[k].id
  {
    var ts := TRANSPORT_TYPES;
    assert EMISSION_FACTORS.Keys == {ts[0].id, ts[1].id, ts[2].id, ts[3].id, ts[4].id, ts[5].id, ts[6].id, ts[7].id, ts[8].id, ts[9].id};
  }

  /** The two tables describe the same transports: the list's identifiers are
      pairwise distinct and are exactly the keys of the factor table. */
  lemma TablesAgree()
    ensures DistinctIds(TRANSPORT_TYPES)
    ensures forall k :: 0 <= k < |TRANSPORT_TYPES| ==> TRANSPORT_TYPES[k].id in EMISSION_FACTORS
    ensures forall id :: id in EMISSION_FACTORS ==> exists k :: 0 <= k < |TRANSPORT_TYPES| && TRANSPORT_TYPES[k].id == id
  {
    IdsDistinct();
    IdsAreKeys();
    var ids := set k | 0 <= k < |TRANSPORT_TYPES| :: TRANSPORT_TYPES[k].id;
    forall k | 0 <= k < |TRANSPORT_TYPES| ensures TRANSPORT_TYPES[k].id in EMISSION_FACTORS {
      assert TRANSPORT_TYPES[k].id in ids;
    }
  }

  /** The factor for a transport; an identifier the table does not know, and the
      falsy stored 0 of walking, both give 0. */
  function GetEmissionFactor(transportType: string): (r: real)
    ensures transportType in EMISSION_FACTORS ==> r == EMISSION_FACTORS[transportType]
    ensures transportType !in EMISSION_FACTORS ==> r == 0.0
    ensures r >= 0.0
  {
    EmissionFactorsNonNegative();
    if transportType in EMISSION_FACTORS && EMISSION_FACTORS[transportType] != 0.0 then
      EMISSION_FACTORS[transportType]
    else
      0.0
  }

  /** The human respiration factor, a positive constant. */
  function GetHumanRespirationFactor(): (r: real)
    ensures r == 0.0083
    ensures r > 0.0
  {
    HUMAN_RESPIRATION_FACTOR
  }

  /** The whole factor table: its keys are the identifiers of the transport list and
      each value is the factor the lookup gives. */
  function GetAllEmissionFactors(): (m: map<string, real>)
    ensures m.Keys == set k | 0 <= k < |TRANSPORT_TYPES| :: TRANSPORT_TYPES[k].id
    ensures forall id :: id in m ==> m[id] >= 0.0
    ensures forall id :: id in m ==> m[id] == GetEmissionFactor(id)
    ensures m == EMISSION_FACTORS
  {
    TablesAgree();
    EmissionFactorsNonNegative();
    EMISSION_FACTORS
  }

  /** The transport list: its identifiers are pairwise distinct and are exactly the
      keys of the factor table. */
  function GetTransportTypes(): (ts: seq<TransportType>)
    ensures |ts| == 10
    ensures DistinctIds(ts)
    ensures forall k :: 0 <= k < |ts| ==> ts[k].id in EMISSION_FACTORS
    ensures (set k | 0 <= k < |ts| :: ts[k].id) == EMISSION_FACTORS.Keys
    ensures ts == TRANSPORT_TYPES
  {
    TablesAgree();
    IdsAreKeys();
    TRANSPORT_TYPES
  }

  /** The position of the first entry of `ts` whose identifier is `id`. */
  function FirstIndex(ts: seq<TransportType>, id: string): (r: Option<nat>)
    ensures r.None? <==> forall k :: 0 <= k < |ts| ==> ts[k].id != id
    ensures r.Some? ==> r.value < |ts| && ts[r.value].id == id
    ensures r.Some? ==> forall j :: 0 <= j < r.value ==> ts[j].id != id
  {
    if ts == [] then None
    else if ts[0].id == id then Some(0)
    else
      match FirstIndex(ts[1..], id)
      case None => None
      case Some(k) => Some(k + 1)
  }

  /** The first entry of `ts` whose identifier is `id`, as a search of the list
      from its front returns it. */
  function Find(ts: seq<TransportType>, id: string): (r: Option<TransportType>)
    ensures r.None? <==> forall k :: 0 <= k < |ts| ==> ts[k].id != id
    ensures r.Some? ==> r.value in ts && r.value.id == id
    ensures r.Some? ==> exists k :: 0 <= k < |ts| && r.value == ts[k] && forall j :: 0 <= j < k ==> ts[j].id != id
    ensures DistinctIds(ts) ==> forall k :: 0 <= k < |ts| && ts[k].id == id ==> r == Some(ts[k])
  {
    match FirstIndex(ts, id)
    case None => None
    case Some(k) => Some(ts[k])
  }

  /** An identifier is in the factor table exactly when the transport list has
      an entry for it. */
  lemma KnownIffListed(id: string)
    ensures id in EMISSION_FACTORS <==> Find(GetTransportTypes(), id).Some?
  {
    TablesAgree();
  }

  /** The display name of a transport, or the identifier itself when it is not listed. */
  function GetTransportName(transportId: string): (r: string)
    ensures forall k :: 0 <= k < |TRANSPORT_TYPES| && TRANSPORT_TYPES[k].id == transportId ==> r == TRANSPORT_TYPES[k].name
    ensures (forall k :: 0 <= k < |TRANSPORT_TYPES| ==> TRANSPORT_TYPES[k].id != transportId) ==> r == transportId
    ensures transportId !in EMISSION_FACTORS ==> r == transportId
  {
    KnownIffListed(transportId);
    match Find(GetTransportTypes(), transportId)
    case Some(t) => t.name
    case None => transportId
  }

  /** The icon of a transport, or the empty string when it is not listed. */
  function GetTransportIcon(transportId: string): (r: string)
    ensures forall k :: 0 <= k < |TRANSPORT_TYPES| && TRANSPORT_TYPES[k].id == transportId ==> r == TRANSPORT_TYPES[k].icon
    ensures (forall k :: 0 <= k < |TRANSPORT_TYPES| ==> TRANSPORT_TYPES[k].id != transportId) ==> r == ""
    ensures transportId !in EMISSION_FACTORS ==> r == ""
  {
    KnownIffListed(transportId);
    match Find(GetTransportTypes(), transportId)
    case Some(t) => t.icon
    case None => ""
  }

  /** Icon, a space and the display name of a transport, or the identifier itself
      when it is not listed. */
  function GetTransportNameWithIcon(transportId: string): (r: string)
    ensures forall k :: 0 <= k < |TRANSPORT_TYPES| && TRANSPORT_TYPES[k].id == transportId ==>
      r == TRANSPORT_TYPES[k].icon + " " + TRANSPORT_TYPES[k].name
    ensures (forall k :: 0 <= k < |TRANSPORT_TYPES| ==> TRANSPORT_TYPES[k].id != transportId) ==> r == transportId
    ensures transportId !in EMISSION_FACTORS ==> r == transportId
  {
    KnownIffListed(transportId);
    match Find(GetTransportTypes(), transportId)
    case Some(t) => t.icon + " " + t.name
    case None => transportId
  }

  /** The three lookups agree: for a known transport the combined label is the
      icon, a space and the name; for an unknown one the label and the name are
      the identifier and the icon is empty. */
  lemma LabelsConsistent(transportId: string)
    ensures transportId in EMISSION_FACTORS ==>
      GetTransportNameWithIcon(transportId) == GetTransportIcon(transportId) + " " + GetTransportName(transportId)
    ensures transportId !in EMISSION_FACTORS ==>
      GetTransportNameWithIcon(transportId) == GetTransportName(transportId) == transportId && GetTransportIcon(transportId) == ""
  {
    KnownIffListed(transportId);
  }

  /** The petrol car's label as the catalogue documents it. */
  lemma CarExample()
    ensures GetTransportNameWithIcon("car") == "\U{1F697} Carro (Gasolina)"
  {
    var car := TRANSPORT_TYPES[0];
    assert car.id == "car";
    assert GetTransportNameWithIcon("car") == car.icon + " " + car.name;
    assert car.icon + " " + car.name == "\U{1F697} Carro (Gasolina)";
  }

  /** The petrol car's factor. */
  lemma CarFactor()
    ensures GetEmissionFactor("car") == 0.192
  {
    assert EMISSION_FACTORS["car"] == 0.192;
  }

  /** Walking has a factor of zero and its own display name. */
  lemma WalkingExample()
    ensures GetEmissionFactor("walking") == 0.0
    ensures GetTransportName("walking") == "Pessoa A Pé"
  {
    EmissionFactorsNonNegative();
    assert TRANSPORT_TYPES[5].id == "walking";
  }

  /** An identifier outside the catalogue falls back on every lookup. */
  lemma UnknownExample()
    ensures GetEmissionFactor("rocket") == 0.0
    ensures GetTransportName("rocket") == "rocket"
    ensures GetTransportIcon("rocket") == ""
  {
    IdsAreKeys();
    forall k | 0 <= k < |TRANSPORT_TYPES| ensures TRANSPORT_TYPES[k].id != "rocket" {
      assert TRANSPORT_TYPES[k].id[..1] != "r" || |TRANSPORT_TYPES[k].id| != 6;
    }
  }
}
