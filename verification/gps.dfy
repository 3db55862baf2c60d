/** GPS payload validation (`validateGPSData` in functions/index.js): accept a
    reading under one of several historical field-naming conventions, convert
    numeric strings, and reject missing, non-numeric, NaN or out-of-range
    coordinates. */
module Gps {
  import opened Common

  /** A JavaScript number. */
  datatype JsNumber = NaN | Finite(value: real) | PlusInfinity | MinusInfinity

  /** A payload field as JavaScript's `typeof` classifies it. `OtherValue` is
      everything that is neither a number, a string nor `undefined`: `null`,
      booleans, objects and arrays. */
  datatype JsValue = Undefined | Number(n: JsNumber) | Text(s: string) | OtherValue

  /** The fields of a nested `location` object that are consulted. */
  datatype LocationFields = LocationFields(latitude: JsValue, longitude: JsValue, lat: JsValue, lng: JsValue)

  /** The fields of a payload object that are consulted. `location` is `None`
      when the field is absent, falsy or not an object. */
  datatype GpsFields = GpsFields(
    latitude: JsValue, longitude: JsValue,
    lat: JsValue, lng: JsValue, lon: JsValue,
    location: Option<LocationFields>)

  /** The written value: anything falsy or not an object is `NotAnObject`. */
  datatype Payload = NotAnObject | Object(fields: GpsFields)

  datatype GpsError =
    | MissingPayload        // "GPS data is missing or invalid"
    | MissingCoordinates    // "latitude or longitude missing/invalid"
    | NaNCoordinates        // "latitude or longitude are NaN"
    | LatitudeOutOfRange    // "Invalid latitude: ... (must be between -90 and 90)"
    | LongitudeOutOfRange   // "Invalid longitude: ... (must be between -180 and 180)"

  datatype GpsResult = Valid(latitude: real, longitude: real) | Invalid(error: GpsError)

  /** `parseFloat`, left abstract: any string maps to some number (NaN when unparsable). */
  type Parser = string -> JsNumber

  predicate Defined(v: JsValue) { !v.Undefined? }

  /** JavaScript `n < c` for a finite bound `c`; NaN compares false. */
  predicate LessThan(n: JsNumber, c: real)
  {
    match n
    case NaN => false
    case Finite(v) => v < c
    case PlusInfinity => false
    case MinusInfinity => true
  }

  /** JavaScript `n > c` for a finite bound `c`; NaN compares false. */
  predicate GreaterThan(n: JsNumber, c: real)
  {
    match n
    case NaN => false
    case Finite(v) => v > c
    case PlusInfinity => true
    case MinusInfinity => false
  }

  /** The field pair chosen by the chain of `if`s: top-level `latitude/longitude`,
      then `lat/lng`, then `lat/lon`, then the nested `location` object. */
  function SelectPair(f: GpsFields): (r: Option<(JsValue, JsValue)>)
    ensures r == FirstMatch(Conventions(), f)
    ensures r.Some? ==> Defined(r.value.0) && Defined(r.value.1)
  {
    ConventionsInOrder(f);
    if Defined(f.latitude) && Defined(f.longitude) then Some((f.latitude, f.longitude))
    else if Defined(f.lat) && Defined(f.lng) then Some((f.lat, f.lng))
    else if Defined(f.lat) && Defined(f.lon) then Some((f.lat, f.lon))
    else
      match f.location
      case None => None
      case Some(loc) =>
        if Defined(loc.latitude) && Defined(loc.longitude) then Some((loc.latitude, loc.longitude))
        else if Defined(loc.lat) && Defined(loc.lng) then Some((loc.lat, loc.lng))
        else None
  }

  /** One naming convention: the pair when both of its fields are defined. */
  function Both(a: JsValue, b: JsValue): Option<(JsValue, JsValue)>
  {
    if Defined(a) && Defined(b) then Some((a, b)) else None
  }

  /** The naming conventions as an ordered list of extraction strategies. */
  function Conventions(): seq<GpsFields -> Option<(JsValue, JsValue)>>
  {
    [ (f: GpsFields) => Both(f.latitude, f.longitude),
      (f: GpsFields) => Both(f.lat, f.lng),
      (f: GpsFields) => Both(f.lat, f.lon),
      (f: GpsFields) => if f.location.Some? then Both(f.location.value.latitude, f.location.value.longitude) else None,
      (f: GpsFields) => if f.location.Some? then Both(f.location.value.lat, f.location.value.lng) else None ]
  }

  /** The result of the first strategy that matches. */
  function FirstMatch(strategies: seq<GpsFields -> Option<(JsValue, JsValue)>>, f: GpsFields): Option<(JsValue, JsValue)>
  {
    if |strategies| == 0 then None
    else if strategies[0](f).Some? then strategies[0](f)
    else FirstMatch(strategies[1..], f)
  }

  /** Unfolds the strategy list one convention at a time. */
  lemma ConventionsInOrder(f: GpsFields)
    ensures FirstMatch(Conventions(), f) ==
      var loc := f.location;
      if Both(f.latitude, f.longitude).Some? then Both(f.latitude, f.longitude)
      else if Both(f.lat, f.lng).Some? then Both(f.lat, f.lng)
      else if Both(f.lat, f.lon).Some? then Both(f.lat, f.lon)
      else if loc.Some? && Both(loc.value.latitude, loc.value.longitude).Some? then Both(loc.value.latitude, loc.value.longitude)
      else if loc.Some? then Both(loc.value.lat, loc.value.lng)
      else None
  {
    var loc := f.location;
    var c0 := Conventions();
    assert c0[0](f) == Both(f.latitude, f.longitude);
    var c1 := c0[1..];
    assert c1[0](f) == Both(f.lat, f.lng);
    var c2 := c1[1..];
    assert c2[0](f) == Both(f.lat, f.lon);
    var c3 := c2[1..];
    assert c3[0](f) == if loc.Some? then Both(loc.value.latitude, loc.value.longitude) else None;
    var c4 := c3[1..];
    assert c4[0](f) == if loc.Some? then Both(loc.value.lat, loc.value.lng) else None;
    assert FirstMatch(c4[1..], f) == None;
    assert FirstMatch(c4, f) == c4[0](f);
    assert FirstMatch(c3, f) == if c3[0](f).Some? then c3[0](f) else FirstMatch(c4, f);
    assert FirstMatch(c2, f) == if c2[0](f).Some? then c2[0](f) else FirstMatch(c3, f);
    assert FirstMatch(c1, f) == if c1[0](f).Some? then c1[0](f) else FirstMatch(c2, f);
    assert FirstMatch(c0, f) == if c0[0](f).Some? then c0[0](f) else FirstMatch(c1, f);
  }

  /** `typeof` check after the string conversion: strings go through `parse`,
      numbers are kept, anything else is not a number. */
  function ToNumber(v: JsValue, parse: Parser): Option<JsNumber>
  {
    match v
    case Number(n) => Some(n)
    case Text(s) => Some(parse(s))
    case _ => None
  }

  /** The payload reads as the finite coordinates (lat, lng) under the first
      matching naming convention. */
  predicate ReadsAs(f: GpsFields, parse: Parser, lat: real, lng: real)
  {
    var m := FirstMatch(Conventions(), f);
    m.Some? && ToNumber(m.value.0, parse) == Some(Finite(lat)) && ToNumber(m.value.1, parse) == Some(Finite(lng))
  }

  /** The matched pair after the string conversion, when both of its parts
      are numbers (NaN and the infinities included). */
  function Coordinates(f: GpsFields, parse: Parser): Option<(JsNumber, JsNumber)>
  {
    var m := FirstMatch(Conventions(), f);
    if m.Some? && ToNumber(m.value.0, parse).Some? && ToNumber(m.value.1, parse).Some?
    then Some((ToNumber(m.value.0, parse).value, ToNumber(m.value.1, parse).value))
    else None
  }

  /** JavaScript's `v < lo || v > hi` for finite bounds. */
  predicate Outside(n: JsNumber, lo: real, hi: real)
  {
    LessThan(n, lo) || GreaterThan(n, hi)
  }

  predicate InRange(lat: real, lng: real)
  {
    -90.0 <= lat <= 90.0 && -180.0 <= lng <= 180.0
  }

  function ValidateGps(p: Payload, parse: Parser): (r: GpsResult)
    ensures r.Valid? ==> InRange(r.latitude, r.longitude)
    ensures r.Valid? ==> p.Object? && ReadsAs(p.fields, parse, r.latitude, r.longitude)
    ensures forall lat: real, lng: real ::
      p.Object? && ReadsAs(p.fields, parse, lat, lng) && InRange(lat, lng) ==> r == Valid(lat, lng)
    ensures r == Invalid(MissingPayload) <==> p.NotAnObject?
    ensures r == Invalid(MissingCoordinates) <==> p.Object? && Coordinates(p.fields, parse).None?
    ensures r == Invalid(NaNCoordinates) <==>
      && p.Object? && Coordinates(p.fields, parse).Some?
      && var c := Coordinates(p.fields, parse).value;
         c.0.NaN? || c.1.NaN?
    ensures r == Invalid(LatitudeOutOfRange) <==>
      && p.Object? && Coordinates(p.fields, parse).Some?
      && var c := Coordinates(p.fields, parse).value;
         && !c.0.NaN? && !c.1.NaN?
         && Outside(c.0, -90.0, 90.0)
    ensures r == Invalid(LongitudeOutOfRange) <==>
      && p.Object? && Coordinates(p.fields, parse).Some?
      && var c := Coordinates(p.fields, parse).value;
         && !c.0.NaN? && !c.1.NaN?
         && !Outside(c.0, -90.0, 90.0) && Outside(c.1, -180.0, 180.0)
  {
    match p
    case NotAnObject => Invalid(MissingPayload)
    case Object(f) =>
      var pair := SelectPair(f);
      var lat := if pair.Some? then ToNumber(pair.value.0, parse) else None;
      var lng := if pair.Some? then ToNumber(pair.value.1, parse) else None;
      if lat.None? || lng.None? then Invalid(MissingCoordinates)
      else if lat.value.NaN? || lng.value.NaN? then Invalid(NaNCoordinates)
      else if LessThan(lat.value, -90.0) || GreaterThan(lat.value, 90.0) then Invalid(LatitudeOutOfRange)
      else if LessThan(lng.value, -180.0) || GreaterThan(lng.value, 180.0) then Invalid(LongitudeOutOfRange)
      else Valid(lat.value.value, lng.value.value)
  }

  /** A `location` object is consulted only when no top-level pair matched:
      once one did, replacing or removing `location` changes nothing. */
  lemma LocationOnlyAsFallback(f: GpsFields, loc: Option<LocationFields>, parse: Parser)
    requires (Defined(f.latitude) && Defined(f.longitude)) ||
             (Defined(f.lat) && (Defined(f.lng) || Defined(f.lon)))
    ensures ValidateGps(Object(f), parse) == ValidateGps(Object(f.(location := loc)), parse)
  {
  }

  /** A complete `latitude/longitude` pair wins over every abbreviated pair,
      and `lat/lng` wins over `lat/lon`. */
  lemma FieldPrecedence(f: GpsFields)
    ensures Defined(f.latitude) && Defined(f.longitude) ==> SelectPair(f) == Some((f.latitude, f.longitude))
    ensures (!(Defined(f.latitude) && Defined(f.longitude)) && Defined(f.lat) && Defined(f.lng)) ==>
              SelectPair(f) == Some((f.lat, f.lng))
    ensures (!(Defined(f.latitude) && Defined(f.longitude)) && !(Defined(f.lat) && Defined(f.lng)) &&
             Defined(f.lat) && Defined(f.lon)) ==>
              SelectPair(f) == Some((f.lat, f.lon))
  {
  }

  /** `{lat: "10.5", lng: "-20.25"}` normalises to (10.5, -20.25). */
  lemma AbbreviatedStringsExample(parse: Parser)
    requires parse("10.5") == Finite(10.5) && parse("-20.25") == Finite(-20.25)
    ensures ValidateGps(Object(GpsFields(Undefined, Undefined, Text("10.5"), Text("-20.25"), Undefined, None)), parse)
            == Valid(10.5, -20.25)
  {
  }

  /** `{latitude: 95, longitude: 0}` fails the latitude range check, `{}` has
      no coordinates, and an infinite longitude is out of range. */
  lemma RejectionExamples(parse: Parser)
    ensures ValidateGps(Object(GpsFields(Number(Finite(0.0)), Number(PlusInfinity), Undefined, Undefined, Undefined, None)), parse)
            == Invalid(LongitudeOutOfRange)
    ensures ValidateGps(Object(GpsFields(Number(Finite(95.0)), Number(Finite(0.0)), Undefined, Undefined, Undefined, None)), parse)
            == Invalid(LatitudeOutOfRange)
    ensures ValidateGps(Object(GpsFields(Undefined, Undefined, Undefined, Undefined, Undefined, None)), parse)
            == Invalid(MissingCoordinates)
  {
  }

  /** The checks run in the source's order: a matched pair of non-numbers
      (`{latitude: null, longitude: null}`) is missing/invalid, and a NaN
      longitude is reported as NaN even when the latitude is out of range. */
  lemma CheckOrderExamples(parse: Parser)
    requires parse("x") == NaN
    ensures ValidateGps(Object(GpsFields(OtherValue, OtherValue, Undefined, Undefined, Undefined, None)), parse)
            == Invalid(MissingCoordinates)
    ensures ValidateGps(Object(GpsFields(Number(Finite(95.0)), Text("x"), Undefined, Undefined, Undefined, None)), parse)
            == Invalid(NaNCoordinates)
  {
  }
}
