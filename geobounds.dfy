/**
 * The `geobounds` field type of the data-object class definitions: a
 * bounding box given by its north-east and south-west corners, and the
 * conversions of that value between storage columns, the editor payload,
 * CSV text, the version preview and the packed two-slot encoding, together
 * with equality and validation.
 *
 * The field's name and its mandatory flag, which the PHP class reads from the
 * field definition, are parameters here.
 */
module GeoboundsField {
  import opened Wrappers
  import opened Php

  /** A corner, built as `GeoCoordinates(latitude, longitude)`: latitude first. */
  datatype GeoCoordinates = GeoCoordinates(latitude: Value, longitude: Value)

  /** Back-reference to the record holding the value; never part of its identity. */
  datatype OwnerContext = OwnerContext(owner: nat, fieldname: Value, language: Value)

  /** A bounding box value with the owner context attached after construction, if any. */
  datatype Geobounds = Geobounds(northEast: GeoCoordinates, southWest: GeoCoordinates, ownerContext: Option<OwnerContext>)

  /**
   * What the field may be handed: a Geobounds object, a scalar, an instance
   * of some other class, or an array with `count` entries. A Geobounds object
   * is always `Bounds`; `Instance` stands for objects of every other class.
   */
  datatype Data = Bounds(bounds: Geobounds) | Scalar(v: Value) | Instance(className: string) | Array(count: nat)

  /** The `$params` array of the read paths; a missing entry is `Null` / `None`. */
  datatype Params = Params(owner: Option<nat>, fieldname: Value, language: Value)

  /** A storage (or query) row: column name to column value. */
  type Row = map<string, Value>

  /** The editor (and grid) payload, keyed `NElongitude`, `NElatitude`, `SWlongitude`, `SWlatitude`; a missing key is `Null`. */
  datatype EditPayload = EditPayload(neLongitude: Value, neLatitude: Value, swLongitude: Value, swLatitude: Value)

  /**
   * One slot of the packed encoding: `Empty` when the slot is missing, null
   * or a falsy string, `Json(items)` for the JSON text of the array `items`.
   */
  datatype Slot = Empty | Json(items: seq<Value>)

  /** The packed encoding: two slots, `value` and `value2`. */
  datatype Packed = Packed(value: Slot, value2: Slot)

  /** The outcome of validation; `Invalid` is a thrown ValidationException. */
  datatype Validity = Valid | Invalid(message: string)

  const NeLongitude := "NElongitude"
  const NeLatitude := "NElatitude"
  const SwLongitude := "SWlongitude"
  const SwLatitude := "SWlatitude"

  const TypeMismatchMessage := "Expected an instance of Geobounds"

  /** The storage column of one component: `<name>__<suffix>`. */
  function Column(name: string, suffix: string): (key: string)
    ensures |key| == |name| + 2 + |suffix|
    ensures key[..|name|] == name && key[|name|..|name| + 2] == "__" && key[|name| + 2..] == suffix
  {
    name + "__" + suffix
  }

  /** The four storage columns of a field. */
  function Columns(name: string): set<string>
  {
    {Column(name, NeLongitude), Column(name, NeLatitude), Column(name, SwLongitude), Column(name, SwLatitude)}
  }

  /** For every name the four storage columns are distinct. */
  lemma ColumnsDistinct(name: string)
    ensures Column(name, NeLongitude) != Column(name, NeLatitude)
    ensures Column(name, NeLongitude) != Column(name, SwLongitude)
    ensures Column(name, NeLongitude) != Column(name, SwLatitude)
    ensures Column(name, NeLatitude) != Column(name, SwLongitude)
    ensures Column(name, NeLatitude) != Column(name, SwLatitude)
    ensures Column(name, SwLongitude) != Column(name, SwLatitude)
    ensures |Columns(name)| == 4
  {
  }

  /** `$data[$key]`, with a missing key read as null. */
  function Get(row: Row, key: string): Value
  {
    if key in row then row[key] else Null
  }

  /** PHP truthiness of whatever the field is handed: objects always, arrays when non-empty. */
  predicate DataTruthy(d: Data)
  {
    match d
    case Bounds(_) => true
    case Scalar(v) => Truthy(v)
    case Instance(_) => true
    case Array(n) => n > 0
  }

  /** The four components of a bounds value, keyed as the editor payload (and `isEqual`) key them. */
  function Fields(b: Geobounds): EditPayload
  {
    EditPayload(b.northEast.longitude, b.northEast.latitude, b.southWest.longitude, b.southWest.latitude)
  }

  // ---------------------------------------------------------------------
  // Storage and query columns
  // ---------------------------------------------------------------------

  /** `getDataForResource`: always exactly the four columns; all null unless `data` is a Geobounds. */
  function ForResource(name: string, data: Data): (row: Row)
    ensures row.Keys == Columns(name)
    ensures |row| == 4
    ensures data.Bounds? ==>
      && row[Column(name, NeLongitude)] == data.bounds.northEast.longitude
      && row[Column(name, NeLatitude)] == data.bounds.northEast.latitude
      && row[Column(name, SwLongitude)] == data.bounds.southWest.longitude
      && row[Column(name, SwLatitude)] == data.bounds.southWest.latitude
    ensures !data.Bounds? ==> forall k :: k in row ==> row[k] == Null
  {
    ColumnsDistinct(name);
    if data.Bounds? then
      var b := data.bounds;
      map[Column(name, NeLongitude) := b.northEast.longitude,
          Column(name, NeLatitude) := b.northEast.latitude,
          Column(name, SwLongitude) := b.southWest.longitude,
          Column(name, SwLatitude) := b.southWest.latitude]
    else
      map[Column(name, NeLongitude) := Null,
          Column(name, NeLatitude) := Null,
          Column(name, SwLongitude) := Null,
          Column(name, SwLatitude) := Null]
  }

  /** `getDataForQueryResource`: the query columns are the storage columns. */
  function ForQueryResource(name: string, data: Data): (row: Row)
    ensures row.Keys == Columns(name) && |row| == 4
    ensures !data.Bounds? ==> forall k :: k in row ==> row[k] == Null
    ensures row == ForResource(name, data)
  {
    ForResource(name, data)
  }

  /** The owner context `getDataFromResource` attaches when `$params['owner']` is set. */
  function OwnerFrom(params: Params): (c: Option<OwnerContext>)
    ensures c.Some? <==> params.owner.Some?
    ensures c.Some? ==> c.value == OwnerContext(params.owner.value, params.fieldname, params.language)
  {
    if params.owner.Some? then Some(OwnerContext(params.owner.value, params.fieldname, params.language)) else None
  }

  /** Every one of the four columns holds a truthy value (a missing column is null, hence falsy). */
  predicate AllColumnsTruthy(name: string, row: Row)
  {
    && Truthy(Get(row, Column(name, NeLongitude)))
    && Truthy(Get(row, Column(name, NeLatitude)))
    && Truthy(Get(row, Column(name, SwLongitude)))
    && Truthy(Get(row, Column(name, SwLatitude)))
  }

  /**
   * `getDataFromResource`: a value only when all four columns are truthy (so a
   * zero coordinate reads back as null), the corners built latitude first,
   * and the owner context attached when the params name an owner.
   */
  function FromResource(name: string, row: Row, params: Params): (r: Option<Geobounds>)
    ensures r.Some? <==> AllColumnsTruthy(name, row)
    ensures r.Some? ==>
      && r.value.northEast == GeoCoordinates(row[Column(name, NeLatitude)], row[Column(name, NeLongitude)])
      && r.value.southWest == GeoCoordinates(row[Column(name, SwLatitude)], row[Column(name, SwLongitude)])
      && r.value.ownerContext == OwnerFrom(params)
  {
    if AllColumnsTruthy(name, row) then
      var ne := GeoCoordinates(row[Column(name, NeLatitude)], row[Column(name, NeLongitude)]);
      var sw := GeoCoordinates(row[Column(name, SwLatitude)], row[Column(name, SwLongitude)]);
      Some(Geobounds(ne, sw, OwnerFrom(params)))
    else
      None
  }

  // ---------------------------------------------------------------------
  // Editor and grid payload
  // ---------------------------------------------------------------------

  /** `getDataForEditmode`: the four components, unprefixed; null for anything but a Geobounds. */
  function ForEditmode(data: Data): (p: Option<EditPayload>)
    ensures p.Some? <==> data.Bounds?
    ensures p.Some? ==>
      && p.value.neLongitude == data.bounds.northEast.longitude
      && p.value.neLatitude == data.bounds.northEast.latitude
      && p.value.swLongitude == data.bounds.southWest.longitude
      && p.value.swLatitude == data.bounds.southWest.latitude
  {
    if data.Bounds? then Some(Fields(data.bounds)) else None
  }

  /** `getDataForGrid`: the grid shows the editor payload. */
  function ForGrid(data: Data): (p: Option<EditPayload>)
    ensures p.Some? <==> data.Bounds?
    ensures p == ForEditmode(data)
  {
    ForEditmode(data)
  }

  /** No component of the payload is null (`!== null`; zero and other falsy values pass). */
  predicate NoneNull(p: EditPayload)
  {
    p.neLongitude != Null && p.neLatitude != Null && p.swLongitude != Null && p.swLatitude != Null
  }

  /**
   * `getDataFromEditmode`: a fresh value, without owner context, exactly when
   * no component is null; a null payload reads every key as null.
   */
  function FromEditmode(payload: Option<EditPayload>): (r: Option<Geobounds>)
    ensures r.Some? <==> payload.Some? && NoneNull(payload.value)
    ensures r.Some? ==>
      && r.value.northEast == GeoCoordinates(payload.value.neLatitude, payload.value.neLongitude)
      && r.value.southWest == GeoCoordinates(payload.value.swLatitude, payload.value.swLongitude)
      && r.value.ownerContext == None
  {
    if payload.Some? && NoneNull(payload.value) then
      var p := payload.value;
      Some(Geobounds(GeoCoordinates(p.neLatitude, p.neLongitude), GeoCoordinates(p.swLatitude, p.swLongitude), None))
    else
      None
  }

  // ---------------------------------------------------------------------
  // Version preview and CSV
  // ---------------------------------------------------------------------

  /** One corner as text: `<longitude>,<latitude>`. */
  function CornerText(c: GeoCoordinates, fmt: real -> string): string
  {
    ToText(c.longitude, fmt) + "," + ToText(c.latitude, fmt)
  }

  /** Both corners as text, north-east first, with `sep` between them. */
  function CornersText(b: Geobounds, sep: char, fmt: real -> string): (s: string)
    ensures s == Implode(sep, [CornerText(b.northEast, fmt), CornerText(b.southWest, fmt)])
  {
    ImplodePair(sep, CornerText(b.northEast, fmt), CornerText(b.southWest, fmt));
    CornerText(b.northEast, fmt) + [sep] + CornerText(b.southWest, fmt)
  }

  /** `getVersionPreview`: north-east then south-west corner, separated by a space; `''` for anything else. */
  function VersionPreview(data: Data, fmt: real -> string): (s: string)
    ensures !data.Bounds? <==> s == ""
    ensures data.Bounds? ==> s == Implode(' ', [CornerText(data.bounds.northEast, fmt), CornerText(data.bounds.southWest, fmt)])
  {
    if data.Bounds? then CornersText(data.bounds, ' ', fmt) else ""
  }

  /**
   * `getForCsvExport`, given the value the object holds for this field:
   * north-east then south-west corner, separated by `|`; `''` for anything else.
   */
  function CsvExport(data: Data, fmt: real -> string): (s: string)
    ensures !data.Bounds? <==> s == ""
    ensures data.Bounds? ==> s == Implode('|', [CornerText(data.bounds.northEast, fmt), CornerText(data.bounds.southWest, fmt)])
  {
    if data.Bounds? then CornersText(data.bounds, '|', fmt) else ""
  }

  /** `$parts[$i]` of an exploded segment as a PHP value: a string, or null past the end. */
  function Part(parts: seq<string>, i: nat): Value
  {
    if i < |parts| then Str(parts[i]) else Null
  }

  /**
   * `getFromCsvImport`: the text must split on `|` into exactly two segments,
   * and parts 0 (longitude) and 1 (latitude) of each segment, split on `,`,
   * must be truthy strings; otherwise null. Further comma parts are ignored.
   */
  function CsvImport(text: string): (r: Option<Geobounds>)
    ensures Count('|', text) != 1 ==> r == None
    ensures r.Some? <==>
      var points := Explode('|', text);
      && |points| == 2
      && Truthy(Part(Explode(',', points[0]), 0)) && Truthy(Part(Explode(',', points[0]), 1))
      && Truthy(Part(Explode(',', points[1]), 0)) && Truthy(Part(Explode(',', points[1]), 1))
    ensures r.Some? ==>
      var points := Explode('|', text);
      var ne, sw := Explode(',', points[0]), Explode(',', points[1]);
      && r.value == Geobounds(GeoCoordinates(Str(ne[1]), Str(ne[0])), GeoCoordinates(Str(sw[1]), Str(sw[0])), None)
  {
    var points := Explode('|', text);
    if |points| == 2 then
      var ne := Explode(',', points[0]);
      var sw := Explode(',', points[1]);
      if Truthy(Part(ne, 0)) && Truthy(Part(ne, 1)) && Truthy(Part(sw, 0)) && Truthy(Part(sw, 1)) then
        Some(Geobounds(GeoCoordinates(Str(ne[1]), Str(ne[0])), GeoCoordinates(Str(sw[1]), Str(sw[0])), None))
      else
        None
    else
      None
  }

  // ---------------------------------------------------------------------
  // Packed encoding
  // ---------------------------------------------------------------------

  /** `$decoded[$i]` of a decoded JSON array: the element, or null past the end. */
  function Item(items: seq<Value>, i: nat): Value
  {
    if i < |items| then items[i] else Null
  }

  /** Truthiness of a slot: the JSON text of an array is never empty or `"0"`. */
  predicate SlotTruthy(s: Slot)
  {
    s.Json?
  }

  /**
   * `marshal`: nothing for a falsy input (null or an empty row); otherwise
   * `[NElatitude, NElongitude]` in `value` and `[SWlatitude, SWlongitude]` in
   * `value2`, a missing column packed as null.
   */
  function Marshal(name: string, value: Option<Row>): (r: Option<Packed>)
    ensures r.Some? <==> value.Some? && value.value != map[]
    ensures r.Some? ==>
      var row := value.value;
      && r.value.value == Json([Get(row, Column(name, NeLatitude)), Get(row, Column(name, NeLongitude))])
      && r.value.value2 == Json([Get(row, Column(name, SwLatitude)), Get(row, Column(name, SwLongitude))])
  {
    if value.Some? && value.value != map[] then
      var row := value.value;
      Some(Packed(Json([Get(row, Column(name, NeLatitude)), Get(row, Column(name, NeLongitude))]),
                  Json([Get(row, Column(name, SwLatitude)), Get(row, Column(name, SwLongitude))])))
    else
      None
  }

  /**
   * `unmarshal`: nothing unless both slots are truthy; otherwise the four
   * storage columns, element 0 of each slot as the latitude and element 1 as
   * the longitude.
   */
  function Unmarshal(name: string, packed: Option<Packed>): (r: Option<Row>)
    ensures r.Some? <==> packed.Some? && SlotTruthy(packed.value.value) && SlotTruthy(packed.value.value2)
    ensures r.Some? ==>
      var ne, sw := packed.value.value.items, packed.value.value2.items;
      && r.value.Keys == Columns(name)
      && r.value[Column(name, NeLatitude)] == Item(ne, 0)
      && r.value[Column(name, NeLongitude)] == Item(ne, 1)
      && r.value[Column(name, SwLatitude)] == Item(sw, 0)
      && r.value[Column(name, SwLongitude)] == Item(sw, 1)
  {
    if packed.Some? && SlotTruthy(packed.value.value) && SlotTruthy(packed.value.value2) then
      var ne, sw := packed.value.value.items, packed.value.value2.items;
      ColumnsDistinct(name);
      Some(map[Column(name, NeLatitude) := Item(ne, 0),
               Column(name, NeLongitude) := Item(ne, 1),
               Column(name, SwLatitude) := Item(sw, 0),
               Column(name, SwLongitude) := Item(sw, 1)])
    else
      None
  }

  // ---------------------------------------------------------------------
  // Equality and validation
  // ---------------------------------------------------------------------

  /**
   * `isEqual`: two nulls are equal; otherwise both must be Geobounds whose
   * four components are strictly equal. The owner context plays no part.
   */
  function IsEqual(oldValue: Data, newValue: Data): (eq: bool)
    ensures oldValue == Scalar(Null) && newValue == Scalar(Null) ==> eq
    ensures !(oldValue == Scalar(Null) && newValue == Scalar(Null)) && !(oldValue.Bounds? && newValue.Bounds?) ==> !eq
    ensures oldValue.Bounds? && newValue.Bounds? ==>
      (eq <==> oldValue.bounds.northEast == newValue.bounds.northEast && oldValue.bounds.southWest == newValue.bounds.southWest)
  {
    if oldValue == Scalar(Null) && newValue == Scalar(Null) then true
    else if !oldValue.Bounds? || !newValue.Bounds? then false
    else
      // the loop over the four keys, comparing each pair with `!==`
      var o, n := Fields(oldValue.bounds), Fields(newValue.bounds);
      o.neLongitude == n.neLongitude && o.neLatitude == n.neLatitude
        && o.swLongitude == n.swLongitude && o.swLatitude == n.swLatitude
  }

  /** The message of the mandatory check. */
  function MandatoryMessage(name: string): (m: string)
    ensures m != TypeMismatchMessage
  {
    var m := "Empty mandatory field [ " + name + " ]";
    assert m[1] != TypeMismatchMessage[1];
    m
  }

  /**
   * `checkValidity`: a truthy value that is not a Geobounds is a type
   * mismatch, checked first; a falsy value is empty and fails only on a
   * mandatory field whose check is not omitted; a Geobounds always passes.
   */
  function CheckValidity(name: string, mandatory: bool, data: Data, omitMandatoryCheck: bool): (r: Validity)
    ensures data.Bounds? ==> r == Valid
    ensures DataTruthy(data) && !data.Bounds? ==> r == Invalid(TypeMismatchMessage)
    ensures !DataTruthy(data) ==> (r == Invalid(MandatoryMessage(name)) <==> mandatory && !omitMandatoryCheck)
    ensures !DataTruthy(data) ==> (r == Valid <==> !mandatory || omitMandatoryCheck)
    ensures r.Invalid? && r.message == TypeMismatchMessage ==> DataTruthy(data)
  {
    var isEmpty := !DataTruthy(data);
    if !isEmpty && !data.Bounds? then Invalid(TypeMismatchMessage)
    else if !omitMandatoryCheck && mandatory && isEmpty then Invalid(MandatoryMessage(name))
    else Valid
  }
}
