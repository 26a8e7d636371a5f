/**
 * Properties of the Geobounds conversions that relate several operations:
 * the round trips through each representation, the different presence
 * rules of the storage and editor paths, and the laws of equality and
 * validation.
 */
module GeoboundsLaws {
  import opened Wrappers
  import opened Php
  import opened GeoboundsField

  /** The same bounds without an owner context: what the construction paths without params build. */
  function Unowned(b: Geobounds): Geobounds
  {
    Geobounds(b.northEast, b.southWest, None)
  }

  /** Every component of the bounds is truthy, so the storage read accepts it. */
  predicate ComponentsTruthy(b: Geobounds)
  {
    && Truthy(b.northEast.longitude) && Truthy(b.northEast.latitude)
    && Truthy(b.southWest.longitude) && Truthy(b.southWest.latitude)
  }

  /** The four storage columns of `row`, a missing one read as null. */
  function ColumnsOf(name: string, row: Row): (r: Row)
    ensures r.Keys == Columns(name)
    ensures forall k :: k in r ==> r[k] == Get(row, k)
  {
    map k | k in Columns(name) :: Get(row, k)
  }

  // ---------------------------------------------------------------------
  // Storage
  // ---------------------------------------------------------------------

  /**
   * Reading back what was written gives the same corners, with the owner
   * context of the params, exactly when every component is truthy; a single
   * zero (or other falsy) component makes the read return null.
   */
  lemma StorageRoundTrip(name: string, b: Geobounds, params: Params)
    ensures FromResource(name, ForResource(name, Bounds(b)), params)
      == if ComponentsTruthy(b) then Some(Geobounds(b.northEast, b.southWest, OwnerFrom(params))) else None
  {
  }

  /** The all-null row written for anything but a Geobounds reads back as null. */
  lemma StorageNonBoundsReadsNull(name: string, data: Data, params: Params)
    requires !data.Bounds?
    ensures FromResource(name, ForResource(name, data), params) == None
  {
  }

  /** Writing back what was read reproduces the four columns of the row that was read. */
  lemma StorageWriteBack(name: string, row: Row, params: Params)
    requires FromResource(name, row, params).Some?
    ensures ForResource(name, Bounds(FromResource(name, row, params).value)) == ColumnsOf(name, row)
  {
  }

  // ---------------------------------------------------------------------
  // Editor payload
  // ---------------------------------------------------------------------

  /**
   * The editor round trip gives back the same corners whenever no component
   * is null, zero included, and the result compares equal to the original.
   */
  lemma EditRoundTrip(b: Geobounds)
    ensures FromEditmode(ForEditmode(Bounds(b))) == if NoneNull(Fields(b)) then Some(Unowned(b)) else None
    ensures NoneNull(Fields(b)) ==> IsEqual(Bounds(b), Bounds(FromEditmode(ForEditmode(Bounds(b))).value))
  {
  }

  /** Building the payload from what the editor sent gives the editor's payload back. */
  lemma EditPayloadRoundTrip(p: EditPayload)
    requires NoneNull(p)
    ensures ForEditmode(Bounds(FromEditmode(Some(p)).value)) == Some(p)
  {
  }

  /**
   * The two presence rules differ: bounds whose components are all zero
   * survive the editor round trip and are lost by the storage round trip.
   */
  lemma ZeroKeptByEditorLostByStorage(name: string, params: Params)
    ensures
      var zero := GeoCoordinates(Num(0.0), Num(0.0));
      var b := Geobounds(zero, zero, None);
      && FromEditmode(ForEditmode(Bounds(b))) == Some(b)
      && FromResource(name, ForResource(name, Bounds(b)), params) == None
  {
  }

  // ---------------------------------------------------------------------
  // CSV and version preview
  // ---------------------------------------------------------------------

  /** No coordinate text of an export contains the segment separator `|`. */
  predicate BarFree(b: Geobounds, fmt: real -> string)
  {
    && '|' !in ToText(b.northEast.longitude, fmt) && '|' !in ToText(b.northEast.latitude, fmt)
    && '|' !in ToText(b.southWest.longitude, fmt) && '|' !in ToText(b.southWest.latitude, fmt)
  }

  /** The four coordinate texts of an export contain neither separator of the CSV format. */
  predicate SeparatorFree(b: Geobounds, fmt: real -> string)
  {
    && BarFree(b, fmt)
    && ',' !in ToText(b.northEast.longitude, fmt) && ',' !in ToText(b.northEast.latitude, fmt)
    && ',' !in ToText(b.southWest.longitude, fmt) && ',' !in ToText(b.southWest.latitude, fmt)
  }

  /** Every coordinate text of an export is a truthy string. */
  predicate TextsTruthy(b: Geobounds, fmt: real -> string)
  {
    && StringTruthy(ToText(b.northEast.longitude, fmt)) && StringTruthy(ToText(b.northEast.latitude, fmt))
    && StringTruthy(ToText(b.southWest.longitude, fmt)) && StringTruthy(ToText(b.southWest.latitude, fmt))
  }

  /** A corner's text splits on `,` into its longitude text and its latitude text. */
  lemma CornerTextSplits(c: GeoCoordinates, fmt: real -> string)
    requires ',' !in ToText(c.longitude, fmt) && ',' !in ToText(c.latitude, fmt)
    ensures Explode(',', CornerText(c, fmt)) == [ToText(c.longitude, fmt), ToText(c.latitude, fmt)]
  {
    ImplodePair(',', ToText(c.longitude, fmt), ToText(c.latitude, fmt));
    ExplodeImplode(',', [ToText(c.longitude, fmt), ToText(c.latitude, fmt)]);
  }

  /**
   * Importing an export whose coordinate texts are free of `,` and `|` gives
   * corners holding those texts, latitude and longitude in place, exactly
   * when all four texts are truthy; otherwise the import is null.
   */
  lemma CsvRoundTrip(b: Geobounds, fmt: real -> string)
    requires SeparatorFree(b, fmt)
    ensures CsvImport(CsvExport(Bounds(b), fmt))
      == if TextsTruthy(b, fmt) then
           Some(Geobounds(
             GeoCoordinates(Str(ToText(b.northEast.latitude, fmt)), Str(ToText(b.northEast.longitude, fmt))),
             GeoCoordinates(Str(ToText(b.southWest.latitude, fmt)), Str(ToText(b.southWest.longitude, fmt))),
             None))
         else None
  {
    var ne, sw := CornerText(b.northEast, fmt), CornerText(b.southWest, fmt);
    ExplodeImplode('|', [ne, sw]);
    assert Explode('|', CsvExport(Bounds(b), fmt)) == [ne, sw];
    CornerTextSplits(b.northEast, fmt);
    CornerTextSplits(b.southWest, fmt);
  }

  /** Bounds held as truthy, separator-free strings (as an import creates them) survive export and import. */
  lemma CsvRoundTripOfStrings(b: Geobounds, fmt: real -> string)
    requires b.northEast.longitude.Str? && b.northEast.latitude.Str?
    requires b.southWest.longitude.Str? && b.southWest.latitude.Str?
    requires SeparatorFree(b, fmt) && TextsTruthy(b, fmt)
    ensures CsvImport(CsvExport(Bounds(b), fmt)) == Some(Unowned(b))
  {
    CsvRoundTrip(b, fmt);
  }

  /** An import followed by an export gives back the text, when each segment had exactly two parts. */
  lemma CsvExportOfImport(text: string, fmt: real -> string)
    requires CsvImport(text).Some?
    requires forall i :: 0 <= i < |Explode('|', text)| ==> |Explode(',', Explode('|', text)[i])| == 2
    ensures CsvExport(Bounds(CsvImport(text).value), fmt) == text
  {
    var points := Explode('|', text);
    var ne, sw := Explode(',', points[0]), Explode(',', points[1]);
    var b := CsvImport(text).value;
    ImplodeExplode('|', text);
    ImplodeExplode(',', points[0]);
    ImplodeExplode(',', points[1]);
    ImplodePair(',', ne[0], ne[1]);
    ImplodePair(',', sw[0], sw[1]);
    assert ne == [ne[0], ne[1]] && sw == [sw[0], sw[1]];
    assert CornerText(b.northEast, fmt) == points[0];
    assert CornerText(b.southWest, fmt) == points[1];
    assert points == [points[0], points[1]];
  }

  /** Text without a `|` is not a bounds value. */
  lemma CsvWithoutBarIsNull()
    ensures CsvImport("1,2,3") == None
  {
  }

  /** A segment `lon,lat,extra` splits on `,` into `lon`, `lat` and the pieces of `extra`. */
  lemma SegmentSplits(lon: string, lat: string, extra: string)
    requires ',' !in lon && ',' !in lat
    ensures Explode(',', lon + "," + lat + "," + extra) == [lon, lat] + Explode(',', extra)
  {
    assert lon + "," + lat + "," + extra == lon + [','] + (lat + [','] + extra);
    ExplodeLeadingPiece(',', lon, lat + [','] + extra);
    ExplodeLeadingPiece(',', lat, extra);
  }

  /**
   * Part 0 of a segment is the longitude and part 1 the latitude; whatever
   * follows a second comma in either segment is ignored.
   */
  lemma CsvExtraPartsIgnored(lon1: string, lat1: string, extra1: string, lon2: string, lat2: string, extra2: string)
    requires ',' !in lon1 && ',' !in lat1 && ',' !in lon2 && ',' !in lat2
    requires '|' !in lon1 && '|' !in lat1 && '|' !in extra1 && '|' !in lon2 && '|' !in lat2 && '|' !in extra2
    requires StringTruthy(lon1) && StringTruthy(lat1) && StringTruthy(lon2) && StringTruthy(lat2)
    ensures CsvImport(lon1 + "," + lat1 + "," + extra1 + "|" + lon2 + "," + lat2 + "," + extra2)
      == Some(Geobounds(GeoCoordinates(Str(lat1), Str(lon1)), GeoCoordinates(Str(lat2), Str(lon2)), None))
  {
    var ne, sw := lon1 + "," + lat1 + "," + extra1, lon2 + "," + lat2 + "," + extra2;
    assert lon1 + "," + lat1 + "," + extra1 + "|" + lon2 + "," + lat2 + "," + extra2 == ne + "|" + sw;
    ImplodePair('|', ne, sw);
    ExplodeImplode('|', [ne, sw]);
    SegmentSplits(lon1, lat1, extra1);
    SegmentSplits(lon2, lat2, extra2);
  }

  /** Two segments joined by `|` split back into those segments, when neither contains `|`. */
  lemma SegmentsSplit(ne: string, sw: string)
    requires '|' !in ne && '|' !in sw
    ensures Explode('|', ne + "|" + sw) == [ne, sw]
  {
    ImplodePair('|', ne, sw);
    ExplodeImplode('|', [ne, sw]);
  }

  /** A segment `lon,lat` splits on `,` into `lon` and `lat`, when neither contains `,`. */
  lemma PairSplits(lon: string, lat: string)
    requires ',' !in lon && ',' !in lat
    ensures Explode(',', lon + "," + lat) == [lon, lat]
  {
    ImplodePair(',', lon, lat);
    ExplodeImplode(',', [lon, lat]);
  }

  /**
   * Comma parts after the second in either segment never change the
   * outcome of an import: accepted or rejected, the text without them
   * imports to the same result.
   */
  lemma CsvExtraPartsDropped(lon1: string, lat1: string, extra1: string, lon2: string, lat2: string, extra2: string)
    requires ',' !in lon1 && ',' !in lat1 && ',' !in lon2 && ',' !in lat2
    requires '|' !in lon1 && '|' !in lat1 && '|' !in extra1 && '|' !in lon2 && '|' !in lat2 && '|' !in extra2
    ensures CsvImport(lon1 + "," + lat1 + "," + extra1 + "|" + lon2 + "," + lat2 + "," + extra2)
      == CsvImport(lon1 + "," + lat1 + "|" + lon2 + "," + lat2)
  {
    var ne, sw := lon1 + "," + lat1 + "," + extra1, lon2 + "," + lat2 + "," + extra2;
    assert lon1 + "," + lat1 + "," + extra1 + "|" + lon2 + "," + lat2 + "," + extra2 == ne + "|" + sw;
    SegmentsSplit(ne, sw);
    SegmentSplits(lon1, lat1, extra1);
    SegmentSplits(lon2, lat2, extra2);
    var ne', sw' := lon1 + "," + lat1, lon2 + "," + lat2;
    assert lon1 + "," + lat1 + "|" + lon2 + "," + lat2 == ne' + "|" + sw';
    SegmentsSplit(ne', sw');
    PairSplits(lon1, lat1);
    PairSplits(lon2, lat2);
  }

  /** `s` with every `from` turned into `to`. */
  function Replace(s: string, from: char, to: char): (r: string)
    ensures |r| == |s|
  {
    seq(|s|, i requires 0 <= i < |s| => if s[i] == from then to else s[i])
  }

  /** The version preview is the CSV export with its `|` turned into a space. */
  lemma PreviewIsCsvWithSpace(data: Data, fmt: real -> string)
    requires data.Bounds? ==> BarFree(data.bounds, fmt)
    ensures VersionPreview(data, fmt) == Replace(CsvExport(data, fmt), '|', ' ')
  {
  }

  // ---------------------------------------------------------------------
  // Packed encoding
  // ---------------------------------------------------------------------

  /** Unpacking what was packed from a non-empty row restores its four storage columns. */
  lemma PackedRoundTrip(name: string, row: Row)
    requires row != map[]
    ensures Unmarshal(name, Marshal(name, Some(row))) == Some(ColumnsOf(name, row))
  {
    var r := Unmarshal(name, Marshal(name, Some(row))).value;
    var expected := ColumnsOf(name, row);
    assert r.Keys == expected.Keys;
    forall k | k in r
      ensures r[k] == expected[k]
    {
      assert k in Columns(name);
    }
    assert r == expected;
  }

  /** Every row the storage writer produces, even the all-null one, survives packing unchanged. */
  lemma PackedRoundTripOfResource(name: string, data: Data)
    ensures Unmarshal(name, Marshal(name, Some(ForResource(name, data)))) == Some(ForResource(name, data))
  {
    var row := ForResource(name, data);
    assert Column(name, NeLongitude) in row;
    PackedRoundTrip(name, row);
    assert ColumnsOf(name, row) == row;
  }

  // ---------------------------------------------------------------------
  // Equality
  // ---------------------------------------------------------------------

  /** Equality ignores the owner context: every bounds value equals itself and its unowned copy. */
  lemma IsEqualReflexiveOnBounds(a: Geobounds, b: Geobounds)
    requires a.northEast == b.northEast && a.southWest == b.southWest
    ensures IsEqual(Bounds(a), Bounds(b))
  {
  }

  /** Equality is symmetric on everything the field may hold. */
  lemma IsEqualSymmetric(x: Data, y: Data)
    ensures IsEqual(x, y) == IsEqual(y, x)
  {
  }

  /** Equality is transitive on everything the field may hold. */
  lemma IsEqualTransitive(x: Data, y: Data, z: Data)
    requires IsEqual(x, y) && IsEqual(y, z)
    ensures IsEqual(x, z)
  {
  }

  /** Only null is equal to null, and a falsy non-null scalar is not equal even to itself. */
  lemma IsEqualNullCases(d: Data)
    ensures IsEqual(Scalar(Null), d) <==> d == Scalar(Null)
    ensures !IsEqual(Scalar(Bool(false)), Scalar(Bool(false)))
  {
  }

  // ---------------------------------------------------------------------
  // Validation
  // ---------------------------------------------------------------------

  /** The type check comes first: a truthy non-Geobounds fails with the type message even on a mandatory field. */
  lemma TypeCheckBeforeMandatory(name: string, mandatory: bool, omitMandatoryCheck: bool, className: string)
    ensures CheckValidity(name, mandatory, Instance(className), omitMandatoryCheck) == Invalid(TypeMismatchMessage)
  {
  }

  /** Validation fails exactly on a truthy non-Geobounds, or on an empty mandatory field whose check is not omitted. */
  lemma ValidityCharacterized(name: string, mandatory: bool, data: Data, omitMandatoryCheck: bool)
    ensures CheckValidity(name, mandatory, data, omitMandatoryCheck).Invalid?
      <==> (DataTruthy(data) && !data.Bounds?) || (!DataTruthy(data) && mandatory && !omitMandatoryCheck)
  {
  }
}
