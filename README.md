# Geobounds field codec

A Dafny model of `Pimcore\Model\DataObject\ClassDefinition\Data\Geobounds`, the
data-object field type that holds a geographic bounding box: a north-east and a
south-west corner, each a `GeoCoordinates(latitude, longitude)` pair. The field
converts that value between five representations and also compares and
validates it:

- storage columns `<name>__NElongitude`, `<name>__NElatitude`,
  `<name>__SWlongitude`, `<name>__SWlatitude` (the query columns are the same);
- the editor payload with unprefixed keys (the grid payload is the same);
- CSV text `lon,lat|lon,lat`, and the version preview `lon,lat lon,lat`;
- the packed form: two JSON arrays `[lat, lon]` in the slots `value` and `value2`.

Everything is pure. The model is made of datatypes, functions and lemmas:

- `wrappers.dfy` (`Wrappers`): `Option`, standing for a PHP `null` (or missing) return.
- `php.dfy` (`Php`): PHP scalars (`Value`), loose truthiness (`""`, `"0"`, `0`, `false` and `null` are falsy), string conversion by `.`, and `explode`/`implode`, with their round-trip lemmas.
- `geobounds.dfy` (`GeoboundsField`): the value types and every conversion, each with its contract.
- `geobounds_laws.dfy` (`GeoboundsLaws`): the round trips and the laws that relate several conversions.

The field's name and its mandatory flag are configuration of the PHP class. The
model takes them as parameters, and it takes as parameters the value that
`getForCsvExport` fetches from the object and the float formatting used by `.`.

The paths use different presence rules, and the model keeps them apart. The
storage read and the CSV import require truthy components, so a stored or
imported `0` makes the whole value null. The editor read only rejects `null`,
so `0` is kept (`GeoboundsLaws.ZeroKeptByEditorLostByStorage`). Values read
from storage are taken as given: a column holding the string `"0"` is falsy,
while `"0.0"` is truthy. Every construction site passes latitude first to
`GeoCoordinates`, and the model keeps that order.

## Model

| member | source | states |
|---|---|---|
| `GeoboundsField.Column` | models/DataObject/ClassDefinition/Data/Geobounds.php:72-83 | the column name is the field name, then `__`, then the suffix |
| `GeoboundsField.ColumnsDistinct` | models/DataObject/ClassDefinition/Data/Geobounds.php:71-84 | the four `<name>__<suffix>` column names are pairwise distinct for every field name |
| `GeoboundsField.ForResource` | models/DataObject/ClassDefinition/Data/Geobounds.php:68-85 | the row has exactly the four storage columns; for a Geobounds they hold its longitudes and latitudes, otherwise all four are null |
| `GeoboundsField.ForQueryResource` | models/DataObject/ClassDefinition/Data/Geobounds.php:149-152 | the query row has the same four columns and is identical to the storage row |
| `GeoboundsField.OwnerFrom` | models/DataObject/ClassDefinition/Data/Geobounds.php:128-132 | an owner context exists exactly when the params name an owner; it carries the owner, the fieldname and the language (null when missing) |
| `GeoboundsField.FromResource` | models/DataObject/ClassDefinition/Data/Geobounds.php:120-138 | a value exists iff all four columns are truthy (a missing column is null); its corners are built latitude first from the row and carry the owner context of the params |
| `GeoboundsField.ForEditmode` | models/DataObject/ClassDefinition/Data/Geobounds.php:163-175 | a payload exists iff the input is a Geobounds, and its four keys hold that value's components |
| `GeoboundsField.ForGrid` | models/DataObject/ClassDefinition/Data/Geobounds.php:184-187 | the grid payload exists iff the input is a Geobounds and equals the editor payload |
| `GeoboundsField.FromEditmode` | models/DataObject/ClassDefinition/Data/Geobounds.php:198-208 | a value exists iff the payload is present and none of its four keys is null (`!== null`); corners latitude first, no owner context |
| `GeoboundsField.CornersText` | models/DataObject/ClassDefinition/Data/Geobounds.php:222 | both corners as `lon,lat`, north-east first, joined by the given separator |
| `GeoboundsField.VersionPreview` | models/DataObject/ClassDefinition/Data/Geobounds.php:219-226 | `''` exactly for a non-Geobounds; otherwise the two corner texts `lon,lat` joined by a space, north-east first |
| `GeoboundsField.CsvExport` | models/DataObject/ClassDefinition/Data/Geobounds.php:238-246 | `''` exactly for a non-Geobounds; otherwise the two corner texts `lon,lat` joined by `|`, north-east first |
| `GeoboundsField.CsvImport` | models/DataObject/ClassDefinition/Data/Geobounds.php:255-268 | null unless the text has exactly one `|`; a value iff parts 0 and 1 of both comma-split segments are truthy strings; part 1 becomes the latitude and part 0 the longitude |
| `GeoboundsField.Marshal` | models/DataObject/ClassDefinition/Data/Geobounds.php:299-307 | nothing for null or an empty row; otherwise `[NElatitude, NElongitude]` in `value` and `[SWlatitude, SWlongitude]` in `value2`, a missing column packed as null |
| `GeoboundsField.Unmarshal` | models/DataObject/ClassDefinition/Data/Geobounds.php:316-330 | nothing unless both slots are truthy; otherwise exactly the four storage columns, element 0 of each slot as latitude and element 1 as longitude (null past the end) |
| `GeoboundsField.IsEqual` | models/DataObject/ClassDefinition/Data/Geobounds.php:339-371 | two nulls are equal; if either side is not a Geobounds the result is false; two Geobounds are equal iff both corners are equal component by component |
| `GeoboundsField.MandatoryMessage` | models/DataObject/ClassDefinition/Data/Geobounds.php:106-107 | the message of the mandatory check differs from the type-mismatch message |
| `GeoboundsField.CheckValidity` | models/DataObject/ClassDefinition/Data/Geobounds.php:95-109 | a Geobounds passes; a truthy non-Geobounds fails with "Expected an instance of Geobounds"; a falsy value fails with the mandatory message iff the field is mandatory and the check is not omitted |
| `Php.ToText` | models/DataObject/ClassDefinition/Data/Geobounds.php:222 | string conversion by `.`: a string is itself, null and false are empty, true is `1` |
| `Php.Explode` | models/DataObject/ClassDefinition/Data/Geobounds.php:257-261 | `explode` gives one more piece than there are separators in the text, and no piece contains the separator |
| `Php.ExplodeAfterPiece` | models/DataObject/ClassDefinition/Data/Geobounds.php:260-261 | a separator-free prefix fuses with the first piece of the rest |
| `Php.ExplodeLeadingPiece` | models/DataObject/ClassDefinition/Data/Geobounds.php:260-261 | a separator-free piece followed by the separator splits off as a piece of its own |
| `Php.ExplodeImplode` | models/DataObject/ClassDefinition/Data/Geobounds.php:257-261 | splitting the join of a non-empty list of parts gives back the parts when no part contains the separator |
| `Php.ImplodeExplode` | models/DataObject/ClassDefinition/Data/Geobounds.php:257-261 | joining the pieces of a split gives back the text, for every text |
| `Php.ImplodePair` | models/DataObject/ClassDefinition/Data/Geobounds.php:242 | joining two pieces is `a . sep . b` |
| `GeoboundsLaws.StorageRoundTrip` | models/DataObject/ClassDefinition/Data/Geobounds.php:68-138 | reading back a written Geobounds gives the same corners, with the owner context of the params, iff every component is truthy; otherwise null |
| `GeoboundsLaws.StorageNonBoundsReadsNull` | models/DataObject/ClassDefinition/Data/Geobounds.php:79-84 | the all-null row written for a non-Geobounds reads back as null |
| `GeoboundsLaws.StorageWriteBack` | models/DataObject/ClassDefinition/Data/Geobounds.php:68-138 | writing back a value read from a row reproduces that row's four columns |
| `GeoboundsLaws.EditRoundTrip` | models/DataObject/ClassDefinition/Data/Geobounds.php:163-208 | the editor round trip gives back the same corners (without owner) iff no component is null, zero included, and the result compares equal to the original |
| `GeoboundsLaws.EditPayloadRoundTrip` | models/DataObject/ClassDefinition/Data/Geobounds.php:163-208 | a payload with no null key survives reading and rewriting unchanged |
| `GeoboundsLaws.ZeroKeptByEditorLostByStorage` | models/DataObject/ClassDefinition/Data/Geobounds.php:122 | bounds with all-zero components survive the editor round trip and read back from storage as null |
| `GeoboundsLaws.CornerTextSplits` | models/DataObject/ClassDefinition/Data/Geobounds.php:242 | a corner's `lon,lat` text splits on `,` into its two coordinate texts, when neither coordinate text contains `,` |
| `GeoboundsLaws.CsvRoundTrip` | models/DataObject/ClassDefinition/Data/Geobounds.php:238-268 | when no coordinate text contains `,` or `|`, importing an export gives corners holding those texts in place iff all four are truthy strings, and null otherwise |
| `GeoboundsLaws.CsvRoundTripOfStrings` | models/DataObject/ClassDefinition/Data/Geobounds.php:238-268 | bounds held as truthy separator-free strings come back unchanged from export and import |
| `GeoboundsLaws.CsvExportOfImport` | models/DataObject/ClassDefinition/Data/Geobounds.php:238-268 | an accepted import whose segments have exactly two parts exports back to the same text |
| `GeoboundsLaws.CsvWithoutBarIsNull` | models/DataObject/ClassDefinition/Data/Geobounds.php:257-259 | `1,2,3` (no `|`) imports as null, not as an error |
| `GeoboundsLaws.SegmentsSplit` | models/DataObject/ClassDefinition/Data/Geobounds.php:257 | two segments joined by `|` split back into those two segments, when neither contains `|` |
| `GeoboundsLaws.PairSplits` | models/DataObject/ClassDefinition/Data/Geobounds.php:260-261 | a segment `lon,lat` splits on `,` into `lon` and `lat`, when neither contains `,` |
| `GeoboundsLaws.SegmentSplits` | models/DataObject/ClassDefinition/Data/Geobounds.php:260-261 | a segment `lon,lat,extra` splits on `,` into `lon`, `lat` and then the pieces of `extra`, when neither `lon` nor `lat` contains `,` |
| `GeoboundsLaws.CsvExtraPartsIgnored` | models/DataObject/ClassDefinition/Data/Geobounds.php:260-263 | when parts 0 and 1 of both segments are truthy and free of `,` and `|`, and the extra parts are free of `|`: in both segments, parts after the second comma are ignored; part 0 is the longitude and part 1 the latitude |
| `GeoboundsLaws.CsvExtraPartsDropped` | models/DataObject/ClassDefinition/Data/Geobounds.php:257-267 | when parts 0 and 1 of both segments are free of `,` and `|`, and the extra parts are free of `|`: dropping the parts after the second comma in both segments does not change the import result, whether it is a value or null |
| `GeoboundsLaws.PreviewIsCsvWithSpace` | models/DataObject/ClassDefinition/Data/Geobounds.php:219-246 | when no coordinate text contains `|`: the version preview is the CSV export with its `|` turned into a space |
| `GeoboundsLaws.PackedRoundTrip` | models/DataObject/ClassDefinition/Data/Geobounds.php:299-330 | unpacking what was packed from a non-empty row restores that row's four storage columns |
| `GeoboundsLaws.PackedRoundTripOfResource` | models/DataObject/ClassDefinition/Data/Geobounds.php:68-85 | every storage row, the all-null one included, survives packing and unpacking unchanged |
| `GeoboundsLaws.IsEqualReflexiveOnBounds` | models/DataObject/ClassDefinition/Data/Geobounds.php:339-371 | two Geobounds with the same corners are equal whatever their owner contexts |
| `GeoboundsLaws.IsEqualSymmetric` | models/DataObject/ClassDefinition/Data/Geobounds.php:339-371 | equality is symmetric on everything the field may hold |
| `GeoboundsLaws.IsEqualTransitive` | models/DataObject/ClassDefinition/Data/Geobounds.php:339-371 | equality is transitive on everything the field may hold |
| `GeoboundsLaws.IsEqualNullCases` | models/DataObject/ClassDefinition/Data/Geobounds.php:341-348 | only null equals null, and a falsy non-null scalar such as `false` is not equal even to itself |
| `GeoboundsLaws.TypeCheckBeforeMandatory` | models/DataObject/ClassDefinition/Data/Geobounds.php:99-107 | an instance of another class fails the type check even on a mandatory field |
| `GeoboundsLaws.ValidityCharacterized` | models/DataObject/ClassDefinition/Data/Geobounds.php:95-109 | validation fails iff the value is a truthy non-Geobounds, or is falsy on a mandatory field whose check is not omitted |

## Left out

- The PHP classes `GeoCoordinates` and `DataObject\Data\Geobounds` are not part of this model. The datatypes of those names take their constructors to store the arguments as given; any type cast in their setters is not modelled.
- The host-framework calls `getName`, `getMandatory` and `getDataFromObjectParam` (line 240) come from classes outside this model. The name, the mandatory flag and the field's value are parameters instead.
- PHP float formatting under `.` (lines 222 and 242) is the abstract parameter `fmt: real -> string`.
- JSON: `json_encode` and `json_decode` (lines 303-304 and 319-320) are not written out. A packed slot is either `Empty` (missing, null or a falsy string) or `Json(items)`, the JSON text of the array `items`, and decoding gives `items` back. Truthy slot text that is not a JSON array is outside the model.
- PHP's `!==` is modelled as equality of `Php.Value`. NaN, and the difference between an int and a float of the same value, are not modelled. The sign of a zero is lost under `.`: PHP prints `-0.0` as `-0`, but the single value `fmt(0.0)` cannot tell `-0.0` from `0.0`. Truthiness and `!==` treat `-0.0` as `0.0`, as PHP does.
- Key order of PHP arrays is not modelled, because rows are `map`s. `unmarshal` emits latitude before longitude, while `getDataForResource` emits longitude first.
- `Unmarshal`: only arrays are modelled as packed input. A truthy non-array value is not.
- `Marshal`: only null and rows are modelled as input. A truthy scalar is not.
- A non-empty array handed to validation is a truthy non-Geobounds (`Data.Array`). Its contents are not modelled.
- PHP undefined-index notices on missing keys are not modelled. A missing key reads as null.
- `getDataForSearchIndex` (always `''`, lines 276-279) and `isDiffChangeAllowed` (always true, lines 287-290) are constants and are not modelled.
- The column-type arrays (lines 40-57) and the type-declaration and phpdoc getters (lines 373-391) are static metadata and are not modelled.
