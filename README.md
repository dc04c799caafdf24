# congress-maps build script, modelled in Dafny

This project models the core of `process.js` in congress-maps. The script
builds two things: the map data of United States congressional districts,
and a table of bounding boxes used to centre and zoom the map. It works in
five steps:

1. **Normalization** (`normalize.dfy`). The nationwide Census district file
   is filtered: it drops the "ZZ" water records and North Carolina, whose
   districts come from a separate file. Each kept record is re-shaped into
   the output schema: the state abbreviation and name come from the
   FIPS-code table, the territories' "98" becomes the at-large "00", and the
   Census interior point is kept as the label fallback. The North Carolina
   file is then re-shaped and appended; its one-character district numbers
   get a leading zero. A FIPS code missing from the table aborts the run.
   The model gives this abort the error value `UnknownFips`.
2. **Color canonicalization** (`colors.dfy`). The map-coloring library
   stores its color in each feature's `fill`. The script renumbers these
   fills, in order of first appearance, into dense indices 0, 1, 2, …. It
   stores each index as `color_index` and deletes `fill`. The model is an
   in-place loop over an `array<Feature>`, proved against the
   first-appearance map `FirstSeen`.
3. **Titles** (`titles.dfy`, `decimal.dfy`). The script defines
   `ordinal(n)` and builds the short title ("CA 12") and the long title
   ("California’s 12th Congressional District") from `parseInt` of the
   district number. "00" is titled "At Large".
4. **Labels** (`labels.dfy`). For each district, a label point is placed at
   the pole-of-inaccessibility solver's answer. When the solver returns
   NaN, the Census interior point is used instead. The label carries a copy
   of the district's properties plus the titles and drops the interior
   point. The output has a label and then its district for every district,
   in order. Districts are updated in place (`group = "boundary"`).
5. **Bounding boxes** (`bboxes.dfy`). One box is recorded per district,
   keyed by state followed by number. The boxes of each state are collected
   and replaced by their envelope. Both tables are copied into one result
   table. JavaScript objects are modelled as `Dict` values: an
   insertion-ordered key list plus a map.

`pipeline.dfy` chains the five steps. `features.dfy` holds the shared
feature schema and `wrappers.dfy` holds `Option`/`Result`.

The external libraries are not modelled. They become inputs, given per
feature in collection order:
- the fill that `fiveColorMap` assigns;
- the point `polylabel` finds, with `None` standing for NaN;
- the box `turf.bbox` computes.

The FIPS table becomes a `map<nat, StateInfo>` input.

The long title's apostrophe is U+2019 (`’`), as process.js:127 writes it,
not an ASCII quote.

A North Carolina district has no interior point. When the solver also
fails for one, the script hands undefined coordinates to `turf.point`, an
external library. What that call does with them is not modelled. The
model's own choice is to keep the label and give it no anchor (`None`).

## Model

| member | source | states |
|---|---|---|
| Decimal.DigitValue | process.js:126 | a decimal digit's value is below 10 |
| Decimal.DigitChar | process.js:126 | the character written for a digit value is a digit that reads back as that value |
| Decimal.DecimalString | process.js:126 | the text JavaScript prints for a non-negative integer is non-empty, all digits, and has no leading zero unless the number is 0 |
| Decimal.LeadingDigits | process.js:126 | `parseInt` reads the longest run of digits at the start of the text: a prefix, all digits, followed by a non-digit or the end |
| Decimal.ParseInt | process.js:126-127 | `parseInt` gives NaN exactly when the text is empty or does not start with a digit |
| Decimal.ValueOfDecimalString | process.js:126 | printing a number and reading its digits back gives the number |
| Decimal.LeadingDigitsOfDigitsThen | process.js:126-127 | digits followed by a non-digit are read up to the non-digit |
| Decimal.ParseDigitsThen | process.js:126-127 | `parseInt` of digits followed by a non-digit (such as an ordinal suffix) is the digits' value |
| Decimal.ParseDecimalString | process.js:126 | `parseInt` of a printed number gives the number back (round trip) |
| Decimal.Value | process.js:126 | the value of a digit string of length k is below 10^k, and a single digit's value is that digit's |
| Decimal.NumberText | process.js:126 | a number is shown as its decimal text, and NaN as "NaN" |
| Decimal.ValueLeadingZero | process.js:72-73 | a leading zero does not change a digit string's value |
| Normalize.NormalizeCensus | process.js:32-56 | a Census record keeps its geometry, takes state and name from its table row, has the number `DistrictNumber` gives for its code (never "98", otherwise the code itself), carries its interior point, and has no color, group or titles yet |
| Normalize.NormalizeNc | process.js:63-76 | a North Carolina record keeps its geometry, is in state "NC" named from the table row, has the file's number padded by `PadDistrict` (so never one character), and has no interior point, color, group or titles |
| Normalize.NormalizeAll | process.js:14-77 | a successful run has one feature per kept Census record and per North Carolina record; when the Census records all succeed, a failure names code 37 |
| Normalize.Kept | process.js:21-27 | the filter's test: a record is kept unless its district code is "ZZ" or its state code is 37; `Normalize.KeptRecordsExactly` states what it keeps |
| Normalize.KeptRecords | process.js:17-30 | the filter returns no more records than it was given |
| Normalize.KeptRecordsExactly | process.js:17-30 | a record survives the filter exactly when it is in the input, is not "ZZ" and is not North Carolina's |
| Normalize.KeptRecordsAppend | process.js:17-30 | the filter keeps order: filtering a concatenation is the concatenation of the filtered parts |
| Normalize.DistrictNumber | process.js:44 | the result is never "98"; it is "00" exactly when the Census code is "98" or "00"; any other code passes through unchanged |
| Normalize.PadDistrict | process.js:72-73 | a one-character number becomes '0' followed by that character; any other length is kept |
| Normalize.PadDistrictSuffix | process.js:72-73 | padding only prepends: the original number is a suffix of the result |
| Normalize.PadDistrictKeepsValue | process.js:72-73 | padding a digit string does not change the number `parseInt` reads from it |
| Normalize.NormalizeKept | process.js:32-56 | on success, one feature per kept record, in order, built from the record's table row; on failure, the error names the first kept record whose FIPS code the table lacks |
| Normalize.NormalizeNcAll | process.js:59-77 | the North Carolina records fail exactly when there is one and the table lacks code 37; on success, one feature per record in order, all named from row 37 |
| Normalize.NormalizeAllParts | process.js:14-77 | a successful run is the Census features followed by the North Carolina features |
| Normalize.NormalizeAllNc | process.js:59-77 | the North Carolina features come right after the Census ones, in their file's order |
| Normalize.NormalizeAllShape | process.js:14-77 | output length is kept records plus North Carolina records, and the kept records come first, in order |
| Normalize.NormalizeAllFails | process.js:37-68 | the run aborts exactly when a kept record's FIPS code is missing from the table, or there are North Carolina records and code 37 is missing |
| Normalize.CensusNumbersNeverReserved | process.js:17-56 | no output from the Census file has district number "ZZ" or "98" |
| Normalize.NcNumbersPadded | process.js:59-77 | every North Carolina feature in the run's output carries its file number padded to two characters, which reads as the same number when it is all digits |
| Colors.Token | process.js:93 | the dictionary key a fill is stored under: the fill itself, or "undefined" when the feature has none |
| Colors.Tokens | process.js:92-93 | one key per feature: the fill as a string, or "undefined" when there is none |
| Colors.FirstSeen | process.js:92-94 | the palette has no more entries than fills walked, and holds the last fill walked |
| Colors.FirstSeenKeys | process.js:92-94 | the palette's keys are exactly the distinct fill keys |
| Colors.FirstSeenPrefix | process.js:92-94 | an entry added earlier in the walk is never changed later |
| Colors.AddNextNumber | process.js:94 | giving a new key the current key count keeps the palette one-to-one and its indices exactly 0..count-1 |
| Colors.FirstSeenDense | process.js:92-94 | the palette is one-to-one and its indices are exactly 0..(number of distinct fills)-1 |
| Colors.FirstSeenOrder | process.js:93-94 | a fill's index is the number of distinct fills seen before its first appearance |
| Colors.RecolorNext | process.js:93-96 | one iteration in place: a new fill key gets the palette's size, a known key keeps its index, and only feature i changes, recolored with its key's index |
| Colors.WalkInvariantStep | process.js:92-97 | one iteration keeps the walk's invariant: the palette is `FirstSeen` of the keys walked, and the array holds the recolored features walked followed by the untouched rest |
| Colors.WalkStep | process.js:93-95 | one step of the walk: a new key gets the palette's size, a known key keeps its index, and the feature's index is the final palette's |
| Colors.Recolor | process.js:95-96 | a feature with `color_index` set to the given number and `fill` deleted; `Colors.RecoloredFeature` states that nothing else changes |
| Colors.Recolored | process.js:95-96 | every feature gets the final palette index of its own fill key; nothing else changes |
| Colors.CanonicalizeColors | process.js:91-97 | the in-place walk leaves the palette equal to `FirstSeen` of the fill keys and each feature recolored by it |
| Colors.RecoloredFeature | process.js:95-96 | after the walk a feature has a color index and no fill; its geometry and other properties are unchanged |
| Colors.SameIndexIffSameToken | process.js:93-95 | two features share a color index exactly when they had the same fill key |
| Colors.IndicesAreDense | process.js:91-97 | the color indices used are exactly 0..(number of distinct fills)-1 |
| Colors.AdjacencyPreserved | process.js:85-97 | if adjacent districts had different fills, they get different color indices |
| Titles.Ordinal | process.js:100-105 | the ordinal is the number's decimal text followed by a two-letter suffix |
| Titles.OrdinalText | process.js:127 | for NaN the long title shows "NaN" (NaN plus the table's `undefined` is NaN); for a number it shows the number's text followed by more |
| Titles.TitleShort | process.js:126 | no contract of its own; its value for every number is stated by `Titles.AtLargeTitles` ("00"), `Titles.NumberedTitles` (`parseInt` reads a number) and `Titles.NaNTitles` (`parseInt` gives NaN), which between them cover every input |
| Titles.TitleLong | process.js:127 | no contract of its own; its value for every number is stated by `Titles.AtLargeTitles` ("00"), `Titles.NumberedTitles` (`parseInt` reads a number) and `Titles.NaNTitles` (`parseInt` gives NaN), which between them cover every input |
| Titles.OrdinalIsEnglish | process.js:100-105 | the suffix-table ordinal is the English rule: 11th/12th/13th for those values modulo 100, otherwise st/nd/rd for last digit 1/2/3 and th otherwise |
| Titles.OrdinalReadsBack | process.js:100-105 | `parseInt` of an ordinal gives its number back |
| Titles.OrdinalSmall | process.js:100-105 | 1, 2, 3 and 4 become "1st", "2nd", "3rd" and "4th" |
| Titles.OrdinalTeens | process.js:102-103 | 11, 12 and 13 become "11th", "12th" and "13th" |
| Titles.OrdinalPastTwenty | process.js:100-105 | 21 becomes "21st" and 111 becomes "111th" |
| Titles.AtLargeTitles | process.js:126-127 | district "00" is titled "At Large" in both titles, with no ordinal |
| Titles.NumberedTitles | process.js:126-127 | for any number other than "00" that `parseInt` reads, the short title shows the value of its leading digits and the long title that value's ordinal; anything after the digits is ignored ("1A" is titled 1, "1st") |
| Titles.DigitNumberTitles | process.js:126-127 | a number made only of digits is titled with its value and that value's ordinal |
| Titles.NaNTitles | process.js:126-127 | a number other than "00" that `parseInt` reads as NaN is titled "NaN" in both titles, in the long title as "…’s NaN Congressional District" |
| Titles.TwoDigitTitle | process.js:126 | a two-digit number is shown as its value, so a leading zero is dropped ("01" is shown as "1") |
| Labels.Fallback | process.js:117 | the Census interior point `[label_pt_lon, label_pt_lat]`, when both coordinates are present |
| Labels.Anchor | process.js:113-119 | the solver's point when there is one, else the interior point; no anchor exactly when the solver fails and an interior coordinate is missing |
| Labels.LabelOf | process.js:122-132 | the label sits at the anchor, is in the label group, has both titles and no interior point, and otherwise has the district's properties |
| Labels.AsBoundary | process.js:133 | the district keeps its geometry and properties and gains the boundary group |
| Labels.MapFeatures | process.js:110-138 | the output has two features per district |
| Labels.PlaceLabels | process.js:110-138 | the in-place walk returns a label and then the district for each district, and leaves each district with the boundary group |
| Labels.MapFeaturesLayout | process.js:136-137 | the output has twice as many features as the input; position 2i is district i's label and 2i+1 is district i as a boundary |
| Labels.LabelAnchor | process.js:113-122 | the label sits at the solver's point when there is one, else at the interior point; it has no anchor only when both are missing |
| Labels.LabelAndBoundaryProps | process.js:125-133 | the label copies the district's properties, drops the interior point, adds both titles and the label group; the district only gains the boundary group |
| Labels.BoundariesOfMapFeatures | process.js:133-137 | the odd positions of the output are the input districts, in order, each with the boundary group |
| Bboxes.Extent | process.js:166-174 | the box of a box's corner polygon is well-formed, and equals the box when the box was well-formed |
| Bboxes.Hull | process.js:174 | the combined box contains both boxes, and any box containing both contains it |
| Bboxes.DistrictKey | process.js:162 | the district table's key: the state abbreviation followed by the district number |
| Bboxes.StateBoxes | process.js:173-175 | `stateBboxes` after the envelope loop: the same keys, in the same order, as the per-state collection; `Bboxes.StateBoxEnvelope` states its entries |
| Bboxes.Envelopes | process.js:173-175 | replacing each collection by its envelope keeps the key order and the keys, and every envelope is well-formed |
| Bboxes.Envelope | process.js:173-175 | the envelope of a state's boxes is well-formed |
| Bboxes.EnvelopeContains | process.js:166-175 | the envelope contains the corner box of each collected box |
| Bboxes.EnvelopeMinimal | process.js:173-175 | any box containing all the collected boxes contains the envelope |
| Bboxes.Put | process.js:162 | assigning `d[k] = v` makes k hold v, adds k to the keys, leaves other entries alone, and appends k to the key order only when it is new |
| Bboxes.DistrictBoxes | process.js:158-162 | the district table has at most one key per district |
| Bboxes.Collected | process.js:158-171 | the per-state collection has at most one key per district |
| Bboxes.CopyKeys | process.js:178-179 | copying keeps the target's key order as a prefix and adds at most one key per copied key |
| Bboxes.CopyInto | process.js:178-179 | copying keeps the target's key order as a prefix and adds at most the source's keys |
| Bboxes.AllBoxes | process.js:177-179 | the result table starts with the district table's key order and has at most two keys per district |
| Bboxes.PutValid | process.js:162 | assigning an object key keeps the key list free of duplicates and in step with the entries |
| Bboxes.DistrictBoxesValid | process.js:158-162 | the district table is a well-formed object |
| Bboxes.CollectedValid | process.js:158-171 | the per-state collection is a well-formed object |
| Bboxes.StateBoxesValid | process.js:173-175 | the state table is a well-formed object |
| Bboxes.CollectedNonEmpty | process.js:165-170 | every state in the collection has at least one box |
| Bboxes.CollectedKeys | process.js:165-170 | a state is in the collection exactly when some district belongs to it |
| Bboxes.CollectedByState | process.js:165-170 | a state's collected boxes are its districts' boxes, in order |
| Bboxes.BoxesOfStateEmpty | process.js:165-170 | a state with no districts collects no boxes |
| Bboxes.BoxesOfStateHas | process.js:165-170 | each district's box is collected under its state |
| Bboxes.BoxesOfStateFrom | process.js:165-170 | every box collected under a state is the box of one of its districts |
| Bboxes.StateBoxEnvelope | process.js:158-175 | a state has an entry exactly when it has a district; the entry contains every box of its districts and is the smallest box that does |
| Bboxes.DistrictBoxLookup | process.js:162 | the last district written under a key decides that key's box |
| Bboxes.DistrictBoxKeys | process.js:162 | a key is in the district table exactly when some district has it |
| Bboxes.CopyKeysEntries | process.js:178-179 | copying keys overwrites them with the source's values and leaves other entries alone |
| Bboxes.CopyKeysOrder | process.js:178-179 | copying new keys appends them to the key order |
| Bboxes.CopyIntoEmpty | process.js:178 | copying a table into an empty object reproduces it |
| Bboxes.CopyIntoEntries | process.js:178-179 | after copying, the entries are the target's overridden by the source's |
| Bboxes.CopyIntoOrder | process.js:178-179 | copying a table with disjoint keys appends its key order |
| Bboxes.AllBoxesLayout | process.js:177-179 | the result table holds the district entries overridden by the state entries; with disjoint keys, the district keys come first, then the state keys |
| Bboxes.KeysDisjoint | process.js:162-175 | when abbreviations have two characters and numbers are non-empty, district keys and state keys never collide |
| Bboxes.WalkDistricts | process.js:158-171 | the walk builds the district table and the per-state collection |
| Bboxes.ReplaceByEnvelopes | process.js:173-175 | the loop over states replaces each collection by its envelope |
| Bboxes.CopyAll | process.js:178-179 | the copy loop gives the target with every source key assigned |
| Bboxes.AggregateBoxes | process.js:155-179 | the three loops together build the result table from the districts and their boxes |
| Pipeline.WithFills | process.js:90 | the coloring library only sets each feature's fill |
| Pipeline.Run | process.js:14-179 | the build fails exactly when normalization fails; otherwise it outputs a label and a district for each kept and North Carolina record, and the box table of the recolored districts |

## Left out

- File reading and writing (process.js:8, 11, 15, 61, 142-150, 180) are not modelled: the inputs are given as values, and the map data and box table are results. The streaming JSON writer and `example/states.js` belong here too.
- Building the FIPS table from `states.json` (process.js:8-10) is not modelled; the table is a `map<nat, StateInfo>` input.
- `fiveColorMap` (process.js:90) is an external library. Its fills are an input (`Pipeline.WithFills`). That adjacent districts have different fills is a hypothesis of `Colors.AdjacencyPreserved`, not something proved.
- `polylabel` (process.js:113) is an external library. Its answer is an input per district, with `None` standing for NaN in the first coordinate.
- `turf.bbox` of a district geometry (process.js:159) is an external library. Each district's box is an input. The boxes of empty geometries (infinite extents) are not modelled.
- `parseFloat` of INTPTLON/INTPTLAT (process.js:51-52) is not modelled; the coordinates are given as reals.
- STATEFP is carried as an already-parsed number. The loose `== 37` comparison and `parseInt` at process.js:26, 37-38 are therefore not modelled on text.
- Decimal.ParseInt: models `parseInt` on non-negative decimal digits only; leading blanks, signs, hexadecimal prefixes and numbers above 2^53 are not modelled.
- Decimal.DecimalString: models JavaScript number-to-text only for non-negative integers, which is all the script prints.
- Object property order inside a feature, the JSON deep-copy of properties (process.js:125) and the GeoJSON `type` fields are not modelled. Features are immutable values, so the copy cannot alias.
- JavaScript orders integer-like object keys before other keys. This is not modelled: every key here starts with a two-letter abbreviation.
- Colors.Tokens: fills that collide with `Object.prototype` property names (such as "constructor") are not modelled; every fill is an ordinary key.
- `turf.point` (process.js:122) is an external library. How it treats undefined coordinates is not modelled; the model gives such a label no anchor (`Labels.Anchor`).
- Geometry contents are opaque: the model carries each geometry unchanged but does not inspect coordinates.
