/**
 * Record normalization: the nationwide Census district file is filtered and
 * re-shaped into the feature schema, and the North Carolina replacement file
 * is re-shaped and appended.
 */
module Normalize {
  import opened Wrappers
  import opened Features
  import opened Decimal

  /** A record of the nationwide Census file. `stateFp` is the numeric value
      of STATEFP, which the script both compares with 37 and looks up. */
  datatype CensusRecord = CensusRecord(
    stateFp: nat, cd116: string, intPtLon: real, intPtLat: real, geometry: Geometry)

  /** A record of the North Carolina replacement file. */
  datatype NcRecord = NcRecord(district: string, geometry: Geometry)

  /** One row of the state table: USPS abbreviation and full name. */
  datatype StateInfo = StateInfo(usps: string, name: string)

  /** The lookup from numeric FIPS code to state. */
  type FipsTable = map<nat, StateInfo>

  /** Looking up a FIPS code the table lacks aborts the run. */
  datatype NormalizeError = UnknownFips(code: nat)

  const NotADistrict := "ZZ"    // water area outside every district
  const IslandAtLarge := "98"   // territories' code for an at-large seat
  const AtLarge := "00"
  const NcFips: nat := 37       // the state whose districts come from the replacement file
  const NcUsps := "NC"

  /** The filter applied to the nationwide file. */
  predicate Kept(r: CensusRecord)
  {
    r.cd116 != NotADistrict && r.stateFp != NcFips
  }

  function KeptRecords(rs: seq<CensusRecord>): (kept: seq<CensusRecord>)
    ensures |kept| <= |rs|
    ensures forall r :: r in kept ==> r in rs && Kept(r)
  {
    if rs == [] then []
    else (if Kept(rs[0]) then [rs[0]] else []) + KeptRecords(rs[1..])
  }

  /** The district number of a Census record, with the territories' "98"
      read as at large. */
  function DistrictNumber(cd: string): (n: string)
    ensures n != IslandAtLarge
    ensures n == AtLarge <==> (cd == IslandAtLarge || cd == AtLarge)
    ensures cd != IslandAtLarge ==> n == cd
  {
    if cd == IslandAtLarge then AtLarge else cd
  }

  /** A replacement-file district number: one character gets a leading zero. */
  function PadDistrict(d: string): (n: string)
    ensures |d| == 1 ==> |n| == 2 && n[0] == '0' && n[1] == d[0]
    ensures |d| != 1 ==> n == d
  {
    (if |d| == 1 then "0" else "") + d
  }

  /** A kept Census record as a feature: named from its state's row, the
      territories' "98" read as at large, the interior point kept for the
      label, the geometry unchanged and nothing else set. */
  function NormalizeCensus(r: CensusRecord, info: StateInfo): (f: Feature)
    ensures f.geometry == r.geometry
    ensures f.props.state == info.usps && f.props.stateName == info.name
    ensures f.props.number == DistrictNumber(r.cd116)
    ensures f.props.number != IslandAtLarge && (r.cd116 != IslandAtLarge ==> f.props.number == r.cd116)
    ensures f.props.labelPtLon == Some(r.intPtLon) && f.props.labelPtLat == Some(r.intPtLat)
    ensures f.props.fill.None? && f.props.colorIndex.None? && f.props.group.None?
    ensures f.props.titleShort.None? && f.props.titleLong.None?
  {
    var p := BareProps(info.usps, info.name, DistrictNumber(r.cd116));
    Feature(p.(labelPtLon := Some(r.intPtLon), labelPtLat := Some(r.intPtLat)), r.geometry)
  }

  /** A replacement record as a feature: always "NC", named from the row it
      is given, its number padded, no interior point. */
  function NormalizeNc(r: NcRecord, info: StateInfo): (f: Feature)
    ensures f.geometry == r.geometry
    ensures f.props.state == NcUsps && f.props.stateName == info.name
    ensures f.props.number == PadDistrict(r.district)
    ensures |f.props.number| != 1
    ensures f.props.labelPtLon.None? && f.props.labelPtLat.None?
    ensures f.props.fill.None? && f.props.colorIndex.None? && f.props.group.None?
    ensures f.props.titleShort.None? && f.props.titleLong.None?
  {
    Feature(BareProps(NcUsps, info.name, PadDistrict(r.district)), r.geometry)
  }

  /** `kept[i]` is the first record whose state code the table lacks. */
  predicate FirstUnknown(kept: seq<CensusRecord>, table: FipsTable, i: int)
  {
    0 <= i < |kept| && kept[i].stateFp !in table &&
    forall j :: 0 <= j < i ==> kept[j].stateFp in table
  }

  /** Maps the kept records in order; the first record whose code the table
      lacks aborts with that code. */
  function NormalizeKept(kept: seq<CensusRecord>, table: FipsTable): (res: Result<seq<Feature>, NormalizeError>)
    ensures res.Ok? ==> |res.value| == |kept|
    ensures res.Ok? ==> forall i :: 0 <= i < |kept| ==>
      kept[i].stateFp in table && res.value[i] == NormalizeCensus(kept[i], table[kept[i].stateFp])
    ensures res.Err? ==>
      exists i :: FirstUnknown(kept, table, i) && res.error == UnknownFips(kept[i].stateFp)
  {
    if kept == [] then Ok([])
    else if kept[0].stateFp !in table then Err(UnknownFips(kept[0].stateFp))
    else match NormalizeKept(kept[1..], table)
      case Err(e) =>
        ghost var i :| FirstUnknown(kept[1..], table, i) && e == UnknownFips(kept[1..][i].stateFp);
        assert FirstUnknown(kept, table, i + 1);
        Err(e)
      case Ok(rest) =>
        Ok([NormalizeCensus(kept[0], table[kept[0].stateFp])] + rest)
  }

  /** The replacement records all take North Carolina's name from the table;
      the lookup only happens when there is a record to map. */
  function NormalizeNcAll(ncs: seq<NcRecord>, table: FipsTable): (res: Result<seq<Feature>, NormalizeError>)
    ensures res.Err? <==> ncs != [] && NcFips !in table
    ensures res.Err? ==> res.error == UnknownFips(NcFips)
    ensures res.Ok? ==> |res.value| == |ncs|
    ensures res.Ok? ==> forall j :: 0 <= j < |ncs| ==>
      NcFips in table && res.value[j] == NormalizeNc(ncs[j], table[NcFips])
  {
    if ncs == [] then Ok([])
    else if NcFips !in table then Err(UnknownFips(NcFips))
    else Ok(seq(|ncs|, i requires 0 <= i < |ncs| => NormalizeNc(ncs[i], table[NcFips])))
  }

  /** The whole normalization: kept Census records first, then the
      replacement records. */
  function NormalizeAll(rs: seq<CensusRecord>, ncs: seq<NcRecord>, table: FipsTable): (res: Result<seq<Feature>, NormalizeError>)
    ensures res.Ok? ==> |res.value| == |KeptRecords(rs)| + |ncs|
    ensures res.Err? && NormalizeKept(KeptRecords(rs), table).Ok? ==> res.error == UnknownFips(NcFips)
  {
    match NormalizeKept(KeptRecords(rs), table)
    case Err(e) => Err(e)
    case Ok(census) =>
      match NormalizeNcAll(ncs, table)
      case Err(e) => Err(e)
      case Ok(nc) => Ok(census + nc)
  }

  /** The filter drops exactly the "ZZ" records and the North Carolina records. */
  lemma {:induction false} KeptRecordsExactly(rs: seq<CensusRecord>, r: CensusRecord)
    ensures r in KeptRecords(rs) <==> r in rs && r.cd116 != NotADistrict && r.stateFp != NcFips
  {
    if rs != [] {
      KeptRecordsExactly(rs[1..], r);
      assert rs == [rs[0]] + rs[1..];
    }
  }

  /** The filter keeps order: filtering a concatenation filters each part. */
  lemma {:induction false} KeptRecordsAppend(a: seq<CensusRecord>, b: seq<CensusRecord>)
    ensures KeptRecords(a + b) == KeptRecords(a) + KeptRecords(b)
  {
    if a == [] {
      assert a + b == b;
    } else {
      assert (a + b)[1..] == a[1..] + b;
      KeptRecordsAppend(a[1..], b);
    }
  }

  /** A successful run is the mapped kept records followed by the mapped
      replacement records. */
  lemma NormalizeAllParts(rs: seq<CensusRecord>, ncs: seq<NcRecord>, table: FipsTable)
    requires NormalizeAll(rs, ncs, table).Ok?
    ensures NormalizeKept(KeptRecords(rs), table).Ok? && NormalizeNcAll(ncs, table).Ok?
    ensures NormalizeAll(rs, ncs, table).value ==
      NormalizeKept(KeptRecords(rs), table).value + NormalizeNcAll(ncs, table).value
  {
  }

  /** The replacement records' outputs follow them, in order. */
  lemma NormalizeAllNc(rs: seq<CensusRecord>, ncs: seq<NcRecord>, table: FipsTable, j: int)
    requires NormalizeAll(rs, ncs, table).Ok?
    requires 0 <= j < |ncs|
    ensures NcFips in table
    ensures |KeptRecords(rs)| + j < |NormalizeAll(rs, ncs, table).value|
    ensures NormalizeAll(rs, ncs, table).value[|KeptRecords(rs)| + j] == NormalizeNc(ncs[j], table[NcFips])
  {
    NormalizeAllParts(rs, ncs, table);
    var kept := KeptRecords(rs);
    var census := NormalizeKept(kept, table).value;
    var nc := NormalizeNcAll(ncs, table).value;
    assert |census| == |kept|;
    assert (census + nc)[|census| + j] == nc[j];
  }

  /** One output per kept record and per replacement record, the kept
      records' outputs first and in order (`NormalizeAllNc` places the
      replacement records after them). */
  lemma NormalizeAllShape(rs: seq<CensusRecord>, ncs: seq<NcRecord>, table: FipsTable)
    requires NormalizeAll(rs, ncs, table).Ok?
    ensures |NormalizeAll(rs, ncs, table).value| == |KeptRecords(rs)| + |ncs|
    ensures forall i :: 0 <= i < |KeptRecords(rs)| ==>
      KeptRecords(rs)[i].stateFp in table &&
      NormalizeAll(rs, ncs, table).value[i] ==
        NormalizeCensus(KeptRecords(rs)[i], table[KeptRecords(rs)[i].stateFp])
  {
    NormalizeAllParts(rs, ncs, table);
    forall i | 0 <= i < |KeptRecords(rs)|
      ensures KeptRecords(rs)[i].stateFp in table
      ensures NormalizeAll(rs, ncs, table).value[i] ==
        NormalizeCensus(KeptRecords(rs)[i], table[KeptRecords(rs)[i].stateFp])
    {
      var census := NormalizeKept(KeptRecords(rs), table).value;
      var nc := NormalizeNcAll(ncs, table).value;
      assert (census + nc)[i] == census[i];
    }
  }

  /** The run aborts exactly when a kept record's state, or North Carolina
      when there are replacement records, is missing from the table. */
  lemma NormalizeAllFails(rs: seq<CensusRecord>, ncs: seq<NcRecord>, table: FipsTable)
    ensures NormalizeAll(rs, ncs, table).Err? <==>
      (exists r :: r in rs && Kept(r) && r.stateFp !in table) || (ncs != [] && NcFips !in table)
  {
    var kept := KeptRecords(rs);
    if NormalizeKept(kept, table).Err? {
      var i :| FirstUnknown(kept, table, i);
      assert kept[i] in kept;
    } else {
      forall r | r in rs && Kept(r) ensures r.stateFp in table {
        KeptRecordsExactly(rs, r);
        var i :| 0 <= i < |kept| && kept[i] == r;
      }
    }
  }

  /** Every Census-derived district number is a real district: never the
      water code and never the territories' "98". */
  lemma CensusNumbersNeverReserved(rs: seq<CensusRecord>, ncs: seq<NcRecord>, table: FipsTable, i: nat)
    requires NormalizeAll(rs, ncs, table).Ok?
    requires i < |KeptRecords(rs)|
    ensures var n := NormalizeAll(rs, ncs, table).value[i].props.number;
      n != NotADistrict && n != IslandAtLarge &&
      (n == AtLarge <==> KeptRecords(rs)[i].cd116 in {IslandAtLarge, AtLarge})
  {
    NormalizeAllShape(rs, ncs, table);
    var kept := KeptRecords(rs);
    assert kept[i] in kept;
  }

  /** Every replacement-file district number in the output is the file's
      number padded, and reads as the same district number. */
  lemma NcNumbersPadded(rs: seq<CensusRecord>, ncs: seq<NcRecord>, table: FipsTable, j: nat)
    requires NormalizeAll(rs, ncs, table).Ok?
    requires j < |ncs|
    ensures |KeptRecords(rs)| + j < |NormalizeAll(rs, ncs, table).value|
    ensures var n := NormalizeAll(rs, ncs, table).value[|KeptRecords(rs)| + j].props.number;
      n == PadDistrict(ncs[j].district) &&
      (ncs[j].district != [] && AllDigits(ncs[j].district) ==> ParseInt(n) == ParseInt(ncs[j].district))
  {
    NormalizeAllNc(rs, ncs, table, j);
    if ncs[j].district != [] && AllDigits(ncs[j].district) {
      PadDistrictKeepsValue(ncs[j].district);
    }
  }

  /** Padding only ever prepends: the original number is a suffix. */
  lemma PadDistrictSuffix(d: string)
    ensures |PadDistrict(d)| >= |d|
    ensures PadDistrict(d)[|PadDistrict(d)| - |d|..] == d
  {
  }

  /** Padding a digit string does not change the number `parseInt` reads. */
  lemma PadDistrictKeepsValue(d: string)
    requires d != [] && AllDigits(d)
    ensures ParseInt(PadDistrict(d)) == ParseInt(d)
  {
    assert d + [] == d;
    ParseDigitsThen(d, []);
    if |d| == 1 {
      ValueLeadingZero(d);
      ParseDigitsThen("0" + d, []);
      assert "0" + d + [] == PadDistrict(d);
    }
  }
}
