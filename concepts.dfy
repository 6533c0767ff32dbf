/** The concept catalogue (`cleanup_concepts` and `extract_concepts`,
    script/ddf.py lines 126-227): structural concepts at fixed positions, the
    measures of the graph-settings spreadsheet, and three supplementary
    Systema Globalis measures. */
module Concepts {
  import opened Common
  import opened Lookup
  import EntityCountry

  datatype ConceptType = StringType | Measure | Time | EntityDomain | EntitySet

  /** One row of the graph-settings spreadsheet, by the fields the catalogue
      keeps: `ddf_id`, `Name`, `ddf_name`, `Tooltip`, the two menu levels,
      `Indicator url`, `Scale`, `ddf_unit` and `Interpolation`. */
  datatype MeasureRecord = MeasureRecord(
    concept: string, fullName: string, name: string, description: Option<string>,
    menuLevel1: Option<string>, menuLevel2: Option<string>, indicatorUrl: Option<string>,
    scale: Option<string>, unit: Option<string>, interpolation: Option<string>)

  /** A row of `cleanup_concepts`' result: the record and its `concept_type`. */
  datatype CleanConcept = CleanConcept(record: MeasureRecord, conceptType: ConceptType)

  /** A catalogue row before `scale` is dropped. */
  datatype ConceptRow = ConceptRow(
    concept: string, name: string, conceptType: ConceptType, description: Option<string>,
    indicatorUrl: Option<string>, scale: Option<string>, unit: Option<string>,
    interpolation: Option<string>, drillUp: Option<seq<string>>, domain: Option<string>,
    scales: Option<seq<string>>)

  /** A row of the final catalogue, the columns of `c_all`. */
  datatype Concept = Concept(
    concept: string, name: string, conceptType: ConceptType, description: Option<string>,
    indicatorUrl: Option<string>, unit: Option<string>, interpolation: Option<string>,
    drillUp: Option<seq<string>>, domain: Option<string>, scales: Option<seq<string>>)

  /** Metadata of one indicator in `mdata['indicatorsDB']`. */
  datatype IndicatorMeta = IndicatorMeta(sourceLink: string, scales: seq<string>)

  /** The placeholder row's concept: twenty-three em dashes (U+2014). */
  const Placeholder: string := "\U{2014}\U{2014}\U{2014}\U{2014}\U{2014}\U{2014}\U{2014}\U{2014}\U{2014}\U{2014}\U{2014}\U{2014}\U{2014}\U{2014}\U{2014}\U{2014}\U{2014}\U{2014}\U{2014}\U{2014}\U{2014}\U{2014}\U{2014}"

  /** The spreadsheet rows without the placeholder rows, in order. */
  function DropPlaceholder(rows: seq<MeasureRecord>): (r: seq<MeasureRecord>)
    ensures |r| <= |rows|
    ensures forall i :: 0 <= i < |r| ==> r[i].concept != Placeholder
  {
    if |rows| == 0 then []
    else (if rows[0].concept == Placeholder then [] else [rows[0]]) + DropPlaceholder(rows[1..])
  }

  /** Dropping distributes over concatenation, so the kept rows keep their order. */
  lemma {:induction false} DropPlaceholderAppend(a: seq<MeasureRecord>, b: seq<MeasureRecord>)
    ensures DropPlaceholder(a + b) == DropPlaceholder(a) + DropPlaceholder(b)
  {
    if |a| > 0 {
      assert (a + b)[1..] == a[1..] + b;
      DropPlaceholderAppend(a[1..], b);
    } else {
      assert a + b == b;
    }
  }

  /** Every other row is kept, as often as it occurs. */
  lemma {:induction false} DropPlaceholderKeeps(rows: seq<MeasureRecord>, x: MeasureRecord)
    requires x.concept != Placeholder
    ensures multiset(DropPlaceholder(rows))[x] == multiset(rows)[x]
  {
    if |rows| > 0 {
      assert rows == [rows[0]] + rows[1..];
      DropPlaceholderKeeps(rows[1..], x);
    }
  }

  /** Without placeholder rows nothing is dropped. */
  lemma {:induction false} DropPlaceholderNone(rows: seq<MeasureRecord>)
    requires forall i :: 0 <= i < |rows| ==> rows[i].concept != Placeholder
    ensures DropPlaceholder(rows) == rows
  {
    if |rows| > 0 {
      DropPlaceholderNone(rows[1..]);
      assert rows == [rows[0]] + rows[1..];
    }
  }

  function Records(cs: seq<CleanConcept>): (r: seq<MeasureRecord>)
    ensures |r| == |cs| && forall i :: 0 <= i < |cs| ==> r[i] == cs[i].record
  {
    seq(|cs|, i requires 0 <= i < |cs| => cs[i].record)
  }

  /** Every row other than a placeholder is kept, as often as it occurs,
      and each of them is among the kept rows. */
  lemma DropPlaceholderKeepsAll(rows: seq<MeasureRecord>)
    ensures forall x: MeasureRecord :: x.concept != Placeholder ==>
              multiset(DropPlaceholder(rows))[x] == multiset(rows)[x]
    ensures forall j :: 0 <= j < |rows| && rows[j].concept != Placeholder ==> rows[j] in DropPlaceholder(rows)
  {
    forall x: MeasureRecord | x.concept != Placeholder
      ensures multiset(DropPlaceholder(rows))[x] == multiset(rows)[x]
    {
      DropPlaceholderKeeps(rows, x);
    }
    forall j | 0 <= j < |rows| && rows[j].concept != Placeholder
      ensures rows[j] in DropPlaceholder(rows)
    {
      DropPlaceholderKeeps(rows, rows[j]);
      assert rows[j] in multiset(rows);
    }
  }

  /** `cleanup_concepts(concepts, drop_placeholder)`: every row becomes a
      measure. Without the flag the rows are kept as they are; with it no
      placeholder row is left, every other row is kept as often as it occurs,
      and the kept rows are the filter of the input in its order. */
  function CleanupConcepts(rows: seq<MeasureRecord>, dropPlaceholder: bool): (r: seq<CleanConcept>)
    ensures forall i :: 0 <= i < |r| ==> r[i].conceptType == Measure
    ensures !dropPlaceholder ==> Records(r) == rows
    ensures dropPlaceholder ==> forall i :: 0 <= i < |r| ==> r[i].record.concept != Placeholder
    ensures dropPlaceholder ==>
              forall x: MeasureRecord :: x.concept != Placeholder ==> multiset(Records(r))[x] == multiset(rows)[x]
    ensures dropPlaceholder ==> Records(r) == DropPlaceholder(rows)
  {
    var kept := if dropPlaceholder then DropPlaceholder(rows) else rows;
    var r := seq(|kept|, i requires 0 <= i < |kept| => CleanConcept(kept[i], Measure));
    assert Records(r) == kept;
    DropPlaceholderKeepsAll(rows);
    r
  }

  /** The display-order preference of line 170. */
  function Scales(scale: Option<string>): (r: seq<string>)
    ensures |r| == 2 && multiset(r) == multiset{"log", "linear"}
    ensures r[0] == "log" <==> scale == Some("log")
  {
    if scale == Some("log") then ["log", "linear"] else ["linear", "log"]
  }

  /** A spreadsheet measure in the catalogue (lines 165-170). */
  function MeasureRow(m: MeasureRecord): ConceptRow
  {
    ConceptRow(m.concept, m.name, Measure, m.description, m.indicatorUrl, m.scale, m.unit,
               m.interpolation, None, None, Some(Scales(m.scale)))
  }

  /** `cc` of lines 166-170: the spreadsheet measures without placeholder
      rows. Each is a measure with no drill-up or domain and its scales in
      display order, and every non-placeholder row has its row here. */
  function MeasureRows(rows: seq<MeasureRecord>): (r: seq<ConceptRow>)
    ensures |r| == |DropPlaceholder(rows)| <= |rows|
    ensures forall i :: 0 <= i < |r| ==>
              && r[i].conceptType == Measure && r[i].concept != Placeholder
              && r[i].drillUp.None? && r[i].domain.None?
              && r[i].scales == Some(Scales(r[i].scale))
    ensures forall j :: 0 <= j < |rows| && rows[j].concept != Placeholder ==> MeasureRow(rows[j]) in r
    ensures forall i :: 0 <= i < |r| ==> r[i] == MeasureRow(DropPlaceholder(rows)[i])
  {
    var kept := DropPlaceholder(rows);
    var r := seq(|kept|, i requires 0 <= i < |kept| => MeasureRow(kept[i]));
    DropPlaceholderKeepsAll(rows);
    MeasureRowsIn(kept, r);
    r
  }

  /** Rows built one per record hold the row of every record. */
  lemma MeasureRowsIn(kept: seq<MeasureRecord>, r: seq<ConceptRow>)
    requires |r| == |kept| && forall i :: 0 <= i < |kept| ==> r[i] == MeasureRow(kept[i])
    ensures forall x :: x in kept ==> MeasureRow(x) in r
  {
    forall x | x in kept ensures MeasureRow(x) in r {
      var i :| 0 <= i < |kept| && kept[i] == x;
      assert r[i] == MeasureRow(x);
    }
  }

  /** The keys of the dictionary `rm` of line 172; `rm` maps each of them to
      itself prefixed with `sg_`. */
  const RmKeys: seq<string> := ["gini", "population", "gdp_p_cap_const_ppp2011_dollar"]

  /** Python's `x[3:]`. */
  function Drop3(x: string): string
  {
    if |x| >= 3 then x[3..] else ""
  }

  /** The rows of `cc2` (lines 177-182) for the given concepts; the first
      concept whose key has no metadata raises. */
  function SupplementaryRows(cs: seq<string>, mdata: map<string, IndicatorMeta>): (r: Result<seq<ConceptRow>>)
    ensures r.Success? <==> forall i :: 0 <= i < |cs| ==> Drop3(cs[i]) in mdata
    ensures r.Success? ==>
      && |r.value| == |cs|
      && forall i :: 0 <= i < |cs| ==>
           && r.value[i].concept == cs[i] && r.value[i].name == cs[i]
           && r.value[i].conceptType == Measure
           && r.value[i].indicatorUrl == Some(mdata[Drop3(cs[i])].sourceLink)
           && r.value[i].scales == Some(mdata[Drop3(cs[i])].scales)
           && r.value[i].description.None? && r.value[i].scale.None? && r.value[i].unit.None?
           && r.value[i].interpolation.None? && r.value[i].drillUp.None? && r.value[i].domain.None?
    ensures r.Failure? ==>
      exists i :: 0 <= i < |cs| && Drop3(cs[i]) !in mdata && r.error == MissingIndicator(Drop3(cs[i]))
                  && forall i' :: 0 <= i' < i ==> Drop3(cs[i']) in mdata
  {
    if |cs| == 0 then Success([])
    else
      var key := Drop3(cs[0]);
      if key !in mdata then Failure(MissingIndicator(key))
      else
        var rest := SupplementaryRows(cs[1..], mdata);
        assert forall i :: 1 <= i < |cs| ==> cs[i] == cs[1..][i - 1];
        match rest
        case Failure(e) => Failure(e)
        case Success(rows) =>
          Success([ConceptRow(cs[0], cs[0], Measure, None, Some(mdata[key].sourceLink), None, None,
                              None, None, None, Some(mdata[key].scales))] + rows)
  }

  /** The concepts of `rm.values()`. */
  function SupplementaryConcepts(): (r: seq<string>)
    ensures |r| == |RmKeys| && forall i :: 0 <= i < |RmKeys| ==> r[i] == "sg_" + RmKeys[i]
  {
    seq(|RmKeys|, i requires 0 <= i < |RmKeys| => "sg_" + RmKeys[i])
  }

  /** Stripping the prefix gives back the key. */
  lemma Drop3Prefix(k: string)
    ensures Drop3("sg_" + k) == k
  {
    assert ("sg_" + k)[3..] == k;
  }

  /** The country-sheet headers after the renaming of line 186. */
  function Renamed(columns: seq<string>): (r: seq<string>)
    ensures |r| == |columns| && forall j :: 0 <= j < |columns| ==> r[j] == EntityCountry.Rename(columns[j])
  {
    seq(|columns|, j requires 0 <= j < |columns| => EntityCountry.Rename(columns[j]))
  }

  /** The sheet headers that become structural concepts (line 188). */
  function SheetConceptNames(columns: seq<string>): seq<string>
  {
    EntityCountry.Without(Renamed(columns), {"Name", "ISO3dig_ext"})
  }

  function GroupingNames(gps: seq<Grouping>): (r: seq<string>)
    ensures |r| == |gps| && forall i :: 0 <= i < |gps| ==> r[i] == gps[i].n
  {
    seq(|gps|, i requires 0 <= i < |gps| => gps[i].n)
  }

  function Slugs(xs: seq<string>, toId: Slugger): (r: seq<string>)
    ensures |r| == |xs| && forall i :: 0 <= i < |xs| ==> r[i] == toId(xs[i], Plain)
  {
    seq(|xs|, i requires 0 <= i < |xs| => toId(xs[i], Plain))
  }

  const FixedIds: seq<string> := ["geo", "country", "time", "name", "gwid", "name_short", "name_long", "description"]
  const FixedNames: seq<string> := ["Geo", "Country", "Time", "Name", "Gwid", "Name Short", "Name Long", "Description"]
  const TrailingIds: seq<string> :=
    ["indicator_url", "scales", "unit", "interpolation", "world_4region", "latitude", "longitude", "year",
     "global"]

  function TrailingNames(w4rName: string): seq<string>
  {
    ["Indicator Url", "Scales", "Unit", "Interpolation", w4rName, "Latitude", "Longitude", "Year", "World"]
  }

  /** `dcl_` of line 194: the structural concept ids. */
  function StructuralIds(gps: seq<Grouping>, columns: seq<string>, toId: Slugger): (r: seq<string>)
    ensures |r| == |gps| + 17 + |SheetConceptNames(columns)|
  {
    Slugs(GroupingNames(gps), toId) + FixedIds + Slugs(SheetConceptNames(columns), toId) + TrailingIds
  }

  /** `dcl_2` of line 196: their display names. */
  function StructuralNames(gps: seq<Grouping>, columns: seq<string>, w4rName: string): (r: seq<string>)
    ensures |r| == |gps| + 17 + |SheetConceptNames(columns)|
  {
    GroupingNames(gps) + FixedNames + SheetConceptNames(columns) + TrailingNames(w4rName)
  }

  /** The two lists are parallel, and wherever an id is derived from a name
      it is that name's slug. */
  lemma StructuralAligned(gps: seq<Grouping>, columns: seq<string>, w4rName: string, toId: Slugger)
    ensures forall k :: 0 <= k < |gps| || |gps| + 8 <= k < |gps| + 8 + |SheetConceptNames(columns)| ==>
              StructuralIds(gps, columns, toId)[k] == toId(StructuralNames(gps, columns, w4rName)[k], Plain)
  {
  }

  /** A structural row after the three column assignments of lines 199-203. */
  function Blank(id: string, name: string): ConceptRow
  {
    ConceptRow(id, name, StringType, None, None, None, None, None, None, None, None)
  }

  /** The declarative form of the positional overrides of lines 204-221,
      column by column. */
  function TypeAt(k: nat): ConceptType
  {
    if k <= 5 || k == 7 || k == 36 || k == 40 then EntitySet
    else if k == 6 then EntityDomain
    else if k == 8 || k == 39 then Time
    else if k == 37 || k == 38 then Measure
    else StringType
  }

  function DomainAt(k: nat): Option<string>
  {
    if k <= 5 || k == 7 || k == 36 || k == 40 then Some("geo")
    else if k == 8 then Some("year")
    else if k == 39 then Some("time")
    else None
  }

  function UnitAt(k: nat): Option<string>
  {
    if k == 37 || k == 38 then Some("degrees") else None
  }

  function ScaleAt(k: nat): Option<string>
  {
    if k == 37 then Some("lat") else if k == 38 then Some("long") else None
  }

  /** The structural row at position `k`; only `country` drills up. */
  function StructuralRow(k: nat, id: string, name: string, dcl: seq<string>): ConceptRow
  {
    ConceptRow(id, name, TypeAt(k), None, None, ScaleAt(k), UnitAt(k), None,
               if k == 7 then Some(dcl) else None, DomainAt(k), None)
  }

  function StructuralRows(ids: seq<string>, names: seq<string>, dcl: seq<string>): (r: seq<ConceptRow>)
    requires |ids| == |names|
    ensures |r| == |ids|
    ensures forall k :: 0 <= k < |ids| ==> r[k] == StructuralRow(k, ids[k], names[k], dcl)
  {
    seq(|ids|, k requires 0 <= k < |ids| => StructuralRow(k, ids[k], names[k], dcl))
  }

  /** Rows before `p` carry their overrides, the rest are still blank. */
  ghost predicate FilledUpTo(s: seq<ConceptRow>, ids: seq<string>, names: seq<string>, dcl: seq<string>, p: nat)
    requires |s| == |ids| == |names|
  {
    && (forall j :: 0 <= j < |s| && j < p ==> s[j] == StructuralRow(j, ids[j], names[j], dcl))
    && (forall j :: p <= j < |s| ==> s[j] == Blank(ids[j], names[j]))
  }

  /** Overriding the next row extends the filled prefix by one. */
  lemma FillStep(s: seq<ConceptRow>, ids: seq<string>, names: seq<string>, dcl: seq<string>, p: nat)
    requires |s| == |ids| == |names| && p < |s|
    requires FilledUpTo(s, ids, names, dcl, p)
    ensures FilledUpTo(s[p := StructuralRow(p, ids[p], names[p], dcl)], ids, names, dcl, p + 1)
  {
  }

  /** Rows without overrides, and rows past the end, need no write. */
  lemma FillSkip(s: seq<ConceptRow>, ids: seq<string>, names: seq<string>, dcl: seq<string>, p: nat, q: nat)
    requires |s| == |ids| == |names| && p <= q
    requires FilledUpTo(s, ids, names, dcl, p)
    requires forall j :: p <= j < q && j < |s| ==> StructuralRow(j, ids[j], names[j], dcl) == Blank(ids[j], names[j])
    ensures FilledUpTo(s, ids, names, dcl, q)
  {
  }

  /** Lines 204-205: the grouping rows are entity sets in the `geo` domain. */
  method FillGroupings(a: array<ConceptRow>, ids: seq<string>, names: seq<string>, dcl: seq<string>)
    requires a.Length == |ids| == |names|
    requires FilledUpTo(a[..], ids, names, dcl, 0)
    modifies a
    ensures FilledUpTo(a[..], ids, names, dcl, 6)
  {
    var k := 0;
    while k <= 5 && k < a.Length
      invariant 0 <= k <= a.Length && k <= 6
      invariant FilledUpTo(a[..], ids, names, dcl, k)
    {
      FillStep(a[..], ids, names, dcl, k);
      a[k] := a[k].(conceptType := EntitySet, domain := Some("geo"));
      k := k + 1;
    }
  }

  /** Lines 206-212: `geo`, `country` and `time`. */
  method FillDomains(a: array<ConceptRow>, ids: seq<string>, names: seq<string>, dcl: seq<string>)
    requires a.Length == |ids| == |names|
    requires FilledUpTo(a[..], ids, names, dcl, 6)
    modifies a
    ensures FilledUpTo(a[..], ids, names, dcl, 36)
  {
    if 6 < a.Length {
      FillStep(a[..], ids, names, dcl, 6);
      a[6] := a[6].(conceptType := EntityDomain);
    }
    FillSkip(a[..], ids, names, dcl, 7, 7);
    if 7 < a.Length {
      FillStep(a[..], ids, names, dcl, 7);
      a[7] := a[7].(conceptType := EntitySet, drillUp := Some(dcl), domain := Some("geo"));
    }
    FillSkip(a[..], ids, names, dcl, 8, 8);
    if 8 < a.Length {
      FillStep(a[..], ids, names, dcl, 8);
      a[8] := a[8].(conceptType := Time, domain := Some("year"));
    }
    FillSkip(a[..], ids, names, dcl, 9, 36);
  }

  /** Lines 213-218: `world_4region` and the coordinates. */
  method FillTrailing(a: array<ConceptRow>, ids: seq<string>, names: seq<string>, dcl: seq<string>)
    requires a.Length == |ids| == |names|
    requires FilledUpTo(a[..], ids, names, dcl, 36)
    modifies a
    ensures FilledUpTo(a[..], ids, names, dcl, 39)
  {
    if 36 < a.Length {
      FillStep(a[..], ids, names, dcl, 36);
      a[36] := a[36].(conceptType := EntitySet, domain := Some("geo"));
    }
    FillSkip(a[..], ids, names, dcl, 37, 37);
    if 37 < a.Length {
      FillStep(a[..], ids, names, dcl, 37);
      a[37] := a[37].(conceptType := Measure, unit := Some("degrees"), scale := Some("lat"));
    }
    FillSkip(a[..], ids, names, dcl, 38, 38);
    if 38 < a.Length {
      FillStep(a[..], ids, names, dcl, 38);
      a[38] := a[38].(conceptType := Measure, unit := Some("degrees"), scale := Some("long"));
    }
    FillSkip(a[..], ids, names, dcl, 39, 39);
  }

  /** Lines 219-221: `year` and `global`. */
  method FillCalendar(a: array<ConceptRow>, ids: seq<string>, names: seq<string>, dcl: seq<string>)
    requires a.Length == |ids| == |names|
    requires FilledUpTo(a[..], ids, names, dcl, 39)
    modifies a
    ensures FilledUpTo(a[..], ids, names, dcl, a.Length)
  {
    if 39 < a.Length {
      FillStep(a[..], ids, names, dcl, 39);
      a[39] := a[39].(conceptType := Time, domain := Some("time"));
    }
    FillSkip(a[..], ids, names, dcl, 40, 40);
    if 40 < a.Length {
      FillStep(a[..], ids, names, dcl, 40);
      a[40] := a[40].(conceptType := EntitySet, domain := Some("geo"));
    }
    FillSkip(a[..], ids, names, dcl, 41, 41 + a.Length);
  }

  /** Lines 199-221: fill `dc` column by column, then overwrite cells by row
      position; positions past the end are skipped. */
  method FillStructural(ids: seq<string>, names: seq<string>, dcl: seq<string>) returns (dc: seq<ConceptRow>)
    requires |ids| == |names|
    ensures dc == StructuralRows(ids, names, dcl)
  {
    var a := new ConceptRow[|ids|](k requires 0 <= k < |ids| => Blank(ids[k], names[k]));
    FillGroupings(a, ids, names, dcl);
    FillDomains(a, ids, names, dcl);
    FillTrailing(a, ids, names, dcl);
    FillCalendar(a, ids, names, dcl);
    dc := a[..];
  }

  /** Line 225: the catalogue without its `scale` column. */
  function DropScale(c: ConceptRow): Concept
  {
    Concept(c.concept, c.name, c.conceptType, c.description, c.indicatorUrl, c.unit,
            c.interpolation, c.drillUp, c.domain, c.scales)
  }

  function DropScales(cs: seq<ConceptRow>): (r: seq<Concept>)
    ensures |r| == |cs| && forall i :: 0 <= i < |cs| ==> r[i] == DropScale(cs[i])
  {
    seq(|cs|, i requires 0 <= i < |cs| => DropScale(cs[i]))
  }

  /** Line 224: structural rows, spreadsheet measures, supplementary measures. */
  function Combine(gps: seq<Grouping>, columns: seq<string>, w4rName: string, cs: seq<MeasureRecord>,
                   cc2: seq<ConceptRow>, toId: Slugger): seq<Concept>
  {
    var dc := StructuralRows(StructuralIds(gps, columns, toId), StructuralNames(gps, columns, w4rName),
                             Slugs(GroupingNames(gps), toId));
    DropScales(dc + MeasureRows(cs) + cc2)
  }

  /** What `extract_concepts(cs, geo, gps, sgdc, mdata)` returns or raises.
      `columns` is the country sheet's header row; `sgdc` the (concept, name)
      pairs of the discrete-concept table. */
  function ConceptCatalogue(cs: seq<MeasureRecord>, columns: seq<string>, gps: seq<Grouping>,
                            sgdc: seq<(string, string)>, mdata: map<string, IndicatorMeta>,
                            toId: Slugger): Result<seq<Concept>>
  {
    match SupplementaryRows(SupplementaryConcepts(), mdata)
    case Failure(e) => Failure(e)
    case Success(cc2) =>
      if "Name" !in Renamed(columns) then Failure(MissingColumn("Name"))
      else if "ISO3dig_ext" !in Renamed(columns) then Failure(MissingColumn("ISO3dig_ext"))
      else
        match FirstMatch(sgdc, "world_4region")
        case None => Failure(MissingWorld4Region)
        case Some(w4rName) => Success(Combine(gps, columns, w4rName, cs, cc2, toId))
  }

  /** Lines 146-227. */
  method ExtractConcepts(cs: seq<MeasureRecord>, columns: seq<string>, gps: seq<Grouping>,
                         sgdc: seq<(string, string)>, mdata: map<string, IndicatorMeta>, toId: Slugger)
    returns (r: Result<seq<Concept>>)
    ensures r == ConceptCatalogue(cs, columns, gps, sgdc, mdata, toId)
  {
    var cc := MeasureRows(cs);
    var cc2 := SupplementaryRows(SupplementaryConcepts(), mdata);
    if cc2.Failure? {
      return Failure(cc2.error);
    }
    var dcl := Slugs(GroupingNames(gps), toId);
    var renamed := Renamed(columns);
    if "Name" !in renamed {
      return Failure(MissingColumn("Name"));
    }
    if "ISO3dig_ext" !in renamed {
      return Failure(MissingColumn("ISO3dig_ext"));
    }
    var w4r := FirstMatch(sgdc, "world_4region");
    if w4r.None? {
      return Failure(MissingWorld4Region);
    }
    var ids := StructuralIds(gps, columns, toId);
    var names := StructuralNames(gps, columns, w4r.value);
    var dc := FillStructural(ids, names, dcl);
    r := Success(DropScales(dc + cc + cc2.value));
  }

  /** The supplementary rows exist exactly when every key of `rm` has
      metadata. */
  lemma SupplementaryDefined(mdata: map<string, IndicatorMeta>)
    ensures SupplementaryRows(SupplementaryConcepts(), mdata).Success? <==>
            forall i :: 0 <= i < |RmKeys| ==> RmKeys[i] in mdata
  {
    var keys := SupplementaryConcepts();
    forall i | 0 <= i < |RmKeys|
      ensures Drop3(keys[i]) == RmKeys[i]
    {
      Drop3Prefix(RmKeys[i]);
    }
  }

  /** `Name` is present after renaming exactly when `Use Name` or `Name` was. */
  lemma RenamedName(columns: seq<string>)
    ensures "Name" in Renamed(columns) <==>
            exists j :: 0 <= j < |columns| && (columns[j] == "Use Name" || columns[j] == "Name")
  {
    if "Name" in Renamed(columns) {
      var j :| 0 <= j < |columns| && Renamed(columns)[j] == "Name";
    }
    if exists j :: 0 <= j < |columns| && (columns[j] == "Use Name" || columns[j] == "Name") {
      var j :| 0 <= j < |columns| && (columns[j] == "Use Name" || columns[j] == "Name");
      assert Renamed(columns)[j] == "Name";
    }
  }

  /** `ISO3dig_ext` is present after renaming exactly when it was before. */
  lemma RenamedIso(columns: seq<string>)
    ensures "ISO3dig_ext" in Renamed(columns) <==> "ISO3dig_ext" in columns
  {
    if "ISO3dig_ext" in Renamed(columns) {
      var j :| 0 <= j < |columns| && Renamed(columns)[j] == "ISO3dig_ext";
    }
    if "ISO3dig_ext" in columns {
      var j :| 0 <= j < |columns| && columns[j] == "ISO3dig_ext";
      assert Renamed(columns)[j] == "ISO3dig_ext";
    }
  }

  /** The catalogue exists exactly when the three supplementary keys have
      metadata, the sheet has its name and ISO columns, and the discrete
      concepts name `world_4region`. */
  lemma CatalogueFails(cs: seq<MeasureRecord>, columns: seq<string>, gps: seq<Grouping>,
                       sgdc: seq<(string, string)>, mdata: map<string, IndicatorMeta>, toId: Slugger)
    ensures ConceptCatalogue(cs, columns, gps, sgdc, mdata, toId).Success? <==>
      && (forall i :: 0 <= i < |RmKeys| ==> RmKeys[i] in mdata)
      && (exists j :: 0 <= j < |columns| && (columns[j] == "Use Name" || columns[j] == "Name"))
      && "ISO3dig_ext" in columns
      && (exists i :: 0 <= i < |sgdc| && sgdc[i].0 == "world_4region")
  {
    SupplementaryDefined(mdata);
    RenamedName(columns);
    RenamedIso(columns);
  }

  /** Dropping `scale` commutes with concatenation. */
  lemma DropScalesAppend(a: seq<ConceptRow>, b: seq<ConceptRow>)
    ensures DropScales(a + b) == DropScales(a) + DropScales(b)
  {
    assert forall i :: 0 <= i < |a| ==> (a + b)[i] == a[i];
    assert forall i :: 0 <= i < |b| ==> (a + b)[|a| + i] == b[i];
  }

  /** The combined catalogue in three segments. */
  lemma CombineSegments(gps: seq<Grouping>, columns: seq<string>, w4rName: string, cs: seq<MeasureRecord>,
                        cc2: seq<ConceptRow>, toId: Slugger)
    ensures Combine(gps, columns, w4rName, cs, cc2, toId)
            == DropScales(StructuralRows(StructuralIds(gps, columns, toId), StructuralNames(gps, columns, w4rName),
                                         Slugs(GroupingNames(gps), toId)))
               + DropScales(MeasureRows(cs)) + DropScales(cc2)
  {
    var dc := StructuralRows(StructuralIds(gps, columns, toId), StructuralNames(gps, columns, w4rName),
                             Slugs(GroupingNames(gps), toId));
    DropScalesAppend(dc + MeasureRows(cs), cc2);
    DropScalesAppend(dc, MeasureRows(cs));
  }

  /** A successful catalogue is the combination of its parts. */
  lemma CatalogueValue(cs: seq<MeasureRecord>, columns: seq<string>, gps: seq<Grouping>,
                       sgdc: seq<(string, string)>, mdata: map<string, IndicatorMeta>, toId: Slugger)
    requires ConceptCatalogue(cs, columns, gps, sgdc, mdata, toId).Success?
    ensures SupplementaryRows(SupplementaryConcepts(), mdata).Success?
    ensures FirstMatch(sgdc, "world_4region").Some?
    ensures ConceptCatalogue(cs, columns, gps, sgdc, mdata, toId).value
            == Combine(gps, columns, FirstMatch(sgdc, "world_4region").value, cs,
                       SupplementaryRows(SupplementaryConcepts(), mdata).value, toId)
  {
  }

  /** On success the catalogue is the structural rows, then the spreadsheet
      measures without placeholders, then the three supplementary measures,
      all without `scale`. */
  lemma CatalogueSegments(cs: seq<MeasureRecord>, columns: seq<string>, gps: seq<Grouping>,
                          sgdc: seq<(string, string)>, mdata: map<string, IndicatorMeta>, toId: Slugger)
    requires ConceptCatalogue(cs, columns, gps, sgdc, mdata, toId).Success?
    ensures
      var c := ConceptCatalogue(cs, columns, gps, sgdc, mdata, toId).value;
      var ids := StructuralIds(gps, columns, toId);
      var names := StructuralNames(gps, columns, FirstMatch(sgdc, "world_4region").value);
      var n := |ids|;
      var m := |DropPlaceholder(cs)|;
      && |c| == n + m + 3
      && c[..n] == DropScales(StructuralRows(ids, names, Slugs(GroupingNames(gps), toId)))
      && c[n..n + m] == DropScales(MeasureRows(cs))
      && c[n + m..] == DropScales(SupplementaryRows(SupplementaryConcepts(), mdata).value)
  {
    CatalogueValue(cs, columns, gps, sgdc, mdata, toId);
    CombineSegments(gps, columns, FirstMatch(sgdc, "world_4region").value, cs,
                    SupplementaryRows(SupplementaryConcepts(), mdata).value, toId);
  }

  /** No placeholder row reaches the catalogue's measure segment, and that
      segment keeps the spreadsheet's other rows in order. */
  lemma CatalogueNoPlaceholder(cs: seq<MeasureRecord>, columns: seq<string>, gps: seq<Grouping>,
                               sgdc: seq<(string, string)>, mdata: map<string, IndicatorMeta>, toId: Slugger)
    requires ConceptCatalogue(cs, columns, gps, sgdc, mdata, toId).Success?
    ensures
      var c := ConceptCatalogue(cs, columns, gps, sgdc, mdata, toId).value;
      var n := |StructuralIds(gps, columns, toId)|;
      var kept := DropPlaceholder(cs);
      && n + |kept| <= |c|
      && forall i :: 0 <= i < |kept| ==>
           c[n..n + |kept|][i].concept == kept[i].concept && kept[i].concept != Placeholder
  {
    CatalogueSegments(cs, columns, gps, sgdc, mdata, toId);
  }

  /** The catalogue ends with one measure per key `k` of `rm`, in order:
      concept and name `sg_` + `k`, with the indicator url and scales of
      `k`'s metadata. */
  lemma CatalogueSupplementary(cs: seq<MeasureRecord>, columns: seq<string>, gps: seq<Grouping>,
                               sgdc: seq<(string, string)>, mdata: map<string, IndicatorMeta>, toId: Slugger)
    requires ConceptCatalogue(cs, columns, gps, sgdc, mdata, toId).Success?
    ensures
      var c := ConceptCatalogue(cs, columns, gps, sgdc, mdata, toId).value;
      && |c| >= |RmKeys|
      && forall i :: 0 <= i < |RmKeys| ==>
           var row := c[|c| - |RmKeys|..][i];
           var k := RmKeys[i];
           && row.concept == "sg_" + k && row.name == "sg_" + k && row.conceptType == Measure
           && k in mdata
           && row.indicatorUrl == Some(mdata[k].sourceLink)
           && row.scales == Some(mdata[k].scales)
  {
    CatalogueSegments(cs, columns, gps, sgdc, mdata, toId);
    forall i | 0 <= i < |RmKeys| {
      Drop3Prefix(RmKeys[i]);
    }
  }

  /** With six grouping levels and eighteen sheet concepts, the shape the
      hard-coded positions assume, every override lands on its intended
      concept: the groupings, `geo`, `country` (drilling up to the grouping
      slugs), `time`, `world_4region`, `latitude`, `longitude`, `year` and
      `global`; every other structural row is a string. */
  lemma StructuralPositions(gps: seq<Grouping>, columns: seq<string>, w4rName: string, toId: Slugger)
    requires |gps| == 6 && |SheetConceptNames(columns)| == 18
    ensures
      var ids := StructuralIds(gps, columns, toId);
      var dcl := Slugs(GroupingNames(gps), toId);
      var rows := StructuralRows(ids, StructuralNames(gps, columns, w4rName), dcl);
      && |rows| == 41
      && (forall k :: 0 <= k < 6 ==> rows[k].concept == toId(gps[k].n, Plain)
                                     && rows[k].conceptType == EntitySet && rows[k].domain == Some("geo"))
      && rows[6].concept == "geo" && rows[6].conceptType == EntityDomain && rows[6].domain.None?
      && rows[7].concept == "country" && rows[7].conceptType == EntitySet
      && rows[7].drillUp == Some(dcl) && rows[7].domain == Some("geo")
      && rows[8].concept == "time" && rows[8].conceptType == Time && rows[8].domain == Some("year")
      && rows[36].concept == "world_4region" && rows[36].name == w4rName
      && rows[36].conceptType == EntitySet && rows[36].domain == Some("geo")
      && rows[37].concept == "latitude" && rows[37].conceptType == Measure
      && rows[37].unit == Some("degrees") && rows[37].scale == Some("lat")
      && rows[38].concept == "longitude" && rows[38].conceptType == Measure
      && rows[38].unit == Some("degrees") && rows[38].scale == Some("long")
      && rows[39].concept == "year" && rows[39].conceptType == Time && rows[39].domain == Some("time")
      && rows[40].concept == "global" && rows[40].name == "World"
      && rows[40].conceptType == EntitySet && rows[40].domain == Some("geo")
      && (forall k :: 9 <= k < 36 ==> rows[k].conceptType == StringType && rows[k].domain.None?)
      && (forall k :: 0 <= k < 41 && k != 7 ==> rows[k].drillUp.None?)
  {
    StructuralHead(gps, columns, w4rName, toId);
    StructuralTail(gps, columns, w4rName, toId);
  }

  /** The groupings, `geo`, `country` and `time` rows of a 41-row catalogue. */
  lemma StructuralHead(gps: seq<Grouping>, columns: seq<string>, w4rName: string, toId: Slugger)
    requires |gps| == 6 && |SheetConceptNames(columns)| == 18
    ensures
      var ids := StructuralIds(gps, columns, toId);
      var dcl := Slugs(GroupingNames(gps), toId);
      var rows := StructuralRows(ids, StructuralNames(gps, columns, w4rName), dcl);
      && |rows| == 41
      && (forall k :: 0 <= k < 6 ==> rows[k].concept == toId(gps[k].n, Plain)
                                     && rows[k].conceptType == EntitySet && rows[k].domain == Some("geo"))
      && rows[6].concept == "geo" && rows[6].conceptType == EntityDomain && rows[6].domain.None?
      && rows[7].concept == "country" && rows[7].conceptType == EntitySet
      && rows[7].drillUp == Some(dcl) && rows[7].domain == Some("geo")
      && rows[8].concept == "time" && rows[8].conceptType == Time && rows[8].domain == Some("year")
      && (forall k :: 0 <= k < 41 && k != 7 ==> rows[k].drillUp.None?)
  {
  }

  /** The sheet, `world_4region`, coordinate, `year` and `global` rows of a
      41-row catalogue. */
  lemma StructuralTail(gps: seq<Grouping>, columns: seq<string>, w4rName: string, toId: Slugger)
    requires |gps| == 6 && |SheetConceptNames(columns)| == 18
    ensures
      var ids := StructuralIds(gps, columns, toId);
      var rows := StructuralRows(ids, StructuralNames(gps, columns, w4rName), Slugs(GroupingNames(gps), toId));
      && |rows| == 41
      && rows[36].concept == "world_4region" && rows[36].name == w4rName
      && rows[36].conceptType == EntitySet && rows[36].domain == Some("geo")
      && rows[37].concept == "latitude" && rows[37].conceptType == Measure
      && rows[37].unit == Some("degrees") && rows[37].scale == Some("lat")
      && rows[38].concept == "longitude" && rows[38].conceptType == Measure
      && rows[38].unit == Some("degrees") && rows[38].scale == Some("long")
      && rows[39].concept == "year" && rows[39].conceptType == Time && rows[39].domain == Some("time")
      && rows[40].concept == "global" && rows[40].name == "World"
      && rows[40].conceptType == EntitySet && rows[40].domain == Some("geo")
      && (forall k :: 9 <= k < 36 ==> rows[k].conceptType == StringType && rows[k].domain.None?)
  {
  }

  /** A sheet header other than the two dropped ones, and not renamed,
      becomes a structural concept. */
  lemma SheetKeeps(columns: seq<string>, c: string)
    requires c in columns && EntityCountry.Rename(c) == c && c != "Name" && c != "ISO3dig_ext"
    ensures c in SheetConceptNames(columns)
  {
    var g :| 0 <= g < |columns| && columns[g] == c;
    assert Renamed(columns)[g] == c;
  }

  /** Where the fixed `gwid` and the sheet's concepts sit among the ids. */
  lemma StructuralIdsAt(gps: seq<Grouping>, columns: seq<string>, toId: Slugger)
    ensures StructuralIds(gps, columns, toId)[|gps| + 4] == "gwid"
    ensures forall p :: 0 <= p < |SheetConceptNames(columns)| ==>
              StructuralIds(gps, columns, toId)[|gps| + 8 + p] == toId(SheetConceptNames(columns)[p], Plain)
  {
    var sheet := SheetConceptNames(columns);
    var head := Slugs(GroupingNames(gps), toId) + FixedIds;
    assert StructuralIds(gps, columns, toId) == head + Slugs(sheet, toId) + TrailingIds;
    assert head[|gps| + 4] == "gwid";
  }

  /** With a `Gwid` sheet header slugged to `gwid`, two structural ids are `gwid`. */
  lemma StructuralGwidTwice(gps: seq<Grouping>, columns: seq<string>, toId: Slugger)
    requires "Gwid" in columns && toId("Gwid", Plain) == "gwid"
    ensures exists j :: |gps| + 4 < j < |StructuralIds(gps, columns, toId)|
                        && StructuralIds(gps, columns, toId)[j] == "gwid"
    ensures StructuralIds(gps, columns, toId)[|gps| + 4] == "gwid"
  {
    SheetKeeps(columns, "Gwid");
    StructuralIdsAt(gps, columns, toId);
    var sheet := SheetConceptNames(columns);
    var p :| 0 <= p < |sheet| && sheet[p] == "Gwid";
    assert StructuralIds(gps, columns, toId)[|gps| + 8 + p] == "gwid";
  }

  /** The sheet's `Gwid` header survives the drop of line 188, so when the
      helper slugs it to `gwid` the catalogue lists `gwid` twice: once from
      the fixed list and once from the sheet. */
  lemma DuplicateGwid(cs: seq<MeasureRecord>, columns: seq<string>, gps: seq<Grouping>,
                      sgdc: seq<(string, string)>, mdata: map<string, IndicatorMeta>, toId: Slugger)
    requires ConceptCatalogue(cs, columns, gps, sgdc, mdata, toId).Success?
    requires "Gwid" in columns && toId("Gwid", Plain) == "gwid"
    ensures
      var c := ConceptCatalogue(cs, columns, gps, sgdc, mdata, toId).value;
      exists i, j :: 0 <= i < j < |c| && c[i].concept == "gwid" && c[j].concept == "gwid"
  {
    CatalogueSegments(cs, columns, gps, sgdc, mdata, toId);
    StructuralGwidTwice(gps, columns, toId);
    var c := ConceptCatalogue(cs, columns, gps, sgdc, mdata, toId).value;
    var ids := StructuralIds(gps, columns, toId);
    var head := c[..|ids|];
    var i := |gps| + 4;
    var j :| i < j < |ids| && ids[j] == "gwid";
    assert head[i].concept == ids[i] && head[j].concept == ids[j];
    assert c[i] == head[i] && c[j] == head[j];
  }

  /** No identifier occurs twice. */
  predicate Distinct(s: seq<string>)
  {
    forall i, j :: 0 <= i < j < |s| ==> s[i] != s[j]
  }

  lemma DistinctConcat(a: seq<string>, b: seq<string>)
    requires Distinct(a) && Distinct(b)
    requires forall x :: x in a ==> x !in b
    ensures Distinct(a + b)
  {
    forall i, j | 0 <= i < j < |a + b| ensures (a + b)[i] != (a + b)[j] {
      if i < |a| && |a| <= j {
        assert a[i] in a && b[j - |a|] in b;
      }
    }
  }

  /** Two lists of distinct entries, interleaved with the two halves of a
      distinct reserved list, give distinct entries when neither meets the
      reserved list nor the other. */
  lemma DistinctAround(a: seq<string>, f: seq<string>, b: seq<string>, t: seq<string>)
    requires Distinct(a) && Distinct(b) && Distinct(f + t)
    requires forall x :: x in a ==> x !in f + t && x !in b
    requires forall x :: x in b ==> x !in f + t
    ensures Distinct(a + f + b + t)
  {
    assert forall i :: 0 <= i < |f| ==> f[i] == (f + t)[i];
    assert forall i :: 0 <= i < |t| ==> t[i] == (f + t)[|f| + i];
    assert Distinct(f) && Distinct(t);
    DistinctConcat(a, f);
    DistinctConcat(a + f, b);
    DistinctConcat(a + f + b, t);
  }

  /** The built-in ids are distinct among themselves. */
  lemma ReservedDistinct()
    ensures Distinct(FixedIds + TrailingIds)
  {
  }

  /** The sheet headers that should become structural concepts: line 188
      also drops `Gwid`, whose concept the fixed list already holds. */
  function IntendedSheetConceptNames(columns: seq<string>): (r: seq<string>)
    ensures forall c :: c in r <==> c in SheetConceptNames(columns) && c != "Gwid"
  {
    EntityCountry.Without(Renamed(columns), {"Name", "ISO3dig_ext", "Gwid"})
  }

  /** `dcl_` with that drop. */
  function IntendedStructuralIds(gps: seq<Grouping>, columns: seq<string>, toId: Slugger): seq<string>
  {
    Slugs(GroupingNames(gps), toId) + FixedIds + Slugs(IntendedSheetConceptNames(columns), toId) + TrailingIds
  }

  /** With `Gwid` dropped, the structural ids are pairwise distinct whenever
      the level slugs and the remaining sheet slugs are distinct among
      themselves, from each other and from the built-in ids. A sheet with a
      `Gwid` header meets these conditions while `StructuralIds` lists
      `gwid` twice (`DuplicateGwid`). */
  lemma IntendedIdsDistinct(gps: seq<Grouping>, columns: seq<string>, toId: Slugger)
    requires Distinct(Slugs(GroupingNames(gps), toId))
    requires Distinct(Slugs(IntendedSheetConceptNames(columns), toId))
    requires forall i :: 0 <= i < |gps| ==> toId(gps[i].n, Plain) !in FixedIds + TrailingIds
    requires forall c :: c in IntendedSheetConceptNames(columns) ==> toId(c, Plain) !in FixedIds + TrailingIds
    requires forall c, i :: c in IntendedSheetConceptNames(columns) && 0 <= i < |gps| ==>
               toId(c, Plain) != toId(gps[i].n, Plain)
    ensures Distinct(IntendedStructuralIds(gps, columns, toId))
  {
    var a := Slugs(GroupingNames(gps), toId);
    var sheet := IntendedSheetConceptNames(columns);
    var b := Slugs(sheet, toId);
    forall x | x in b ensures x !in FixedIds + TrailingIds {
      var j :| 0 <= j < |b| && b[j] == x;
      assert sheet[j] in sheet;
    }
    forall x | x in a ensures x !in FixedIds + TrailingIds && x !in b {
      var i :| 0 <= i < |a| && a[i] == x;
    }
    ReservedDistinct();
    DistinctAround(a, FixedIds, b, TrailingIds);
  }
}
