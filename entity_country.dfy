/** Country-entity extraction (`extract_entities_country`, script/ddf.py lines
    66-122): the country table, one row per spreadsheet record with one
    membership column per grouping level, or in map mode the old-code to
    new-code map. Rows are dictionaries from column name to value; a missing
    key is an empty (NaN) cell. */
module EntityCountry {
  import opened Common
  import opened Lookup
  import opened Regions
  import opened Membership

  /** One record of country_synonyms.xlsx: its `Gwid` and `ISO3dig_ext`
      values, and every other column's value keyed by its header (a header
      without a key is an empty cell). */
  datatype CountryRecord = CountryRecord(gwid: string, iso3: string, cells: map<string, string>)

  /** The spreadsheet: its header row as read, and its records in order. */
  datatype CountrySheet = CountrySheet(columns: seq<string>, records: seq<CountryRecord>)

  /** The Systema Globalis country entity matched by display name. */
  datatype SgCountry = SgCountry(geo: string, world4region: Option<string>,
                                 latitude: Option<string>, longitude: Option<string>)

  /** The default-mode table, or in map mode the series `country4['country']`
      indexed by `country_2`: one (index, value) entry per row, each side
      possibly empty. */
  datatype CountryOutput =
    | Entities(columns: seq<string>, rows: seq<map<string, string>>)
    | CodeSeries(entries: seq<(Option<string>, Option<string>)>)

  /** The spreadsheet header renames of lines 102 and 187. */
  function Rename(c: string): string
  {
    if c == "NAME" then "Upper Case Name" else if c == "Use Name" then "Name" else c
  }

  /** The output header of a spreadsheet column, `to_concept_id` of its renamed header. */
  function HeaderId(c: string, toId: Slugger): string
  {
    toId(Rename(c), Plain)
  }

  /** The headers set aside by lines 79-81: the index and the ISO code. */
  const FixedHeaders: set<string> := {"Gwid", "ISO3dig_ext"}

  /** The columns of Systema Globalis joined by display name (line 107). */
  const SgColumns: set<string> := {"country", "world_4region", "latitude", "longitude"}

  /** The columns placed first in default mode (lines 117-118). */
  const Lead: seq<string> := ["country", "gwid", "name"]

  /** `cols` without the entries in `drop`, in order. */
  function Without(cols: seq<string>, drop: set<string>): (r: seq<string>)
    ensures forall c :: c in r <==> c in cols && c !in drop
  {
    if |cols| == 0 then [] else (if cols[0] in drop then [] else [cols[0]]) + Without(cols[1..], drop)
  }

  /** `xs` is `ys` with some entries left out, the rest in their order. */
  ghost predicate IsSubsequence(xs: seq<string>, ys: seq<string>)
    decreases |ys|
  {
    if |xs| == 0 then true
    else if |ys| == 0 then false
    else if xs[0] == ys[0] then IsSubsequence(xs[1..], ys[1..])
    else IsSubsequence(xs, ys[1..])
  }

  lemma {:induction false} WithoutIsSubsequence(cols: seq<string>, drop: set<string>)
    ensures IsSubsequence(Without(cols, drop), cols)
  {
    if |cols| > 0 {
      WithoutIsSubsequence(cols[1..], drop);
      var w := Without(cols[1..], drop);
      if cols[0] in drop {
        assert Without(cols, drop) == w;
        if |w| > 0 {
          assert w[0] in w;
          assert w[0] != cols[0];
        }
      } else {
        assert Without(cols, drop)[1..] == Without(cols[1..], drop);
      }
    }
  }

  /** The column order of default mode (lines 116-119): `country_2` dropped
      and `country`, `gwid`, `name` moved to the front. */
  function OrderColumns(cols: seq<string>): seq<string>
  {
    Lead + Without(cols, {"country", "gwid", "name", "country_2"})
  }

  /** The default-mode columns start with country, gwid, name; `country_2` is
      gone; every other column is kept, and the rest keep their order. */
  lemma OrderColumnsSpec(cols: seq<string>)
    ensures OrderColumns(cols)[..3] == ["country", "gwid", "name"]
    ensures "country_2" !in OrderColumns(cols)
    ensures forall c :: c !in {"country", "gwid", "name", "country_2"} ==>
              (c in OrderColumns(cols) <==> c in cols)
    ensures IsSubsequence(OrderColumns(cols)[3..], cols)
  {
    var rest := Without(cols, {"country", "gwid", "name", "country_2"});
    assert OrderColumns(cols)[3..] == rest;
    WithoutIsSubsequence(cols, {"country", "gwid", "name", "country_2"});
  }

  /** The grouping columns `n` with their membership maps, after the first
      `k` levels of the loop of lines 87-97. */
  function GroupColumnsUpTo(regd: map<string, string>, gps: seq<Grouping>, k: nat, toId: Slugger)
    : Result<seq<(string, map<string, string>)>>
    requires k <= |gps|
  {
    if k == 0 then Success([])
    else
      match GroupColumnsUpTo(regd, gps, k - 1, toId)
      case Failure(e) => Failure(e)
      case Success(cols) =>
        match MembershipOf(regd, gps[k - 1].groupings, toId)
        case Failure(e) => Failure(e)
        case Success(mem) => Success(cols + [(toId(gps[k - 1].n, Plain), mem)])
  }

  lemma {:induction false} GroupColumnsFailurePersists(regd: map<string, string>, gps: seq<Grouping>,
                                                       k: nat, k': nat, toId: Slugger)
    requires k <= k' <= |gps|
    requires GroupColumnsUpTo(regd, gps, k, toId).Failure?
    ensures GroupColumnsUpTo(regd, gps, k', toId) == GroupColumnsUpTo(regd, gps, k, toId)
  {
    if k < k' {
      GroupColumnsFailurePersists(regd, gps, k, k' - 1, toId);
    }
  }

  /** The grouping columns are aligned with the groupings: one per level, the
      slug of its name with that level's membership map. */
  lemma {:induction false} GroupColumnsSpec(regd: map<string, string>, gps: seq<Grouping>, k: nat,
                                            toId: Slugger)
    requires k <= |gps|
    ensures GroupColumnsUpTo(regd, gps, k, toId).Success? <==>
              forall i :: 0 <= i < k ==> MembershipOf(regd, gps[i].groupings, toId).Success?
    ensures GroupColumnsUpTo(regd, gps, k, toId).Success? ==>
              var cols := GroupColumnsUpTo(regd, gps, k, toId).value;
              && |cols| == k
              && forall i :: 0 <= i < k ==>
                   cols[i] == (toId(gps[i].n, Plain), MembershipOf(regd, gps[i].groupings, toId).value)
  {
    if k > 0 {
      GroupColumnsSpec(regd, gps, k - 1, toId);
      if GroupColumnsUpTo(regd, gps, k, toId).Success? {
        var prev := GroupColumnsUpTo(regd, gps, k - 1, toId).value;
        var col := (toId(gps[k - 1].n, Plain), MembershipOf(regd, gps[k - 1].groupings, toId).value);
        assert GroupColumnsUpTo(regd, gps, k, toId).value == prev + [col];
      }
    }
  }

  /** The slugs `n` of the loop of line 87, one per level, in order. */
  function LevelSlugs(gps: seq<Grouping>, toId: Slugger): (r: seq<string>)
    ensures |r| == |gps| && forall i :: 0 <= i < |gps| ==> r[i] == toId(gps[i].n, Plain)
  {
    seq(|gps|, i requires 0 <= i < |gps| => toId(gps[i].n, Plain))
  }

  /** The names of the grouping columns, in order. */
  function Keys(cols: seq<(string, map<string, string>)>): (r: seq<string>)
    ensures |r| == |cols| && forall i :: 0 <= i < |cols| ==> r[i] == cols[i].0
  {
    seq(|cols|, i requires 0 <= i < |cols| => cols[i].0)
  }

  /** The columns of `country` after the loop: `country[n] = ser` adds `n`
      the first time and replaces it in place after that. */
  function GroupColumnNames(names: seq<string>): seq<string>
  {
    if |names| == 0 then []
    else
      var prev := GroupColumnNames(names[..|names| - 1]);
      if names[|names| - 1] in prev then prev else prev + [names[|names| - 1]]
  }

  /** Every assigned name is a column, and nothing else is. */
  lemma {:induction false} GroupColumnNamesIn(names: seq<string>, c: string)
    ensures c in GroupColumnNames(names) <==> c in names
  {
    if |names| > 0 {
      var n := |names| - 1;
      GroupColumnNamesIn(names[..n], c);
      assert names == names[..n] + [names[n]];
    }
  }

  /** The columns of `country2` after lines 100-104: the index `Gwid`, the ISO
      code renamed `country_2`, the grouping columns and the other sheet
      columns, each renamed and passed through `to_concept_id` at line 103,
      then `is--country`. */
  function Country2Columns(sheet: CountrySheet, names: seq<string>, toId: Slugger): seq<string>
  {
    var others := Without(sheet.columns, FixedHeaders);
    var groups := GroupColumnNames(names);
    [toId("Gwid", Plain), toId("country_2", Plain)]
    + seq(|groups|, i requires 0 <= i < |groups| => toId(groups[i], Plain))
    + seq(|others|, j requires 0 <= j < |others| => HeaderId(others[j], toId))
    + ["is--country"]
  }

  /** Some column of `country2` is named `h`. */
  predicate Produces(sheet: CountrySheet, gps: seq<Grouping>, toId: Slugger, h: string)
  {
    || toId("Gwid", Plain) == h || toId("country_2", Plain) == h || h == "is--country"
    || (exists i :: 0 <= i < |gps| && toId(toId(gps[i].n, Plain), Plain) == h)
    || (exists j :: 0 <= j < |sheet.columns| && sheet.columns[j] !in FixedHeaders
                    && HeaderId(sheet.columns[j], toId) == h)
  }

  /** `h` is a column of `country2` exactly when the index, the ISO code, a
      twice-slugged grouping name or another sheet header turns into it. */
  lemma Country2ColumnsSpec(sheet: CountrySheet, gps: seq<Grouping>, toId: Slugger, h: string)
    ensures h in Country2Columns(sheet, LevelSlugs(gps, toId), toId) <==> Produces(sheet, gps, toId, h)
  {
    var names := LevelSlugs(gps, toId);
    var others := Without(sheet.columns, FixedHeaders);
    var groups := GroupColumnNames(names);
    var gs := seq(|groups|, i requires 0 <= i < |groups| => toId(groups[i], Plain));
    var os := seq(|others|, j requires 0 <= j < |others| => HeaderId(others[j], toId));
    assert Country2Columns(sheet, names, toId)
           == [toId("Gwid", Plain), toId("country_2", Plain)] + gs + os + ["is--country"];
    GroupSlugsIn(gps, toId, h);
    OtherIdsIn(sheet, toId, h);
  }

  /** A grouping column of `country2` is named `h` exactly when some level's
      name, slugged twice, is `h`. */
  lemma GroupSlugsIn(gps: seq<Grouping>, toId: Slugger, h: string)
    ensures
      var groups := GroupColumnNames(LevelSlugs(gps, toId));
      h in seq(|groups|, i requires 0 <= i < |groups| => toId(groups[i], Plain))
      <==> exists l :: 0 <= l < |gps| && toId(toId(gps[l].n, Plain), Plain) == h
  {
    var names := LevelSlugs(gps, toId);
    var groups := GroupColumnNames(names);
    var gs := seq(|groups|, i requires 0 <= i < |groups| => toId(groups[i], Plain));
    if h in gs {
      var i :| 0 <= i < |groups| && toId(groups[i], Plain) == h;
      GroupColumnNamesIn(names, groups[i]);
      var l :| 0 <= l < |gps| && names[l] == groups[i];
    }
    if exists l :: 0 <= l < |gps| && toId(toId(gps[l].n, Plain), Plain) == h {
      var l :| 0 <= l < |gps| && toId(toId(gps[l].n, Plain), Plain) == h;
      GroupColumnNamesIn(names, names[l]);
      var i :| 0 <= i < |groups| && groups[i] == names[l];
      assert gs[i] == h;
    }
  }

  /** Another column of `country2` is named `h` exactly when some sheet
      header other than the fixed two turns into `h`. */
  lemma OtherIdsIn(sheet: CountrySheet, toId: Slugger, h: string)
    ensures
      var others := Without(sheet.columns, FixedHeaders);
      h in seq(|others|, j requires 0 <= j < |others| => HeaderId(others[j], toId))
      <==> exists j :: 0 <= j < |sheet.columns| && sheet.columns[j] !in FixedHeaders
                       && HeaderId(sheet.columns[j], toId) == h
  {
    var others := Without(sheet.columns, FixedHeaders);
    var os := seq(|others|, j requires 0 <= j < |others| => HeaderId(others[j], toId));
    if h in os {
      var j :| 0 <= j < |others| && HeaderId(others[j], toId) == h;
      assert others[j] in others;
    }
    if exists j :: 0 <= j < |sheet.columns| && sheet.columns[j] !in FixedHeaders
                   && HeaderId(sheet.columns[j], toId) == h {
      var j :| 0 <= j < |sheet.columns| && sheet.columns[j] !in FixedHeaders
               && HeaderId(sheet.columns[j], toId) == h;
      var c := sheet.columns[j];
      assert c in others;
      var k :| 0 <= k < |others| && others[k] == c;
      assert os[k] == h;
    }
  }

  /** The columns of `country4` in order (lines 110-113): the join name
      first, then the rest of `country2`, then the Systema Globalis columns. */
  function PreColumns(sheet: CountrySheet, names: seq<string>, toId: Slugger): seq<string>
  {
    ["name"] + Without(Country2Columns(sheet, names, toId), {"name"})
    + ["country", "world_4region", "latitude", "longitude"]
  }

  /** A cell of a row, empty when the row has no entry for the column. */
  function Cell(row: map<string, string>, c: string): Option<string>
  {
    if c in row then Some(row[c]) else None
  }

  /** The grouping cells of one record: `country[n] = ser` aligns each series
      on the record's gwid, and a gwid the series lacks leaves the cell empty;
      line 103 renames the column `n` to its slug. */
  function GroupCells(m: map<string, string>, cols: seq<(string, map<string, string>)>, gwid: string,
                      toId: Slugger): map<string, string>
  {
    if |cols| == 0 then m
    else
      var prev := GroupCells(m, cols[..|cols| - 1], gwid, toId);
      var (n, mem) := cols[|cols| - 1];
      if gwid in mem then prev[toId(n, Plain) := mem[gwid]] else prev - {toId(n, Plain)}
  }

  /** The last grouping column with a given output name decides its cell. */
  lemma {:induction false} GroupCellsLast(m: map<string, string>, cols: seq<(string, map<string, string>)>,
                                          gwid: string, toId: Slugger, i: nat)
    requires i < |cols|
    requires forall i' :: i < i' < |cols| ==> toId(cols[i'].0, Plain) != toId(cols[i].0, Plain)
    ensures toId(cols[i].0, Plain) in GroupCells(m, cols, gwid, toId) <==> gwid in cols[i].1
    ensures gwid in cols[i].1 ==> GroupCells(m, cols, gwid, toId)[toId(cols[i].0, Plain)] == cols[i].1[gwid]
  {
    var n := |cols| - 1;
    if i < n {
      forall i' | i < i' < n ensures toId(cols[..n][i'].0, Plain) != toId(cols[..n][i].0, Plain) {
        assert cols[..n][i'] == cols[i'];
      }
      GroupCellsLast(m, cols[..n], gwid, toId, i);
    }
  }

  /** A column that no grouping column turns into keeps its cell. */
  lemma {:induction false} GroupCellsKeep(m: map<string, string>, cols: seq<(string, map<string, string>)>,
                                          gwid: string, toId: Slugger, k: string)
    requires forall i :: 0 <= i < |cols| ==> toId(cols[i].0, Plain) != k
    ensures Cell(GroupCells(m, cols, gwid, toId), k) == Cell(m, k)
  {
    if |cols| > 0 {
      var n := |cols| - 1;
      assert forall i :: 0 <= i < n ==> cols[..n][i] == cols[i];
      GroupCellsKeep(m, cols[..n], gwid, toId, k);
    }
  }

  /** The other spreadsheet columns of one record, under their output headers. */
  function OtherCells(m: map<string, string>, r: CountryRecord, others: seq<string>, toId: Slugger)
    : map<string, string>
  {
    if |others| == 0 then m
    else
      var prev := OtherCells(m, r, others[..|others| - 1], toId);
      var c := others[|others| - 1];
      if c in r.cells then prev[HeaderId(c, toId) := r.cells[c]] else prev - {HeaderId(c, toId)}
  }

  /** A column that no other spreadsheet header turns into is left alone. */
  lemma {:induction false} OtherCellsKeep(m: map<string, string>, r: CountryRecord, others: seq<string>,
                                          toId: Slugger, k: string)
    requires forall c :: c in others ==> HeaderId(c, toId) != k
    ensures Cell(OtherCells(m, r, others, toId), k) == Cell(m, k)
  {
    if |others| > 0 {
      var n := |others| - 1;
      assert forall c :: c in others[..n] ==> c in others;
      OtherCellsKeep(m, r, others[..n], toId, k);
    }
  }

  /** The last spreadsheet header with a given output header decides its cell. */
  lemma {:induction false} OtherCellsLast(m: map<string, string>, r: CountryRecord, others: seq<string>,
                                          toId: Slugger, idx: nat)
    requires idx < |others|
    requires forall idx' :: idx < idx' < |others| ==> HeaderId(others[idx'], toId) != HeaderId(others[idx], toId)
    ensures Cell(OtherCells(m, r, others, toId), HeaderId(others[idx], toId)) == Cell(r.cells, others[idx])
  {
    var n := |others| - 1;
    if idx < n {
      forall idx' | idx < idx' < n
        ensures HeaderId(others[..n][idx'], toId) != HeaderId(others[..n][idx], toId)
      {
        assert others[..n][idx'] == others[idx'];
      }
      OtherCellsLast(m, r, others[..n], toId, idx);
    }
  }

  /** One row of `country2` (lines 100-104), keyed by its output headers. */
  function PreRow(r: CountryRecord, cols: seq<(string, map<string, string>)>, others: seq<string>,
                  toId: Slugger): map<string, string>
  {
    var fixed := map[toId("Gwid", Plain) := r.gwid][toId("country_2", Plain) := r.iso3];
    OtherCells(GroupCells(fixed, cols, r.gwid, toId), r, others, toId)["is--country" := True]
  }

  /** The display name a row is joined on at line 111: its `name` cell. */
  function JoinName(r: CountryRecord, cols: seq<(string, map<string, string>)>, others: seq<string>,
                    toId: Slugger): Option<string>
  {
    Cell(PreRow(r, cols, others, toId), "name")
  }

  /** The record's display name is one that Systema Globalis knows. */
  predicate Matched(r: CountryRecord, cols: seq<(string, map<string, string>)>, others: seq<string>,
                    sg: map<string, SgCountry>, toId: Slugger)
  {
    JoinName(r, cols, others, toId).Some? && JoinName(r, cols, others, toId).value in sg
  }

  /** The Systema Globalis columns of one record, joined on its display name. */
  function SgCells(m: map<string, string>, name: Option<string>, sg: map<string, SgCountry>)
    : map<string, string>
  {
    var base := m - SgColumns;
    if name.None? || name.value !in sg then base
    else
      var s := sg[name.value];
      var withRegion := if s.world4region.Some? then base["world_4region" := s.world4region.value] else base;
      var withLat := if s.latitude.Some? then withRegion["latitude" := s.latitude.value] else withRegion;
      var withLong := if s.longitude.Some? then withLat["longitude" := s.longitude.value] else withLat;
      withLong["country" := s.geo]
  }

  /** One row of `country4` (lines 100-113), before the default-mode cleanup. */
  function CountryRow(r: CountryRecord, cols: seq<(string, map<string, string>)>, others: seq<string>,
                      sg: map<string, SgCountry>, toId: Slugger): map<string, string>
  {
    SgCells(PreRow(r, cols, others, toId), JoinName(r, cols, others, toId), sg)
  }

  /** The rows of the default table: each record's row without `country_2`. */
  function DefaultRows(recs: seq<CountryRecord>, cols: seq<(string, map<string, string>)>, others: seq<string>,
                       sg: map<string, SgCountry>, toId: Slugger): (rows: seq<map<string, string>>)
    ensures |rows| == |recs|
    ensures forall j :: 0 <= j < |recs| ==> rows[j] == CountryRow(recs[j], cols, others, sg, toId) - {"country_2"}
  {
    seq(|recs|, j requires 0 <= j < |recs| => CountryRow(recs[j], cols, others, sg, toId) - {"country_2"})
  }

  /** The entries of map mode (lines 121-122): each row's `country_2` cell
      as the index and its `country` cell as the value. */
  function CodeEntries(recs: seq<CountryRecord>, cols: seq<(string, map<string, string>)>, others: seq<string>,
                       sg: map<string, SgCountry>, toId: Slugger): (r: seq<(Option<string>, Option<string>)>)
    ensures |r| == |recs|
    ensures forall j :: 0 <= j < |recs| ==>
              r[j] == (Cell(CountryRow(recs[j], cols, others, sg, toId), "country_2"),
                       Cell(CountryRow(recs[j], cols, others, sg, toId), "country"))
  {
    seq(|recs|, j requires 0 <= j < |recs| =>
      (Cell(CountryRow(recs[j], cols, others, sg, toId), "country_2"),
       Cell(CountryRow(recs[j], cols, others, sg, toId), "country")))
  }

  /** The table, or in map mode the code series, once the grouping columns exist. */
  function Assemble(sheet: CountrySheet, cols: seq<(string, map<string, string>)>,
                    sg: map<string, SgCountry>, toId: Slugger, geoMap: bool): CountryOutput
  {
    var others := Without(sheet.columns, FixedHeaders);
    if geoMap then CodeSeries(CodeEntries(sheet.records, cols, others, sg, toId))
    else
      Entities(OrderColumns(PreColumns(sheet, Keys(cols), toId)),
               DefaultRows(sheet.records, cols, others, sg, toId))
  }

  /** What `extract_entities_country(regs, geo, gps, geo_sg, geo_map)` returns or raises. */
  function EntitiesCountry(regs: seq<RegionRecord>, sheet: CountrySheet, gps: seq<Grouping>,
                           sg: map<string, SgCountry>, toId: Slugger, geoMap: bool): Result<CountryOutput>
  {
    CountryResult(sheet, GroupColumnsUpTo(Inverted(regs), gps, |gps|, toId), sg, toId, geoMap)
  }

  /** The outcome once the grouping loop has run: the column selection of
      line 79, the loop's own error, then the lookups by name after it. */
  function CountryResult(sheet: CountrySheet, groups: Result<seq<(string, map<string, string>)>>,
                         sg: map<string, SgCountry>, toId: Slugger, geoMap: bool): Result<CountryOutput>
  {
    if "ISO3dig_ext" !in sheet.columns then Failure(MissingColumn("ISO3dig_ext"))
    else if "Gwid" !in sheet.columns then Failure(MissingColumn("Gwid"))
    else
      match groups
      case Failure(e) => Failure(e)
      case Success(cols) => Finish(sheet, cols, sg, toId, geoMap)
  }

  /** Lines 100-122 once the grouping columns exist: `set_index('name')` of
      line 111, the drop of `country_2` (line 116) or the index on it
      (line 121), and in default mode the drop of `gwid` (line 117) each
      raise when `country2` has no such column. */
  function Finish(sheet: CountrySheet, cols: seq<(string, map<string, string>)>,
                  sg: map<string, SgCountry>, toId: Slugger, geoMap: bool): Result<CountryOutput>
  {
    var c2 := Country2Columns(sheet, Keys(cols), toId);
    if "name" !in c2 then Failure(MissingColumn("name"))
    else if "country_2" !in c2 then Failure(MissingColumn("country_2"))
    else if !geoMap && "gwid" !in c2 then Failure(MissingColumn("gwid"))
    else Success(Assemble(sheet, cols, sg, toId, geoMap))
  }

  /** Lines 75-122: the region inversion, the loop over groupings, the assembly. */
  method ExtractEntitiesCountry(regs: seq<RegionRecord>, sheet: CountrySheet, gps: seq<Grouping>,
                                sg: map<string, SgCountry>, toId: Slugger, geoMap: bool)
    returns (r: Result<CountryOutput>)
    ensures r == EntitiesCountry(regs, sheet, gps, sg, toId, geoMap)
  {
    var regd := InvertRegions(regs);
    if "ISO3dig_ext" !in sheet.columns {
      return Failure(MissingColumn("ISO3dig_ext"));
    }
    if "Gwid" !in sheet.columns {
      return Failure(MissingColumn("Gwid"));
    }
    var cols: seq<(string, map<string, string>)> := [];
    var i := 0;
    while i < |gps|
      invariant 0 <= i <= |gps|
      invariant GroupColumnsUpTo(regd, gps, i, toId) == Success(cols)
    {
      var n := toId(gps[i].n, Plain);
      var ser := BuildMembership(regd, gps[i].groupings, toId);
      if ser.Failure? {
        GroupColumnsFailurePersists(regd, gps, i + 1, |gps|, toId);
        return Failure(ser.error);
      }
      cols := cols + [(n, ser.value)];
      i := i + 1;
    }
    var c2 := Country2Columns(sheet, Keys(cols), toId);
    if "name" !in c2 {
      return Failure(MissingColumn("name"));
    }
    if "country_2" !in c2 {
      return Failure(MissingColumn("country_2"));
    }
    if !geoMap && "gwid" !in c2 {
      return Failure(MissingColumn("gwid"));
    }
    r := Success(Assemble(sheet, cols, sg, toId, geoMap));
  }

  /** The grouping loop yields one column per level, named by that level's slug. */
  lemma GroupKeys(regd: map<string, string>, gps: seq<Grouping>, toId: Slugger)
    requires GroupColumnsUpTo(regd, gps, |gps|, toId).Success?
    ensures Keys(GroupColumnsUpTo(regd, gps, |gps|, toId).value) == LevelSlugs(gps, toId)
  {
    GroupColumnsSpec(regd, gps, |gps|, toId);
  }

  /** The run fails exactly when a fixed column is missing, a group with a
      non-empty member has no region name, or `country2` lacks a column that
      a later step looks up: `name`, `country_2`, and in default mode `gwid`. */
  lemma EntitiesCountryFails(regs: seq<RegionRecord>, sheet: CountrySheet, gps: seq<Grouping>,
                             sg: map<string, SgCountry>, toId: Slugger, geoMap: bool)
    ensures EntitiesCountry(regs, sheet, gps, sg, toId, geoMap).Success? <==>
      && "ISO3dig_ext" in sheet.columns && "Gwid" in sheet.columns
      && (forall i :: 0 <= i < |gps| ==> MembershipOf(Inverted(regs), gps[i].groupings, toId).Success?)
      && Produces(sheet, gps, toId, "name") && Produces(sheet, gps, toId, "country_2")
      && (!geoMap ==> Produces(sheet, gps, toId, "gwid"))
  {
    var regd := Inverted(regs);
    GroupColumnsSpec(regd, gps, |gps|, toId);
    if GroupColumnsUpTo(regd, gps, |gps|, toId).Success? {
      GroupKeys(regd, gps, toId);
      Country2ColumnsSpec(sheet, gps, toId, "name");
      Country2ColumnsSpec(sheet, gps, toId, "country_2");
      Country2ColumnsSpec(sheet, gps, toId, "gwid");
    }
  }

  /** With the slugs the script relies on (`Gwid` to `gwid`, `country_2` and
      `Name` to themselves in lower case), a sheet with its fixed columns
      and a `Use Name` or `Name` column runs whenever every group with a
      member has a region name. */
  lemma EntitiesCountryRuns(regs: seq<RegionRecord>, sheet: CountrySheet, gps: seq<Grouping>,
                            sg: map<string, SgCountry>, toId: Slugger, geoMap: bool)
    requires toId("Gwid", Plain) == "gwid" && toId("country_2", Plain) == "country_2"
    requires toId("Name", Plain) == "name"
    requires "ISO3dig_ext" in sheet.columns && "Gwid" in sheet.columns
    requires "Use Name" in sheet.columns || "Name" in sheet.columns
    requires forall i :: 0 <= i < |gps| ==> MembershipOf(Inverted(regs), gps[i].groupings, toId).Success?
    ensures EntitiesCountry(regs, sheet, gps, sg, toId, geoMap).Success?
  {
    EntitiesCountryFails(regs, sheet, gps, sg, toId, geoMap);
    var j :| 0 <= j < |sheet.columns| && (sheet.columns[j] == "Use Name" || sheet.columns[j] == "Name");
    assert HeaderId(sheet.columns[j], toId) == "name";
  }

  /** A successful run has grouping columns and is their assembly. */
  lemma EntitiesCountryValue(regs: seq<RegionRecord>, sheet: CountrySheet, gps: seq<Grouping>,
                             sg: map<string, SgCountry>, toId: Slugger, geoMap: bool)
    requires EntitiesCountry(regs, sheet, gps, sg, toId, geoMap).Success?
    ensures GroupColumnsUpTo(Inverted(regs), gps, |gps|, toId).Success?
    ensures EntitiesCountry(regs, sheet, gps, sg, toId, geoMap).value
            == Assemble(sheet, GroupColumnsUpTo(Inverted(regs), gps, |gps|, toId).value, sg, toId, geoMap)
  {
    CountryResultValue(sheet, GroupColumnsUpTo(Inverted(regs), gps, |gps|, toId), sg, toId, geoMap);
  }

  /** A successful outcome has grouping columns and is their assembly. */
  lemma CountryResultValue(sheet: CountrySheet, groups: Result<seq<(string, map<string, string>)>>,
                           sg: map<string, SgCountry>, toId: Slugger, geoMap: bool)
    requires CountryResult(sheet, groups, sg, toId, geoMap).Success?
    ensures groups.Success?
    ensures CountryResult(sheet, groups, sg, toId, geoMap).value == Assemble(sheet, groups.value, sg, toId, geoMap)
  {
  }

  /** One default-mode row: `is--country` is TRUE, `country_2` is gone, and
      `country` is present, with the matched geo, exactly when the row's name
      is one Systema Globalis knows. */
  lemma RowSpec(r: CountryRecord, cols: seq<(string, map<string, string>)>, others: seq<string>,
                sg: map<string, SgCountry>, toId: Slugger)
    ensures
      var row := CountryRow(r, cols, others, sg, toId) - {"country_2"};
      && "is--country" in row && row["is--country"] == "TRUE"
      && "country_2" !in row
      && ("country" in row <==> Matched(r, cols, others, sg, toId))
      && (Matched(r, cols, others, sg, toId) ==> row["country"] == sg[JoinName(r, cols, others, toId).value].geo)
  {
  }

  /** Every default row has the shape of `RowSpec`. */
  lemma DefaultRowsSpec(recs: seq<CountryRecord>, cols: seq<(string, map<string, string>)>, others: seq<string>,
                        sg: map<string, SgCountry>, toId: Slugger)
    ensures
      var rows := DefaultRows(recs, cols, others, sg, toId);
      forall j :: 0 <= j < |rows| ==>
        && "is--country" in rows[j] && rows[j]["is--country"] == "TRUE"
        && "country_2" !in rows[j]
        && ("country" in rows[j] <==> Matched(recs[j], cols, others, sg, toId))
        && (Matched(recs[j], cols, others, sg, toId) ==>
              rows[j]["country"] == sg[JoinName(recs[j], cols, others, toId).value].geo)
  {
    var rows := DefaultRows(recs, cols, others, sg, toId);
    forall j | 0 <= j < |rows|
      ensures && "is--country" in rows[j] && rows[j]["is--country"] == "TRUE"
              && "country_2" !in rows[j]
              && ("country" in rows[j] <==> Matched(recs[j], cols, others, sg, toId))
              && (Matched(recs[j], cols, others, sg, toId) ==>
                    rows[j]["country"] == sg[JoinName(recs[j], cols, others, toId).value].geo)
    {
      RowSpec(recs[j], cols, others, sg, toId);
    }
  }

  /** Default mode: one row per record; each row has `is--country` TRUE and no
      `country_2`; `country` is filled exactly for records whose name Systema
      Globalis knows; the columns lead with country, gwid, name and keep the
      rest in order. */
  lemma CountryTableSpec(regs: seq<RegionRecord>, sheet: CountrySheet, gps: seq<Grouping>,
                         sg: map<string, SgCountry>, toId: Slugger)
    requires EntitiesCountry(regs, sheet, gps, sg, toId, false).Success?
    ensures EntitiesCountry(regs, sheet, gps, sg, toId, false).value.Entities?
    ensures
      var t := EntitiesCountry(regs, sheet, gps, sg, toId, false).value;
      var cols := GroupColumnsUpTo(Inverted(regs), gps, |gps|, toId).value;
      var others := Without(sheet.columns, FixedHeaders);
      && |t.rows| == |sheet.records|
      && t.columns[..3] == ["country", "gwid", "name"]
      && "country_2" !in t.columns
      && IsSubsequence(t.columns[3..], PreColumns(sheet, LevelSlugs(gps, toId), toId))
      && forall j :: 0 <= j < |t.rows| ==>
           && "is--country" in t.rows[j] && t.rows[j]["is--country"] == "TRUE"
           && "country_2" !in t.rows[j]
           && ("country" in t.rows[j] <==> Matched(sheet.records[j], cols, others, sg, toId))
           && (Matched(sheet.records[j], cols, others, sg, toId) ==>
                 t.rows[j]["country"] == sg[JoinName(sheet.records[j], cols, others, toId).value].geo)
  {
    var regd := Inverted(regs);
    EntitiesCountryValue(regs, sheet, gps, sg, toId, false);
    var cols := GroupColumnsUpTo(regd, gps, |gps|, toId).value;
    GroupKeys(regd, gps, toId);
    OrderColumnsSpec(PreColumns(sheet, Keys(cols), toId));
    DefaultRowsSpec(sheet.records, cols, Without(sheet.columns, FixedHeaders), sg, toId);
  }

  /** The join name is the cell of the last spreadsheet header that turns
      into `name`, when no grouping column does: the `Use Name` (or `Name`)
      value of the record, or empty when the record has none. */
  lemma JoinNameSpec(r: CountryRecord, cols: seq<(string, map<string, string>)>, others: seq<string>,
                     toId: Slugger, idx: nat)
    requires idx < |others| && HeaderId(others[idx], toId) == "name"
    requires forall idx' :: idx < idx' < |others| ==> HeaderId(others[idx'], toId) != "name"
    ensures JoinName(r, cols, others, toId) == Cell(r.cells, others[idx])
  {
    var fixed := map[toId("Gwid", Plain) := r.gwid][toId("country_2", Plain) := r.iso3];
    OtherCellsLast(GroupCells(fixed, cols, r.gwid, toId), r, others, toId, idx);
  }

  /** The grouping cell of a single row, under the column's twice-slugged name. */
  lemma RowGroupCell(r: CountryRecord, cols: seq<(string, map<string, string>)>, others: seq<string>,
                     sg: map<string, SgCountry>, toId: Slugger, i: nat)
    requires i < |cols|
    requires forall i' :: i < i' < |cols| ==> toId(cols[i'].0, Plain) != toId(cols[i].0, Plain)
    requires forall c :: c in others ==> HeaderId(c, toId) != toId(cols[i].0, Plain)
    requires toId(cols[i].0, Plain) !in {"is--country", "country_2"} + SgColumns
    ensures toId(cols[i].0, Plain) in CountryRow(r, cols, others, sg, toId) - {"country_2"}
            <==> r.gwid in cols[i].1
    ensures r.gwid in cols[i].1 ==> (CountryRow(r, cols, others, sg, toId) - {"country_2"})[toId(cols[i].0, Plain)]
                                    == cols[i].1[r.gwid]
  {
    var n := toId(cols[i].0, Plain);
    var fixed := map[toId("Gwid", Plain) := r.gwid][toId("country_2", Plain) := r.iso3];
    GroupCellsLast(fixed, cols, r.gwid, toId, i);
    var g := GroupCells(fixed, cols, r.gwid, toId);
    OtherCellsKeep(g, r, others, toId, n);
    var o := OtherCells(g, r, others, toId);
    var pre := o["is--country" := True];
    assert n in pre <==> n in o;
    assert n in o ==> pre[n] == o[n];
    var row := SgCells(pre, JoinName(r, cols, others, toId), sg);
    assert n in row <==> n in pre;
    assert n in pre ==> row[n] == pre[n];
  }

  /** Default mode: the cell of grouping level `i`, under the column name
      `to_concept_id(to_concept_id(n))` that lines 87 and 103 give it, holds
      the level's membership value for the record's gwid, and is empty when
      the level does not list that gwid. The column must not be replaced by a
      later level, a sheet column, or the columns added after it. */
  lemma CountryGroupCell(regs: seq<RegionRecord>, sheet: CountrySheet, gps: seq<Grouping>,
                         sg: map<string, SgCountry>, toId: Slugger, i: nat, j: nat)
    requires EntitiesCountry(regs, sheet, gps, sg, toId, false).Success?
    requires i < |gps| && j < |sheet.records|
    requires forall i' :: i < i' < |gps| ==>
               toId(toId(gps[i'].n, Plain), Plain) != toId(toId(gps[i].n, Plain), Plain)
    requires forall c :: c in sheet.columns && c !in FixedHeaders ==>
               HeaderId(c, toId) != toId(toId(gps[i].n, Plain), Plain)
    requires toId(toId(gps[i].n, Plain), Plain) !in {"is--country", "country_2"} + SgColumns
    ensures MembershipOf(Inverted(regs), gps[i].groupings, toId).Success?
    ensures EntitiesCountry(regs, sheet, gps, sg, toId, false).value.Entities?
    ensures
      var row := EntitiesCountry(regs, sheet, gps, sg, toId, false).value.rows[j];
      var mem := MembershipOf(Inverted(regs), gps[i].groupings, toId).value;
      var n := toId(toId(gps[i].n, Plain), Plain);
      var gwid := sheet.records[j].gwid;
      && (n in row <==> gwid in mem)
      && (gwid in mem ==> row[n] == mem[gwid])
  {
    var regd := Inverted(regs);
    EntitiesCountryValue(regs, sheet, gps, sg, toId, false);
    GroupColumnsSpec(regd, gps, |gps|, toId);
    var cols := GroupColumnsUpTo(regd, gps, |gps|, toId).value;
    var others := Without(sheet.columns, FixedHeaders);
    RowGroupCell(sheet.records[j], cols, others, sg, toId, i);
  }

  /** Map mode: the series has one entry per record, in order, and keeps
      them all (repeated codes included). An entry's value is the matched
      Systema Globalis geo, and empty (NaN) when the record's name is unknown. */
  lemma CountryCodeMapSpec(regs: seq<RegionRecord>, sheet: CountrySheet, gps: seq<Grouping>,
                           sg: map<string, SgCountry>, toId: Slugger)
    requires EntitiesCountry(regs, sheet, gps, sg, toId, true).Success?
    ensures EntitiesCountry(regs, sheet, gps, sg, toId, true).value.CodeSeries?
    ensures
      var es := EntitiesCountry(regs, sheet, gps, sg, toId, true).value.entries;
      var cols := GroupColumnsUpTo(Inverted(regs), gps, |gps|, toId).value;
      var others := Without(sheet.columns, FixedHeaders);
      && |es| == |sheet.records|
      && forall j :: 0 <= j < |es| ==>
           && (es[j].1.Some? <==> Matched(sheet.records[j], cols, others, sg, toId))
           && (Matched(sheet.records[j], cols, others, sg, toId) ==>
                 es[j].1 == Some(sg[JoinName(sheet.records[j], cols, others, toId).value].geo))
  {
    EntitiesCountryValue(regs, sheet, gps, sg, toId, true);
  }

  /** Map mode, when `country_2` slugs to itself and no grouping or other
      sheet column turns into it: each entry is indexed by its record's old
      ISO code. */
  lemma CountryCodeKeys(regs: seq<RegionRecord>, sheet: CountrySheet, gps: seq<Grouping>,
                        sg: map<string, SgCountry>, toId: Slugger)
    requires EntitiesCountry(regs, sheet, gps, sg, toId, true).Success?
    requires toId("country_2", Plain) == "country_2"
    requires forall i :: 0 <= i < |gps| ==> toId(toId(gps[i].n, Plain), Plain) != "country_2"
    requires forall c :: c in sheet.columns && c !in FixedHeaders ==> HeaderId(c, toId) != "country_2"
    ensures EntitiesCountry(regs, sheet, gps, sg, toId, true).value.CodeSeries?
    ensures
      var es := EntitiesCountry(regs, sheet, gps, sg, toId, true).value.entries;
      && |es| == |sheet.records|
      && forall j :: 0 <= j < |es| ==> es[j].0 == Some(sheet.records[j].iso3)
  {
    var regd := Inverted(regs);
    EntitiesCountryValue(regs, sheet, gps, sg, toId, true);
    GroupColumnsSpec(regd, gps, |gps|, toId);
    var cols := GroupColumnsUpTo(regd, gps, |gps|, toId).value;
    var others := Without(sheet.columns, FixedHeaders);
    forall j | 0 <= j < |sheet.records|
      ensures Cell(CountryRow(sheet.records[j], cols, others, sg, toId), "country_2") == Some(sheet.records[j].iso3)
    {
      RowCodeKey(sheet.records[j], cols, others, sg, toId);
    }
  }

  /** A row keeps its old ISO code under `country_2` when nothing else turns into that name. */
  lemma RowCodeKey(r: CountryRecord, cols: seq<(string, map<string, string>)>, others: seq<string>,
                   sg: map<string, SgCountry>, toId: Slugger)
    requires toId("country_2", Plain) == "country_2"
    requires forall i :: 0 <= i < |cols| ==> toId(cols[i].0, Plain) != "country_2"
    requires forall c :: c in others ==> HeaderId(c, toId) != "country_2"
    ensures Cell(CountryRow(r, cols, others, sg, toId), "country_2") == Some(r.iso3)
  {
    var fixed := map[toId("Gwid", Plain) := r.gwid][toId("country_2", Plain) := r.iso3];
    GroupCellsKeep(fixed, cols, r.gwid, toId, "country_2");
    var g := GroupCells(fixed, cols, r.gwid, toId);
    OtherCellsKeep(g, r, others, toId, "country_2");
  }
}
