# Gapminder World DDF conversion, modelled in Dafny

This project models `script/ddf.py`. The script turns the Gapminder World
source files into DDF tables in four stages:

- **Group entities** (`extract_entities_groups`): one table per
  country-grouping level. Each table has one row per group code.
- **Country entities** (`extract_entities_country`): the country table. It
  has one membership column per grouping level and joins in the Systema
  Globalis country data by display name. In map mode it returns the
  old-code to new-code map instead.
- **Concepts** (`cleanup_concepts`, `extract_concepts`): the structural
  concepts, then the graph-settings measures without their placeholder
  rows, then three supplementary Systema Globalis measures. There is one
  structural concept per grouping level, then 8 fixed ones, one per
  remaining country-sheet header, and 9 trailing ones: forty-one for six
  levels and eighteen sheet concepts, the shape that the positional writes
  of lines 204-221 expect.
- **Datapoints** (`rename_col`, `rename_geo`, `extract_datapoints`): which
  indicator files become datapoint frames, under which concept id, and how
  their `geo` codes are translated.

## How the model works

- Tables are values: sequences of records, with maps for dictionaries.
- An empty pandas cell (NaN) is `None`, or a key missing from a row map.
- The slug helper `to_concept_id` lives outside the core. It is a function
  parameter `toId` with three modes:
  - `Plain` is the default arguments.
  - `Loose` is the `sub=` rule that keeps separators as `_`.
  - `Strict` is the `sub=` rule with `sep=''`.
- Two lookup rules are modelled once, in `Lookup`:
  - a dictionary filled in order, where the last assignment wins;
  - pandas' `frame[frame[c] == k][d].iloc[0]`, the first match.
- A `KeyError` or `IndexError` that aborts a stage is a `Failure` that names
  what was missing.
- Each loop of the script is a method. It is proved equal to a recursive
  specification function over a prefix of its input. The properties are
  lemmas about those functions.
- The indicator-file loop, and the writes by row position into the concept
  frame, are methods over a sequence and an `array`.

Two places where the code breaks a rule of the DDF format that the rest
of the script keeps. The model follows the code in both. Each is listed
under "Findings", with a corrected definition beside it.

- **Region-level identifiers.** A membership column of an entity table
  must hold ids of the matching entity set.
  - Lines 53-59 give the group entities of every level loose-slug ids,
    except position 4, the region level, which gets strict-slug ids.
  - Line 93 fills the membership columns with loose slugs at every level.
  - So away from position 4 every membership value is a group id
    (`Consistency.MembershipInGroupTable`). At position 4 the two agree only
    where both slugs of the region's name agree
    (`Consistency.MembershipAtRegionLevel`, `Consistency.RegionLevelMismatch`).
- **Duplicate `gwid` concept.** A concepts table lists each concept id
  once.
  - Line 194 lists a fixed `gwid` among the structural ids.
  - Line 188 drops only `Name` and `ISO3dig_ext` from the sheet headers, so
    a `Gwid` header survives. Once slugged to `gwid`, it gives a second
    `gwid` concept (`Concepts.DuplicateGwid`).
- Nothing keeps two datapoint frames from sharing a concept id either:
  two files whose keys name the same indicator both yield
  (`Datapoints.SameIdTwice`).

## Model

| member | source | states |
|---|---|---|
| Lookup.FirstMatch | script/ddf.py:19-21 | Nothing is found exactly when no row has the key. Otherwise the value is that of the earliest row with the key. |
| Lookup.FirstMatchAt | script/ddf.py:191 | Any row with the key and no earlier row with it gives the value found. |
| Lookup.AssignKeys | script/ddf.py:47-49 | A key is in the dictionary exactly when some assignment wrote it. |
| Lookup.AssignLastWins | script/ddf.py:47-49 | The last assignment to a key decides its value. |
| Lookup.AssignValue | script/ddf.py:47-49 | Every value was written by an assignment that no later one overrode. |
| Regions.InvertRegions | script/ddf.py:47-49 | The loop leaves the inverted table: gwid to region name, in record order. |
| Regions.InvertedSpec | script/ddf.py:47-49 | A gwid named by a record maps to the name of the last record naming it. |
| Regions.InvertedKeys | script/ddf.py:75-77 | Only gwids that some record names are in the table. |
| EntityGroups.GroupRows | script/ddf.py:52-59 | Succeeds exactly when every code has a region name. Then there is one row per code, in order, with the slug of its name, the name when asked, the gwid and `TRUE`. Otherwise it raises on the first code without a name. |
| EntityGroups.GroupTableAt | script/ddf.py:51-61 | The table is keyed by the plain slug of the level's name. Ids are strict slugs at position 4 and loose elsewhere. Names are filled except at position 4. A failure names a code without a region name. |
| EntityGroups.FailurePersists | script/ddf.py:45-62 | Once a level has raised, later levels leave the same error. |
| EntityGroups.ExtractEntitiesGroups | script/ddf.py:39-62 | The loop returns exactly the specified dictionary of group tables, or the specified error. |
| EntityGroups.GroupsUpToFails | script/ddf.py:51-61 | The first k levels succeed exactly when all their codes have region names. A failure names such a code. |
| EntityGroups.GroupsUpToKeys | script/ddf.py:51-61 | After k levels the keys are exactly the slugs of their names. |
| EntityGroups.GroupsUpToTable | script/ddf.py:51-61 | A slug holds the table of the last level with that slug. |
| EntityGroups.EntitiesGroupsFails | script/ddf.py:39-62 | The stage raises exactly when some group code has no region name, and the error names such a code. |
| EntityGroups.EntitiesGroupsTables | script/ddf.py:39-62 | There is one table per slug. Its gwid column is the level's codes in order, every flag is `TRUE`, ids are slugs of the region names (strict at position 4), and names are absent only at position 4. |
| Membership.GroupPairsIn | script/ddf.py:91-94 | A (member, group) assignment is made exactly when the member is non-empty and listed under that group. |
| Membership.MemberPairsIn | script/ddf.py:91-94 | Over all groups, an assignment is made exactly when some group lists the non-empty member. |
| Membership.MembershipFoldSpec | script/ddf.py:91-94 | In any slug mode, the fold succeeds exactly when every assigned group has a region name. Its dictionary is the last-wins map of the slugs in that mode. It fails on the first group without a name. |
| Membership.AddGroup | script/ddf.py:91-93 | The inner loop over one group's members continues the fold: it yields exactly the fold over the earlier assignments followed by this group's. |
| Membership.BuildMembership | script/ddf.py:88-95 | The nested loops compute exactly the specified membership map, or the error. |
| Membership.MembershipKeys | script/ddf.py:88-95 | The map exists exactly when every group with a non-empty member has a region name. Its keys are exactly the listed non-empty members, and the empty code is never a key. |
| Membership.MembershipLastWins | script/ddf.py:91-94 | A member's value is the loose slug of the name of the last group that lists it. |
| Membership.MembershipValue | script/ddf.py:91-94 | Every value is the slug, in the map's mode, of the region name of a group that lists the member. Line 93 uses the loose mode. |
| Consistency.MembershipInGroupTable | script/ddf.py:51-95 | Away from position 4, every membership value is the id of a row of that level's group table: the row of a group that lists the member. |
| Consistency.MembershipAtRegionLevel | script/ddf.py:54-94 | At position 4, the group row of a group listing the member holds the strict slug of its name, while the membership value is the loose slug of the same name. |
| Consistency.RegionLevelMismatch | script/ddf.py:53-94 | For one region `r` named `A B` with member `c` at position 4, under a slug helper whose loose and strict slugs of `A B` differ: the member's value is `a_b`, and no row of the region group table has that id. |
| Consistency.LevelMembership | script/ddf.py:88-95 | The level-aware membership map equals the map of line 93 at every level except position 4. |
| Consistency.LevelMembershipInGroupTable | script/ddf.py:51-95 | At every level, position 4 included, each value of the level-aware map is the id of a row of that level's group table: the row of a group that lists the member. |
| EntityCountry.WithoutIsSubsequence | script/ddf.py:116-118 | Dropping columns keeps the remaining ones in their order. |
| EntityCountry.OrderColumnsSpec | script/ddf.py:115-119 | Default-mode columns start with country, gwid, name. `country_2` is gone, every other column is kept, and the rest keep their order. |
| EntityCountry.GroupColumnsFailurePersists | script/ddf.py:87-97 | Once a level's membership has raised, the loop leaves that error. |
| EntityCountry.GroupColumnsSpec | script/ddf.py:87-97 | The columns exist exactly when every level's membership does. There is one per level, in order: the plain slug of its name with that level's map. |
| EntityCountry.GroupCellsLast | script/ddf.py:96-103 | The last grouping column whose name slugs to a given column name decides that cell: the level's value for the gwid, or empty when the level does not list it. |
| EntityCountry.GroupCellsKeep | script/ddf.py:96-103 | A column that no grouping column turns into keeps its cell. |
| EntityCountry.GroupColumnNamesIn | script/ddf.py:97 | A name is a grouping column exactly when some level assigned it. |
| EntityCountry.GroupKeys | script/ddf.py:87-97 | The grouping loop leaves one column per level, named by the plain slug of the level's name. |
| EntityCountry.Country2ColumnsSpec | script/ddf.py:100-104 | A name is a column of `country2` exactly when it is the slug of `Gwid` or of `country_2`, `is--country`, a level name slugged twice, or the renamed and slugged form of another sheet header. |
| EntityCountry.OtherCellsKeep | script/ddf.py:100-103 | A column that no sheet header turns into keeps its cell. |
| EntityCountry.OtherCellsLast | script/ddf.py:100-103 | The last sheet header with a given output header decides that cell: the record's value, or empty when the record has none. |
| EntityCountry.JoinNameSpec | script/ddf.py:102-111 | When some sheet header turns into `name`, the join name is the record's cell under the last such header, whatever the grouping columns hold, because the sheet columns are written after them. |
| EntityCountry.RowCodeKey | script/ddf.py:100-104 | When only the ISO code turns into `country_2`, each row keeps the old ISO code there. |
| EntityCountry.ExtractEntitiesCountry | script/ddf.py:66-122 | The inversion, the grouping loop and the assembly compute exactly the specified output or error. |
| EntityCountry.EntitiesCountryFails | script/ddf.py:79-121 | The stage succeeds exactly when `ISO3dig_ext` and `Gwid` are sheet headers, every level's membership exists, `country2` has the columns `name` (line 111) and `country_2` (lines 116 and 121), and, in default mode, `gwid` (line 117). |
| EntityCountry.EntitiesCountryRuns | script/ddf.py:79-121 | When the slug helper maps `Gwid`, `country_2` and `Name` to `gwid`, `country_2` and `name`, a sheet with both fixed headers and a `Use Name` or `Name` header runs whenever every level's membership exists. |
| EntityCountry.RowSpec | script/ddf.py:103-115 | A default-mode row has `is--country` = `TRUE` and no `country_2`. It has `country`, the matched geo, exactly when its name is matched. |
| EntityCountry.DefaultRowsSpec | script/ddf.py:103-115 | Every default-mode row has the shape of `RowSpec`. |
| EntityCountry.CountryTableSpec | script/ddf.py:100-119 | There is one row per record, with the `RowSpec` shape. The columns lead with country, gwid, name, lack `country_2`, and keep the rest in order. |
| EntityCountry.RowGroupCell | script/ddf.py:96-113 | A row's cell under a grouping column's slug is the level's membership value for its gwid, or empty when unlisted, unless a later level, a sheet header or a later column takes that name. |
| EntityCountry.CountryGroupCell | script/ddf.py:87-119 | In the final table, the cell of level i for record j, under the twice-slugged level name of lines 87 and 103, is the level's membership value for the record's gwid. It is empty when the level does not list it. This holds when no later level, sheet header or later column takes that name. |
| EntityCountry.CountryCodeMapSpec | script/ddf.py:111-122 | Map mode gives one entry per record, in order, repeated codes included. An entry's value is the matched geo exactly when the record's name is matched, and is empty otherwise. |
| EntityCountry.CountryCodeKeys | script/ddf.py:100-121 | When only the ISO code turns into `country_2`, each entry is indexed by its record's old ISO code. |
| Concepts.DropPlaceholder | script/ddf.py:139-141 | No placeholder row remains, and no row is added. |
| Concepts.DropPlaceholderAppend | script/ddf.py:139-141 | Dropping distributes over concatenation, so kept rows keep their order. |
| Concepts.DropPlaceholderKeeps | script/ddf.py:139-141 | Every non-placeholder row is kept as often as it occurs. |
| Concepts.DropPlaceholderNone | script/ddf.py:139-141 | Without placeholder rows, nothing is dropped. |
| Concepts.DropPlaceholderKeepsAll | script/ddf.py:139-141 | Every non-placeholder row is kept as often as it occurs, and each such row is among the kept ones. |
| Concepts.CleanupConcepts | script/ddf.py:126-143 | Every row becomes a measure. Without the flag the records are the input. With it, no placeholder record is left, every other record is kept as often as it occurs, and the kept ones are the input's in order. |
| Concepts.Scales | script/ddf.py:170 | Always the two scales `log` and `linear`. `log` comes first exactly when the measure's scale is `log`. |
| Concepts.MeasureRows | script/ddf.py:165-170 | Each row is a measure, not the placeholder, with no drill-up or domain, whose scales are its scale's display order. Every non-placeholder spreadsheet row has its measure row. There are no more rows than records. |
| Concepts.SupplementaryRows | script/ddf.py:177-182 | Succeeds exactly when every concept's key (its name after the prefix) has metadata. Then the rows carry that metadata's url and scales, and are measures named by their concept. Otherwise it raises on the first key without metadata. |
| Concepts.Drop3Prefix | script/ddf.py:181-182 | Slicing off three characters gives back the key. |
| Concepts.SupplementaryDefined | script/ddf.py:177-182 | The supplementary rows exist exactly when the three keys have metadata. |
| Concepts.StructuralIds | script/ddf.py:194-195 | There are (levels + 17 + sheet concepts) ids. |
| Concepts.StructuralNames | script/ddf.py:196-197 | There are as many names as ids. |
| Concepts.StructuralAligned | script/ddf.py:194-197 | Where an id derives from a name (groupings, sheet headers), the id is that name's slug. |
| Concepts.FillGroupings | script/ddf.py:204-205 | Positions 0-5 become `geo` entity sets. The other rows are unchanged. |
| Concepts.FillDomains | script/ddf.py:206-211 | `geo`, `country` (drilling up to the grouping slugs) and `time` get their overrides. |
| Concepts.FillTrailing | script/ddf.py:212-217 | `world_4region` and the coordinates get their overrides. |
| Concepts.FillCalendar | script/ddf.py:218-221 | `year` and `global` get their overrides. |
| Concepts.FillStructural | script/ddf.py:199-221 | Filling the frame column by column, then by position, yields exactly the structural rows. |
| Concepts.ExtractConcepts | script/ddf.py:146-227 | The stage returns exactly the specified catalogue or error. |
| Concepts.RenamedName | script/ddf.py:187-188 | `Name` exists after renaming exactly when `Use Name` or `Name` did. |
| Concepts.RenamedIso | script/ddf.py:187-188 | `ISO3dig_ext` exists after renaming exactly when it did before. |
| Concepts.CatalogueFails | script/ddf.py:146-227 | The catalogue exists exactly when the three keys have metadata, the sheet has a name and an ISO column, and the discrete concepts have a `world_4region` row. |
| Concepts.DropScalesAppend | script/ddf.py:224-225 | Dropping `scale` commutes with concatenation. |
| Concepts.CombineSegments | script/ddf.py:224-225 | The catalogue is the structural, measure and supplementary parts, each without `scale`, in that order. |
| Concepts.CatalogueSegments | script/ddf.py:224-227 | The catalogue is exactly the three segments, at known offsets. |
| Concepts.CatalogueNoPlaceholder | script/ddf.py:166-167 | The measure segment has no placeholder and keeps the sheet's other rows in order. |
| Concepts.CatalogueSupplementary | script/ddf.py:172-182 | The catalogue ends with one measure per key k of `rm`, in order: `sg_`+k, with the url and scales of k's metadata. |
| Concepts.StructuralPositions | script/ddf.py:202-221 | With 6 levels and 18 sheet concepts, every positional override lands on its intended concept, and only `country` drills up. |
| Concepts.StructuralHead | script/ddf.py:204-211 | The overrides of positions 0-8, and that only `country` drills up. |
| Concepts.StructuralTail | script/ddf.py:212-221 | The overrides of positions 36-40, and that positions 9-35 are strings. |
| Concepts.SheetKeeps | script/ddf.py:187-188 | A sheet header that is not dropped or renamed becomes a structural concept. |
| Concepts.StructuralIdsAt | script/ddf.py:194-195 | The fixed `gwid` and the sheet concepts sit at known positions. |
| Concepts.StructuralGwidTwice | script/ddf.py:188-195 | A `Gwid` header slugged to `gwid` gives a second `gwid` id. |
| Concepts.DuplicateGwid | script/ddf.py:188-199 | Such a sheet gives a catalogue that lists `gwid` twice. |
| Concepts.IntendedSheetConceptNames | script/ddf.py:187-188 | The corrected sheet concepts are exactly those of line 188 other than `Gwid`. |
| Concepts.IntendedIdsDistinct | script/ddf.py:188-197 | With `Gwid` dropped as well, the structural ids are distinct whenever the level slugs and the remaining sheet slugs are distinct, avoid each other, and avoid the built-in ids. |
| Datapoints.FileKeyRoundTrip | script/ddf.py:241-246 | The file `k.json` passes the extension test and gives back the key `k`. |
| Datapoints.RenameColFails | script/ddf.py:13-25 | An unknown file key raises. A known one succeeds exactly when some concept has its indicator's name as full name. |
| Datapoints.ConceptNamed | script/ddf.py:21 | The lookup of a concept by full name finds one exactly when some concept has that full name. |
| Datapoints.RenameColValue | script/ddf.py:19-21 | The id is that of the first concept whose full name is the name on the first row for the file. |
| Datapoints.RenameColMissingConcept | script/ddf.py:20-24 | When no concept has the name, the error names the indicator. |
| Datapoints.GwidIndexSpec | script/ddf.py:237-238 | A gwid is indexed exactly when a sheet record has it, and leads to the ISO code of the last such record. |
| Datapoints.RenameGeoComposes | script/ddf.py:28-35 | The two-stage lookup translates a code exactly when both stages know it, and acts as the composed map. |
| Datapoints.RenameColumnsHeaders | script/ddf.py:256 | When the key is a header, the id is one afterwards. When key and id differ, the key is no longer a header. Every other header is present exactly when it was. |
| Datapoints.ExtractDatapoints | script/ddf.py:231-259 | The column selection, then the loop with its three skips, yields exactly the specified frames or error. |
| Datapoints.DatapointsRun | script/ddf.py:237 | The stage raises exactly when the country sheet lacks `ISO3dig_ext` or `Gwid`. |
| Datapoints.DatapointsAppend | script/ddf.py:240-259 | Output follows the listing: a split listing yields its two outputs in turn. |
| Datapoints.DatapointsFrom | script/ddf.py:240-259 | At most one frame per file. A frame is yielded exactly when some file yields it. |
| Datapoints.ProcessSpec | script/ddf.py:241-259 | A file yields exactly when its name contains `.json`, its key has an indicator that some concept names, and it has `geo`. The frame carries that id, its translated codes and the renamed value column. |
| Datapoints.SameIdTwice | script/ddf.py:240-259 | Two files whose keys name the same indicator, which some concept names, give two frames under the same concept id. |

## Left out

- File and network I/O are parameters, not modelled:
  - `os.listdir`, `os.path.join` and `pd.read_json` are replaced by a
    given sequence of files, each with its name, headers and `geo` column;
  - the spreadsheets and JSON files are given as parsed records;
  - the `print` of line 23 is not modelled.
- `to_concept_id` (the `common` module) is not part of this model. It is
  the uninterpreted parameter `toId`.
- The header renaming of lines 128-138 and 155-164 is not modelled. The
  records arrive with named fields, so the `KeyError` that a missing
  spreadsheet header raises there is not modelled either.
- Python 2 `dict` iteration order is not modelled. `rm.values()` and the
  groupings are taken in their written order.
- Generator laziness is not modelled: `extract_datapoints` becomes the
  finished sequence.
- EntityCountry.CountryTableSpec: the join by display name (line 111) is
  modelled as a left lookup, one row per record in record order. pandas'
  outer join also adds a row for each Systema Globalis name that no record
  has. It orders the rows by the sorted union of names, and raises when a
  name repeats. None of this is modelled.
- EntityCountry.CountryCodeMapSpec: the series also has an entry with an
  empty index for each Systema Globalis name that no record has, and
  follows the same sorted order. The model has one entry per record, in
  record order.
- EntityCountry.SgCells: a `country2` header that slugs to `country`,
  `world_4region`, `latitude` or `longitude` is dropped from the row and
  replaced by the Systema Globalis cell, which is empty when the name is
  unmatched. pandas' concat at line 111 keeps both columns, so
  `PreColumns` lists that header twice while the row holds one cell.
- EntityCountry.ExtractEntitiesCountry: two headers of `country2` that
  slug to the same name are both kept by pandas. The model keeps one
  column, and the later one wins in the row map.
- EntityCountry.EntitiesCountryFails: pandas names every missing label of
  the selection at line 79. The model names `ISO3dig_ext`, then `Gwid`.
- EntityCountry.GroupColumnsSpec: lines 51 and 87 take the index label `i`
  of `gps.n` as the position given to `gps.iloc`. The model takes the
  levels at positions 0 to n-1, which is the default index.
- Empty `Gwid` or `ISO3dig_ext` cells in the country sheet are not
  modelled. Every record carries both as strings.
- Concepts.CatalogueFails: pandas' `Index.drop` lists both missing labels.
  The model names `Name` first.
- Concepts.FillStructural: a write to a position past the end of a short
  frame would enlarge the frame in pandas. The model skips such writes.
- Datapoints.GwidIndexSpec: `.ix` with a gwid label that repeats in the
  sheet returns several rows. The model keeps the last record's code, one
  cell per code.
- Datapoints.DatapointsRun: `geomap` is any map from old to new codes.
  The script passes the map-mode series of the country stage. That series
  may repeat an old code, and it has empty-index entries for names found
  only in Systema Globalis. The model assumes one new code per old code.
  It does not capture the length mismatch that line 35 then gives and
  line 255 raises on, nor the wrong codes written in that case.
- Datapoints.RenameGeoComposes: `.ix` raises when none of the labels is
  present. The model leaves unknown codes empty.

## Findings

| source | as written | input that shows it | evidently intended | confidence | as-written member | corrected member |
|---|---|---|---|---|---|---|
| script/ddf.py:93 | membership values use the loose slug at every level, so at position 4 they are not the strict-slug ids of the region group table | one region `r` named `A B` with member `c` at position 4, under a slug helper whose loose slug of `A B` is `a_b` and whose strict slug is `ab` | slug each level's region names in that level's group-table mode | medium, not executed | Consistency.RegionLevelMismatch | Consistency.LevelMembershipInGroupTable |
| script/ddf.py:188 | `Gwid` is kept among the sheet concepts beside the fixed `gwid` | a country sheet with a `Gwid` header, which the slug helper maps to `gwid` | drop `Gwid` at line 188 too | medium, not executed | Concepts.DuplicateGwid | Concepts.IntendedIdsDistinct |

The corrected members stand beside the model and the rest of it does not
use them: the model follows the code as written. Dropping `Gwid` also moves
positions 36-40 of the positional writes, which would have to follow.

See "How the model works" for how NaN, the first-match and last-wins
lookups, and aborting errors are modelled.
