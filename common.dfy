/** Values shared by every stage of the export: optional cells, the errors that
    abort a run, and the external identifier-slugging helper. */
module Common {

  /** A cell that may be missing (pandas NaN). */
  datatype Option<+T> = None | Some(value: T)

  /** The lookups that abort a run (a KeyError or IndexError in the script). */
  datatype Error =
    | MissingRegion(code: string)       // a group code with no entry in the inverted region table
    | MissingColumn(column: string)     // a column the script selects or drops is absent
    | MissingIndicator(key: string)     // metadata has no entry for a supplementary indicator
    | MissingWorld4Region               // the discrete-concept table has no `world_4region` row
    | UnknownFile(key: string)          // no indicator row has this hashed file name
    | UnknownConcept(name: string)      // no concept has this indicator name as its full name

  datatype Result<+T> = Success(value: T) | Failure(error: Error)

  /** The three ways the script calls `to_concept_id`:
      Plain  - default arguments (grouping names, column headers);
      Loose  - with the separator character class, separators become `_`;
      Strict - the same class with an empty separator (grouping position 4). */
  datatype SlugMode = Plain | Loose | Strict

  /** `to_concept_id` lives outside the modelled file; it is an arbitrary function. */
  type Slugger = (string, SlugMode) -> string

  /** One region record `{key: value}` of regions.json: a display name and its gwid. */
  datatype RegionRecord = RegionRecord(key: string, value: string)

  /** One grouping level of area_categorizarion.json: its display name `n` and its
      `groupings` object, a group code to member gwid list, in document order. */
  datatype Grouping = Grouping(n: string, groupings: seq<(string, seq<string>)>)

  /** The group codes of a grouping, in order (`groupings.keys()`). */
  function Codes(gs: seq<(string, seq<string>)>): (r: seq<string>)
    ensures |r| == |gs|
    ensures forall j :: 0 <= j < |gs| ==> r[j] == gs[j].0
  {
    seq(|gs|, j requires 0 <= j < |gs| => gs[j].0)
  }

  /** The string-valued flag every entity table uses for membership columns. */
  const True: string := "TRUE"
}
