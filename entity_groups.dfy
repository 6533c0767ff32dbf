/** Entity-group extraction (`extract_entities_groups`, script/ddf.py lines
    39-62): one entity table per grouping level, keyed by the slug of the
    level's name, with one row per group code. */
module EntityGroups {
  import opened Common
  import opened Regions

  /** A row of a group table, the columns `[n, 'name', 'gwid', 'is--' + n]`. */
  datatype GroupRow = GroupRow(id: string, name: Option<string>, gwid: string, isMember: string)

  /** The table of one grouping level; `key` is the slug `n` of its name. */
  datatype GroupTable = GroupTable(key: string, rows: seq<GroupRow>)

  /** The grouping at this position is the top-level region hierarchy. */
  const RegionLevel: nat := 4

  /** Its identifiers drop separators; every other level keeps them as `_`. */
  function IdMode(i: nat): SlugMode
  {
    if i == RegionLevel then Strict else Loose
  }

  /** The column applies of lines 53-59 over the group codes; the first code
      without a region name raises. */
  function GroupRows(regd: map<string, string>, codes: seq<string>, mode: SlugMode, named: bool,
                     toId: Slugger): (r: Result<seq<GroupRow>>)
    ensures r.Success? <==> forall j :: 0 <= j < |codes| ==> codes[j] in regd
    ensures r.Success? ==>
      && |r.value| == |codes|
      && forall j :: 0 <= j < |codes| ==>
           r.value[j] == GroupRow(toId(regd[codes[j]], mode),
                                  if named then Some(regd[codes[j]]) else None, codes[j], True)
    ensures r.Failure? ==>
      exists j :: 0 <= j < |codes| && codes[j] !in regd && r.error == MissingRegion(codes[j])
                  && forall j' :: 0 <= j' < j ==> codes[j'] in regd
    decreases |codes|
  {
    if |codes| == 0 then Success([])
    else if codes[0] !in regd then Failure(MissingRegion(codes[0]))
    else
      var rest := GroupRows(regd, codes[1..], mode, named, toId);
      assert forall j :: 1 <= j < |codes| ==> codes[j] == codes[1..][j - 1];
      match rest
      case Failure(e) => Failure(e)
      case Success(rows) =>
        Success([GroupRow(toId(regd[codes[0]], mode),
                          if named then Some(regd[codes[0]]) else None, codes[0], True)] + rows)
  }

  /** The table built for the grouping at position `i` (lines 51-61). */
  function GroupTableAt(regd: map<string, string>, gps: seq<Grouping>, i: nat, toId: Slugger)
    : (r: Result<GroupTable>)
    requires i < |gps|
    ensures r.Success? <==> forall j :: 0 <= j < |gps[i].groupings| ==> gps[i].groupings[j].0 in regd
    ensures r.Success? ==>
      var codes := gps[i].groupings;
      && r.value.key == toId(gps[i].n, Plain)
      && |r.value.rows| == |codes|
      && forall j :: 0 <= j < |codes| ==>
           var row := r.value.rows[j];
           && row.gwid == codes[j].0
           && row.isMember == "TRUE"
           && row.id == toId(regd[codes[j].0], if i == 4 then Strict else Loose)
           && row.name == (if i == 4 then None else Some(regd[codes[j].0]))
    ensures r.Failure? ==>
      exists j :: 0 <= j < |gps[i].groupings| && gps[i].groupings[j].0 !in regd
                  && r.error == MissingRegion(gps[i].groupings[j].0)
  {
    match GroupRows(regd, Codes(gps[i].groupings), IdMode(i), i != RegionLevel, toId)
    case Failure(e) => Failure(e)
    case Success(rows) => Success(GroupTable(toId(gps[i].n, Plain), rows))
  }

  /** The dictionary `res` after the first `k` groupings (`res[n] = df`). */
  function GroupsUpTo(regd: map<string, string>, gps: seq<Grouping>, k: nat, toId: Slugger)
    : Result<map<string, GroupTable>>
    requires k <= |gps|
  {
    if k == 0 then Success(map[])
    else
      match GroupsUpTo(regd, gps, k - 1, toId)
      case Failure(e) => Failure(e)
      case Success(m) =>
        match GroupTableAt(regd, gps, k - 1, toId)
        case Failure(e) => Failure(e)
        case Success(t) => Success(m[t.key := t])
  }

  /** What `extract_entities_groups(regs, gps)` returns or raises. */
  function EntitiesGroups(regs: seq<RegionRecord>, gps: seq<Grouping>, toId: Slugger)
    : Result<map<string, GroupTable>>
  {
    GroupsUpTo(Inverted(regs), gps, |gps|, toId)
  }

  /** Once a grouping has failed, the run stays failed with the same error. */
  lemma {:induction false} FailurePersists(regd: map<string, string>, gps: seq<Grouping>,
                                           k: nat, k': nat, toId: Slugger)
    requires k <= k' <= |gps|
    requires GroupsUpTo(regd, gps, k, toId).Failure?
    ensures GroupsUpTo(regd, gps, k', toId) == GroupsUpTo(regd, gps, k, toId)
  {
    if k < k' {
      FailurePersists(regd, gps, k, k' - 1, toId);
    }
  }

  /** The loop of lines 45-62. */
  method ExtractEntitiesGroups(regs: seq<RegionRecord>, gps: seq<Grouping>, toId: Slugger)
    returns (r: Result<map<string, GroupTable>>)
    ensures r == EntitiesGroups(regs, gps, toId)
  {
    var regd := InvertRegions(regs);
    var res: map<string, GroupTable> := map[];
    var i := 0;
    while i < |gps|
      invariant 0 <= i <= |gps|
      invariant GroupsUpTo(regd, gps, i, toId) == Success(res)
    {
      var t := GroupTableAt(regd, gps, i, toId);
      if t.Failure? {
        FailurePersists(regd, gps, i + 1, |gps|, toId);
        return Failure(t.error);
      }
      res := res[t.value.key := t.value];
      i := i + 1;
    }
    r := Success(res);
  }

  /** The first `k` groupings succeed exactly when all their codes have region
      names, and a failure names a code that has none. */
  lemma {:induction false} GroupsUpToFails(regd: map<string, string>, gps: seq<Grouping>, k: nat,
                                           toId: Slugger)
    requires k <= |gps|
    ensures GroupsUpTo(regd, gps, k, toId).Success? <==>
      forall i, j :: 0 <= i < k && 0 <= j < |gps[i].groupings| ==> gps[i].groupings[j].0 in regd
    ensures GroupsUpTo(regd, gps, k, toId).Failure? ==>
      exists i, j :: 0 <= i < k && 0 <= j < |gps[i].groupings| && gps[i].groupings[j].0 !in regd
                     && GroupsUpTo(regd, gps, k, toId).error == MissingRegion(gps[i].groupings[j].0)
  {
    if k > 0 {
      GroupsUpToFails(regd, gps, k - 1, toId);
    }
  }

  /** After `k` successful groupings the keys are their slugs. */
  lemma {:induction false} GroupsUpToKeys(regd: map<string, string>, gps: seq<Grouping>, k: nat,
                                          toId: Slugger)
    requires k <= |gps|
    requires GroupsUpTo(regd, gps, k, toId).Success?
    ensures GroupsUpTo(regd, gps, k, toId).value.Keys == (set i | 0 <= i < k :: toId(gps[i].n, Plain))
  {
    if k > 0 {
      GroupsUpToKeys(regd, gps, k - 1, toId);
      assert (set i | 0 <= i < k :: toId(gps[i].n, Plain))
          == (set i | 0 <= i < k - 1 :: toId(gps[i].n, Plain)) + {toId(gps[k - 1].n, Plain)};
    }
  }

  /** After `k` successful groupings a slug holds the table of the last
      grouping with that slug. */
  lemma {:induction false} GroupsUpToTable(regd: map<string, string>, gps: seq<Grouping>, k: nat,
                                           toId: Slugger, i: nat)
    requires i < k <= |gps|
    requires GroupsUpTo(regd, gps, k, toId).Success?
    requires forall i' :: i < i' < k ==> toId(gps[i'].n, Plain) != toId(gps[i].n, Plain)
    ensures GroupTableAt(regd, gps, i, toId).Success?
    ensures toId(gps[i].n, Plain) in GroupsUpTo(regd, gps, k, toId).value
    ensures GroupsUpTo(regd, gps, k, toId).value[toId(gps[i].n, Plain)]
            == GroupTableAt(regd, gps, i, toId).value
  {
    if i < k - 1 {
      GroupsUpToTable(regd, gps, k - 1, toId, i);
    }
  }

  /** `extract_entities_groups` raises exactly when some group code has no
      region name, and the error names such a code. */
  lemma EntitiesGroupsFails(regs: seq<RegionRecord>, gps: seq<Grouping>, toId: Slugger)
    ensures EntitiesGroups(regs, gps, toId).Success? <==>
      forall i, j :: 0 <= i < |gps| && 0 <= j < |gps[i].groupings| ==>
        gps[i].groupings[j].0 in Inverted(regs)
    ensures EntitiesGroups(regs, gps, toId).Failure? ==>
      exists i, j :: 0 <= i < |gps| && 0 <= j < |gps[i].groupings|
                     && gps[i].groupings[j].0 !in Inverted(regs)
                     && EntitiesGroups(regs, gps, toId).error == MissingRegion(gps[i].groupings[j].0)
  {
    GroupsUpToFails(Inverted(regs), gps, |gps|, toId);
  }

  /** On success there is one table per grouping slug, and the table under a
      slug is the one built from the last grouping with that slug: its `gwid`
      column is the grouping's codes in order, every `is--n` is TRUE, the
      identifiers are slugs of the region names (strict at position 4) and the
      names are filled everywhere except at position 4. */
  lemma EntitiesGroupsTables(regs: seq<RegionRecord>, gps: seq<Grouping>, toId: Slugger, i: nat)
    requires EntitiesGroups(regs, gps, toId).Success?
    requires i < |gps|
    requires forall i' :: i < i' < |gps| ==> toId(gps[i'].n, Plain) != toId(gps[i].n, Plain)
    ensures EntitiesGroups(regs, gps, toId).value.Keys == (set i | 0 <= i < |gps| :: toId(gps[i].n, Plain))
    ensures
      var t := EntitiesGroups(regs, gps, toId).value[toId(gps[i].n, Plain)];
      var regd := Inverted(regs);
      var codes := gps[i].groupings;
      && t.key == toId(gps[i].n, Plain)
      && |t.rows| == |codes|
      && forall j :: 0 <= j < |codes| ==>
           && t.rows[j].gwid == codes[j].0
           && t.rows[j].isMember == "TRUE"
           && codes[j].0 in regd
           && t.rows[j].id == toId(regd[codes[j].0], if i == 4 then Strict else Loose)
           && t.rows[j].name == (if i == 4 then None else Some(regd[codes[j].0]))
  {
    GroupsUpToKeys(Inverted(regs), gps, |gps|, toId);
    GroupsUpToTable(Inverted(regs), gps, |gps|, toId, i);
  }
}
