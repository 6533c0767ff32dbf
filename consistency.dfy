/** How the membership columns of the country table relate to the group
    tables: both are built from the same grouping definition and the same
    inverted region table (script/ddf.py lines 51-59 and 88-95). */
module Consistency {
  import opened Common
  import opened EntityGroups
  import opened Membership

  /** Away from the region level, every membership value is the identifier of
      a row of that level's group table: the row of a group listing the member. */
  lemma MembershipInGroupTable(regd: map<string, string>, gps: seq<Grouping>, i: nat, toId: Slugger,
                               g: string)
    requires i < |gps| && i != RegionLevel
    requires GroupTableAt(regd, gps, i, toId).Success?
    requires MembershipOf(regd, gps[i].groupings, toId).Success?
    requires g in MembershipOf(regd, gps[i].groupings, toId).value
    ensures exists j :: 0 <= j < |GroupTableAt(regd, gps, i, toId).value.rows|
                        && g in gps[i].groupings[j].1
                        && GroupTableAt(regd, gps, i, toId).value.rows[j].gwid == gps[i].groupings[j].0
                        && GroupTableAt(regd, gps, i, toId).value.rows[j].id
                           == MembershipOf(regd, gps[i].groupings, toId).value[g]
  {
    MembershipValue(regd, gps[i].groupings, Loose, toId, g);
  }

  /** At the region level the group table holds the strict slug of the group's
      name while the membership value is its loose slug: the two agree only
      where both slugs of that name agree. */
  lemma MembershipAtRegionLevel(regd: map<string, string>, gps: seq<Grouping>, toId: Slugger, g: string)
    requires RegionLevel < |gps|
    requires GroupTableAt(regd, gps, RegionLevel, toId).Success?
    requires MembershipOf(regd, gps[RegionLevel].groupings, toId).Success?
    requires g in MembershipOf(regd, gps[RegionLevel].groupings, toId).value
    ensures exists j :: 0 <= j < |GroupTableAt(regd, gps, RegionLevel, toId).value.rows|
                        && g in gps[RegionLevel].groupings[j].1
                        && gps[RegionLevel].groupings[j].0 in regd
                        && var name := regd[gps[RegionLevel].groupings[j].0];
                        && GroupTableAt(regd, gps, RegionLevel, toId).value.rows[j].id == toId(name, Strict)
                        && MembershipOf(regd, gps[RegionLevel].groupings, toId).value[g] == toId(name, Loose)
  {
    MembershipValue(regd, gps[RegionLevel].groupings, Loose, toId, g);
  }

  /** A slug function under which the loose and the strict slug of `A B` differ. */
  function SpacedSlug(s: string, mode: SlugMode): string
  {
    if mode == Strict then "ab" else if mode == Loose then "a_b" else s
  }

  /** Line 93 as written, at the region level: the only member of the only
      region gets the loose slug `a_b`, while the region group table of lines
      53-59 names that region `ab`, so no row of the table has the member's
      value as its identifier. */
  lemma RegionLevelMismatch()
    ensures
      var regd := map["r" := "A B"];
      var gps := [Grouping("g0", []), Grouping("g1", []), Grouping("g2", []), Grouping("g3", []),
                  Grouping("region", [("r", ["c"])])];
      && GroupTableAt(regd, gps, RegionLevel, SpacedSlug).Success?
      && MembershipOf(regd, gps[RegionLevel].groupings, SpacedSlug) == Success(map["c" := "a_b"])
      && forall j :: 0 <= j < |GroupTableAt(regd, gps, RegionLevel, SpacedSlug).value.rows| ==>
           GroupTableAt(regd, gps, RegionLevel, SpacedSlug).value.rows[j].id != "a_b"
  {
    var regd := map["r" := "A B"];
    var gs := [("r", ["c"])];
    assert GroupPairs("r", ["c"]) == [("c", "r")] by {
      assert ["c"][..0] == [];
    }
    assert MemberPairs(gs) == [("c", "r")] by {
      assert gs[..0] == [];
    }
    assert MembershipFold(regd, [("c", "r")], Loose, SpacedSlug) == Success(map["c" := "a_b"]) by {
      assert [("c", "r")][..0] == [];
    }
  }

  /** The membership map of level `i` as the group tables would have it: the
      region names slugged in the level's own mode, strictly at the region
      level and loosely elsewhere. Away from the region level it is the map
      that line 93 builds. */
  function LevelMembership(regd: map<string, string>, gps: seq<Grouping>, i: nat, toId: Slugger)
    : (r: Result<map<string, string>>)
    requires i < |gps|
    ensures i != RegionLevel ==> r == MembershipOf(regd, gps[i].groupings, toId)
  {
    MembershipIn(regd, gps[i].groupings, IdMode(i), toId)
  }

  /** At every level, the region level included, each value of the
      level-aware membership map is the identifier of a row of that level's
      group table: the row of a group listing the member. */
  lemma LevelMembershipInGroupTable(regd: map<string, string>, gps: seq<Grouping>, i: nat, toId: Slugger,
                                    g: string)
    requires i < |gps|
    requires GroupTableAt(regd, gps, i, toId).Success?
    requires LevelMembership(regd, gps, i, toId).Success?
    requires g in LevelMembership(regd, gps, i, toId).value
    ensures exists j :: 0 <= j < |GroupTableAt(regd, gps, i, toId).value.rows|
                        && g in gps[i].groupings[j].1
                        && GroupTableAt(regd, gps, i, toId).value.rows[j].gwid == gps[i].groupings[j].0
                        && GroupTableAt(regd, gps, i, toId).value.rows[j].id
                           == LevelMembership(regd, gps, i, toId).value[g]
  {
    MembershipValue(regd, gps[i].groupings, IdMode(i), toId, g);
  }
}
