/** The membership map of one grouping level (`extract_entities_country`,
    script/ddf.py lines 88-95): every non-empty member gwid listed under a
    group code maps to the loose slug of that group's region name, and a gwid
    listed under several groups keeps the last one iterated. */
module Membership {
  import opened Common
  import opened Lookup

  /** The assignments made for one group `k` with members `v`, as (member, group)
      pairs: empty member codes are skipped (`if gwid:`). */
  function GroupPairs(k: string, v: seq<string>): seq<(string, string)>
  {
    if |v| == 0 then []
    else GroupPairs(k, v[..|v| - 1]) + (if v[|v| - 1] != "" then [(v[|v| - 1], k)] else [])
  }

  /** The assignments made for a whole `groupings` object, in iteration order. */
  function MemberPairs(gs: seq<(string, seq<string>)>): seq<(string, string)>
  {
    if |gs| == 0 then [] else MemberPairs(gs[..|gs| - 1]) + GroupPairs(gs[|gs| - 1].0, gs[|gs| - 1].1)
  }

  /** Running the assignments `res[g] = to_concept_id(regd[k], sub)` in order,
      for the slug mode `mode`; the first group code without a region name raises. */
  function MembershipFold(regd: map<string, string>, ps: seq<(string, string)>, mode: SlugMode, toId: Slugger)
    : Result<map<string, string>>
  {
    if |ps| == 0 then Success(map[])
    else
      match MembershipFold(regd, ps[..|ps| - 1], mode, toId)
      case Failure(e) => Failure(e)
      case Success(m) =>
        var (g, k) := ps[|ps| - 1];
        if k in regd then Success(m[g := toId(regd[k], mode)]) else Failure(MissingRegion(k))
  }

  /** The membership map of a `groupings` object under slug mode `mode`. */
  function MembershipIn(regd: map<string, string>, gs: seq<(string, seq<string>)>, mode: SlugMode, toId: Slugger)
    : Result<map<string, string>>
  {
    MembershipFold(regd, MemberPairs(gs), mode, toId)
  }

  /** The series `ser` built for one grouping level: line 93 slugs every
      level's region names loosely. */
  function MembershipOf(regd: map<string, string>, gs: seq<(string, seq<string>)>, toId: Slugger)
    : Result<map<string, string>>
  {
    MembershipIn(regd, gs, Loose, toId)
  }

  lemma GroupPairsStep(k: string, v: seq<string>, j: nat)
    requires j < |v|
    ensures GroupPairs(k, v[..j + 1])
            == GroupPairs(k, v[..j]) + (if v[j] != "" then [(v[j], k)] else [])
  {
    assert v[..j + 1][..j] == v[..j];
  }

  lemma {:induction false} GroupPairsPrefix(k: string, v: seq<string>, j: nat)
    requires j <= |v|
    ensures GroupPairs(k, v[..j]) <= GroupPairs(k, v)
  {
    if j < |v| {
      var n := |v| - 1;
      assert v[..n][..j] == v[..j];
      GroupPairsPrefix(k, v[..n], j);
      assert v[..n + 1] == v;
      GroupPairsStep(k, v, n);
    } else {
      assert v[..j] == v;
    }
  }

  lemma {:induction false} MemberPairsPrefix(gs: seq<(string, seq<string>)>, i: nat)
    requires i <= |gs|
    ensures MemberPairs(gs[..i]) <= MemberPairs(gs)
  {
    if i < |gs| {
      var n := |gs| - 1;
      assert gs[..n][..i] == gs[..i];
      MemberPairsPrefix(gs[..n], i);
      assert gs[..n] == gs[..|gs| - 1];
    } else {
      assert gs[..i] == gs;
    }
  }

  /** A failure among earlier assignments is the failure of the whole run. */
  lemma {:induction false} FoldFailurePersists(regd: map<string, string>, p: seq<(string, string)>,
                                               q: seq<(string, string)>, toId: Slugger)
    requires p <= q
    requires MembershipFold(regd, p, Loose, toId).Failure?
    ensures MembershipFold(regd, q, Loose, toId) == MembershipFold(regd, p, Loose, toId)
    decreases |q|
  {
    if |q| > |p| {
      assert p <= q[..|q| - 1];
      FoldFailurePersists(regd, p, q[..|q| - 1], toId);
    } else {
      assert p == q;
    }
  }

  /** One more assignment: it succeeds when the group has a region name. */
  lemma FoldStep(regd: map<string, string>, p: seq<(string, string)>, g: string, k: string,
                 res: map<string, string>, toId: Slugger)
    requires MembershipFold(regd, p, Loose, toId) == Success(res)
    ensures MembershipFold(regd, p + [(g, k)], Loose, toId)
            == if k in regd then Success(res[g := toId(regd[k], Loose)]) else Failure(MissingRegion(k))
  {
    assert (p + [(g, k)])[..|p|] == p;
  }

  /** A failure after the first `j + 1` members of a group is the failure after
      the whole group. */
  lemma InnerFailure(regd: map<string, string>, done: seq<(string, string)>, k: string, v: seq<string>,
                     j: nat, toId: Slugger)
    requires j < |v|
    requires MembershipFold(regd, done + GroupPairs(k, v[..j + 1]), Loose, toId).Failure?
    ensures MembershipFold(regd, done + GroupPairs(k, v), Loose, toId)
            == MembershipFold(regd, done + GroupPairs(k, v[..j + 1]), Loose, toId)
  {
    GroupPairsPrefix(k, v, j + 1);
    assert done + GroupPairs(k, v[..j + 1]) <= done + GroupPairs(k, v);
    FoldFailurePersists(regd, done + GroupPairs(k, v[..j + 1]), done + GroupPairs(k, v), toId);
  }

  /** The pairs of the first `i + 1` groups. */
  lemma OuterStep(gs: seq<(string, seq<string>)>, i: nat)
    requires i < |gs|
    ensures MemberPairs(gs[..i + 1]) == MemberPairs(gs[..i]) + GroupPairs(gs[i].0, gs[i].1)
  {
    assert gs[..i + 1][..i] == gs[..i];
  }

  /** One pass of the inner loop for an empty member: nothing changes. */
  lemma SkipStep(done: seq<(string, string)>, k: string, v: seq<string>, j: nat)
    requires j < |v| && v[j] == ""
    ensures done + GroupPairs(k, v[..j + 1]) == done + GroupPairs(k, v[..j])
  {
    GroupPairsStep(k, v, j);
  }

  /** One pass of the inner loop for a non-empty member: it gets the slug of
      its group's region name, or the whole group fails when that is missing. */
  lemma SetStep(regd: map<string, string>, done: seq<(string, string)>, k: string, v: seq<string>, j: nat,
                res: map<string, string>, toId: Slugger)
    requires j < |v| && v[j] != ""
    requires MembershipFold(regd, done + GroupPairs(k, v[..j]), Loose, toId) == Success(res)
    ensures k in regd ==>
              MembershipFold(regd, done + GroupPairs(k, v[..j + 1]), Loose, toId)
              == Success(res[v[j] := toId(regd[k], Loose)])
    ensures k !in regd ==>
              MembershipFold(regd, done + GroupPairs(k, v), Loose, toId) == Failure(MissingRegion(k))
  {
    GroupPairsStep(k, v, j);
    var before := done + GroupPairs(k, v[..j]);
    assert done + GroupPairs(k, v[..j + 1]) == before + [(v[j], k)];
    FoldStep(regd, before, v[j], k, res, toId);
    if k !in regd {
      InnerFailure(regd, done, k, v, j, toId);
    }
  }

  /** The inner loop of lines 91-93, for group `k` with members `v`, after the
      assignments `done` have left `res0`. */
  method AddGroup(regd: map<string, string>, ghost done: seq<(string, string)>, k: string, v: seq<string>,
                  res0: map<string, string>, toId: Slugger)
    returns (r: Result<map<string, string>>)
    requires MembershipFold(regd, done, Loose, toId) == Success(res0)
    ensures r == MembershipFold(regd, done + GroupPairs(k, v), Loose, toId)
  {
    var res := res0;
    var j := 0;
    assert v[..0] == [];
    assert done + GroupPairs(k, v[..0]) == done;
    while j < |v|
      invariant 0 <= j <= |v|
      invariant MembershipFold(regd, done + GroupPairs(k, v[..j]), Loose, toId) == Success(res)
    {
      var gwid := v[j];
      if gwid != "" {
        SetStep(regd, done, k, v, j, res, toId);
        if k !in regd {
          return Failure(MissingRegion(k));
        }
        res := res[gwid := toId(regd[k], Loose)];
      } else {
        SkipStep(done, k, v, j);
      }
      j := j + 1;
    }
    assert v[..j] == v;
    r := Success(res);
  }

  /** The nested loops of lines 88-93. */
  method BuildMembership(regd: map<string, string>, gs: seq<(string, seq<string>)>, toId: Slugger)
    returns (r: Result<map<string, string>>)
    ensures r == MembershipOf(regd, gs, toId)
  {
    var res: map<string, string> := map[];
    var i := 0;
    while i < |gs|
      invariant 0 <= i <= |gs|
      invariant MembershipFold(regd, MemberPairs(gs[..i]), Loose, toId) == Success(res)
    {
      var (k, v) := gs[i];
      var step := AddGroup(regd, MemberPairs(gs[..i]), k, v, res, toId);
      OuterStep(gs, i);
      if step.Failure? {
        MemberPairsPrefix(gs, i + 1);
        FoldFailurePersists(regd, MemberPairs(gs[..i + 1]), MemberPairs(gs), toId);
        return step;
      }
      res := step.value;
      i := i + 1;
    }
    assert gs[..i] == gs;
    r := Success(res);
  }

  /** A (member, group) pair is assigned exactly when the member code is
      non-empty and listed under that group. */
  lemma {:induction false} GroupPairsIn(k: string, v: seq<string>, g: string, k': string)
    ensures (g, k') in GroupPairs(k, v) <==> g != "" && k' == k && g in v
  {
    if |v| > 0 {
      var n := |v| - 1;
      GroupPairsIn(k, v[..n], g, k');
      assert v == v[..n] + [v[n]];
    }
  }

  lemma {:induction false} MemberPairsIn(gs: seq<(string, seq<string>)>, g: string, k: string)
    ensures (g, k) in MemberPairs(gs) <==>
            g != "" && exists a :: 0 <= a < |gs| && gs[a].0 == k && g in gs[a].1
  {
    if |gs| > 0 {
      var n := |gs| - 1;
      var front := gs[..n];
      MemberPairsIn(front, g, k);
      GroupPairsIn(gs[n].0, gs[n].1, g, k);
      assert MemberPairs(gs) == MemberPairs(front) + GroupPairs(gs[n].0, gs[n].1);
      assert forall a :: 0 <= a < n ==> front[a] == gs[a];
    }
  }

  /** The assignments with their values, when every group has a region name. */
  function SlugPairs(regd: map<string, string>, ps: seq<(string, string)>, mode: SlugMode, toId: Slugger)
    : (r: seq<(string, string)>)
    requires forall i :: 0 <= i < |ps| ==> ps[i].1 in regd
    ensures |r| == |ps|
    ensures forall i :: 0 <= i < |ps| ==> r[i] == (ps[i].0, toId(regd[ps[i].1], mode))
  {
    seq(|ps|, i requires 0 <= i < |ps| => (ps[i].0, toId(regd[ps[i].1], mode)))
  }

  /** The fold succeeds exactly when every assigned group has a region name,
      fails naming the first one that has none, and otherwise is the
      dictionary of the slugged assignments. */
  lemma {:induction false} MembershipFoldSpec(regd: map<string, string>, ps: seq<(string, string)>,
                                              mode: SlugMode, toId: Slugger)
    ensures MembershipFold(regd, ps, mode, toId).Success? <==> forall i :: 0 <= i < |ps| ==> ps[i].1 in regd
    ensures MembershipFold(regd, ps, mode, toId).Success? ==>
            MembershipFold(regd, ps, mode, toId).value == Assign(SlugPairs(regd, ps, mode, toId))
    ensures MembershipFold(regd, ps, mode, toId).Failure? ==>
            exists i :: 0 <= i < |ps| && ps[i].1 !in regd
                        && MembershipFold(regd, ps, mode, toId).error == MissingRegion(ps[i].1)
                        && forall i' :: 0 <= i' < i ==> ps[i'].1 in regd
  {
    if |ps| > 0 {
      var n := |ps| - 1;
      MembershipFoldSpec(regd, ps[..n], mode, toId);
      assert forall i :: 0 <= i < n ==> ps[..n][i] == ps[i];
      if MembershipFold(regd, ps, mode, toId).Success? {
        assert SlugPairs(regd, ps, mode, toId)[..n] == SlugPairs(regd, ps[..n], mode, toId);
      }
    }
  }

  /** Keys of one level's membership map: exactly the non-empty member codes;
      the map exists exactly when every group with a non-empty member has a
      region name. */
  lemma MembershipKeys(regd: map<string, string>, gs: seq<(string, seq<string>)>, toId: Slugger,
                       g: string)
    ensures MembershipOf(regd, gs, toId).Success? <==>
      forall a, m :: 0 <= a < |gs| && 0 <= m < |gs[a].1| && gs[a].1[m] != "" ==> gs[a].0 in regd
    ensures MembershipOf(regd, gs, toId).Success? ==>
      (g in MembershipOf(regd, gs, toId).value <==>
        g != "" && exists a :: 0 <= a < |gs| && g in gs[a].1)
    ensures MembershipOf(regd, gs, toId).Success? ==> "" !in MembershipOf(regd, gs, toId).value
  {
    var ps := MemberPairs(gs);
    MembershipFoldSpec(regd, ps, Loose, toId);
    forall a, m | 0 <= a < |gs| && 0 <= m < |gs[a].1| && gs[a].1[m] != ""
      ensures (gs[a].1[m], gs[a].0) in ps
    {
      MemberPairsIn(gs, gs[a].1[m], gs[a].0);
    }
    forall i | 0 <= i < |ps|
      ensures ps[i].0 != "" && exists a :: 0 <= a < |gs| && gs[a].0 == ps[i].1 && ps[i].0 in gs[a].1
    {
      MemberPairsIn(gs, ps[i].0, ps[i].1);
    }
    if MembershipOf(regd, gs, toId).Success? {
      var sp := SlugPairs(regd, ps, Loose, toId);
      AssignKeys(sp, g);
      AssignKeys(sp, "");
      if g != "" && exists a :: 0 <= a < |gs| && g in gs[a].1 {
        var a :| 0 <= a < |gs| && g in gs[a].1;
        MemberPairsIn(gs, g, gs[a].0);
        var i :| 0 <= i < |ps| && ps[i] == (g, gs[a].0);
        assert sp[i].0 == g;
      }
    }
  }

  /** The last group iterated decides: the value of a member gwid is the loose
      slug of the region name of the last group that lists it. */
  lemma MembershipLastWins(regd: map<string, string>, gs: seq<(string, seq<string>)>, toId: Slugger,
                           i: nat)
    requires MembershipOf(regd, gs, toId).Success?
    requires i < |MemberPairs(gs)|
    requires forall j :: i < j < |MemberPairs(gs)| ==> MemberPairs(gs)[j].0 != MemberPairs(gs)[i].0
    ensures MemberPairs(gs)[i].1 in regd
    ensures MemberPairs(gs)[i].0 in MembershipOf(regd, gs, toId).value
    ensures MembershipOf(regd, gs, toId).value[MemberPairs(gs)[i].0]
            == toId(regd[MemberPairs(gs)[i].1], Loose)
  {
    var ps := MemberPairs(gs);
    MembershipFoldSpec(regd, ps, Loose, toId);
    AssignLastWins(SlugPairs(regd, ps, Loose, toId), i);
  }

  /** Every value in the map is the slug, in the map's mode, of the region
      name of a group that lists the member. */
  lemma MembershipValue(regd: map<string, string>, gs: seq<(string, seq<string>)>, mode: SlugMode,
                        toId: Slugger, g: string)
    requires MembershipIn(regd, gs, mode, toId).Success?
    requires g in MembershipIn(regd, gs, mode, toId).value
    ensures exists a :: 0 <= a < |gs| && g in gs[a].1 && gs[a].0 in regd
                        && MembershipIn(regd, gs, mode, toId).value[g] == toId(regd[gs[a].0], mode)
  {
    var ps := MemberPairs(gs);
    MembershipFoldSpec(regd, ps, mode, toId);
    var sp := SlugPairs(regd, ps, mode, toId);
    AssignValue(sp, g);
    var i :| 0 <= i < |sp| && sp[i] == (g, Assign(sp)[g]) && forall j :: i < j < |sp| ==> sp[j].0 != g;
    MemberPairsIn(gs, ps[i].0, ps[i].1);
  }
}
