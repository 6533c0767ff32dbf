/** The region name table: regions.json supplies `{name: gwid}` records, and
    both entity extractors first invert them into `regd`, gwid to name
    (script/ddf.py lines 47-49 and 75-77). */
module Regions {
  import opened Common
  import opened Lookup

  /** The assignments `regd[value] = key`, one per record, in order. */
  function InversionPairs(regs: seq<RegionRecord>): (ps: seq<(string, string)>)
    ensures |ps| == |regs|
    ensures forall j :: 0 <= j < |regs| ==> ps[j] == (regs[j].value, regs[j].key)
  {
    seq(|regs|, j requires 0 <= j < |regs| => (regs[j].value, regs[j].key))
  }

  /** The inverted table `regd` the loop leaves behind. */
  function Inverted(regs: seq<RegionRecord>): map<string, string>
  {
    Assign(InversionPairs(regs))
  }

  /** The loop of lines 47-49: one dictionary assignment per record. */
  method InvertRegions(regs: seq<RegionRecord>) returns (regd: map<string, string>)
    ensures regd == Inverted(regs)
  {
    regd := map[];
    var i := 0;
    while i < |regs|
      invariant 0 <= i <= |regs|
      invariant regd == Inverted(regs[..i])
    {
      assert InversionPairs(regs[..i + 1])[..i] == InversionPairs(regs[..i]);
      regd := regd[regs[i].value := regs[i].key];
      i := i + 1;
    }
    assert regs[..i] == regs;
  }

  /** A gwid is in the table exactly when some record names it, and it maps to
      the name of the last record that does. */
  lemma InvertedSpec(regs: seq<RegionRecord>, j: nat)
    requires j < |regs|
    requires forall j' :: j < j' < |regs| ==> regs[j'].value != regs[j].value
    ensures regs[j].value in Inverted(regs)
    ensures Inverted(regs)[regs[j].value] == regs[j].key
  {
    AssignLastWins(InversionPairs(regs), j);
  }

  /** Only gwids that some record names are in the table. */
  lemma InvertedKeys(regs: seq<RegionRecord>, v: string)
    ensures v in Inverted(regs) <==> exists j :: 0 <= j < |regs| && regs[j].value == v
  {
    var ps := InversionPairs(regs);
    AssignKeys(ps, v);
    if exists i :: 0 <= i < |ps| && ps[i].0 == v {
      var i :| 0 <= i < |ps| && ps[i].0 == v;
      assert regs[i].value == v;
    }
  }
}
