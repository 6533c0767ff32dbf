/** Datapoint extraction (`rename_col`, `rename_geo` and `extract_datapoints`,
    script/ddf.py lines 13-35 and 231-259): which indicator files become
    datapoint frames, under which concept id, and how their `geo` codes are
    translated. */
module Datapoints {
  import opened Common
  import opened Lookup
  import Concepts
  import EntityCountry

  /** A file of the indicators directory: its name, the headers of the frame
      it parses to, and that frame's `geo` column when it has one. */
  datatype DataFile = DataFile(name: string, columns: seq<string>, geo: seq<string>)

  /** A yielded frame: its headers after renaming and its translated `geo` cells. */
  datatype Frame = Frame(columns: seq<string>, geo: seq<Option<string>>)

  /** `t` occurs in `s` starting at position `i`. */
  predicate OccursAt(s: string, t: string, i: int)
  {
    0 <= i && i + |t| <= |s| && s[i..i + |t|] == t
  }

  /** Python's `t in s` on strings. */
  predicate Contains(s: string, t: string)
  {
    exists i :: 0 <= i <= |s| - |t| && OccursAt(s, t, i)
  }

  /** Python's `name[:-5]`. */
  function FileKey(name: string): string
  {
    if |name| >= 5 then name[..|name| - 5] else ""
  }

  /** A key saved as `key.json` is listed and read back as the same key. */
  lemma FileKeyRoundTrip(k: string)
    ensures Contains(k + ".json", ".json")
    ensures FileKey(k + ".json") == k
  {
    assert (k + ".json")[|k|..|k| + 5] == ".json";
    assert OccursAt(k + ".json", ".json", |k|);
    assert (k + ".json")[..|k|] == k;
  }

  /** The (`full_name`, `concept`) columns of the cleaned concept table. */
  function ConceptNames(concepts: seq<Concepts.CleanConcept>): (r: seq<(string, string)>)
    ensures |r| == |concepts|
    ensures forall c :: 0 <= c < |concepts| ==> r[c] == (concepts[c].record.fullName, concepts[c].record.concept)
  {
    seq(|concepts|, c requires 0 <= c < |concepts| => (concepts[c].record.fullName, concepts[c].record.concept))
  }

  /** `rename_col(s, idt, concepts)`: the first indicator row with file name
      `s` gives the indicator's name, and the first concept with that full
      name gives the id. `idt` holds the (`-t-ind`, `-t-name`) pairs. */
  function RenameCol(s: string, idt: seq<(string, string)>, concepts: seq<Concepts.CleanConcept>)
    : Result<string>
  {
    match FirstMatch(idt, s)
    case None => Failure(UnknownFile(s))
    case Some(nm) =>
      match FirstMatch(ConceptNames(concepts), nm)
      case None => Failure(UnknownConcept(nm))
      case Some(cid) => Success(cid)
  }

  /** Row `i` is the first indicator row with file name `s`. */
  predicate FirstFile(idt: seq<(string, string)>, s: string, i: int)
  {
    0 <= i < |idt| && idt[i].0 == s && forall i' :: 0 <= i' < i ==> idt[i'].0 != s
  }

  /** Concept `c` is the first concept with full name `nm`. */
  predicate FirstConcept(concepts: seq<Concepts.CleanConcept>, nm: string, c: int)
  {
    0 <= c < |concepts| && concepts[c].record.fullName == nm
    && forall c' :: 0 <= c' < c ==> concepts[c'].record.fullName != nm
  }

  /** An unknown file name raises at the first lookup; a known one raises at
      the second lookup exactly when no concept has the indicator's name. */
  lemma RenameColFails(s: string, idt: seq<(string, string)>, concepts: seq<Concepts.CleanConcept>)
    ensures (forall i :: 0 <= i < |idt| ==> idt[i].0 != s) ==> RenameCol(s, idt, concepts) == Failure(UnknownFile(s))
    ensures RenameCol(s, idt, concepts).Success? <==>
      exists i, c :: FirstFile(idt, s, i) && 0 <= c < |concepts| && concepts[c].record.fullName == idt[i].1
  {
    match FirstMatch(idt, s)
    case None =>
    case Some(nm) =>
      var i :| 0 <= i < |idt| && idt[i] == (s, nm) && forall i' :: 0 <= i' < i ==> idt[i'].0 != s;
      assert FirstFile(idt, s, i);
      ConceptNamed(concepts, nm);
      forall i2 | FirstFile(idt, s, i2)
        ensures i2 == i
      {
      }
  }

  /** The second lookup succeeds exactly when some concept has the full name. */
  lemma ConceptNamed(concepts: seq<Concepts.CleanConcept>, nm: string)
    ensures FirstMatch(ConceptNames(concepts), nm).Some? <==>
      exists c :: 0 <= c < |concepts| && concepts[c].record.fullName == nm
  {
    var names := ConceptNames(concepts);
    if exists c :: 0 <= c < |concepts| && concepts[c].record.fullName == nm {
      var c :| 0 <= c < |concepts| && concepts[c].record.fullName == nm;
      assert names[c].0 == nm;
    }
  }

  /** The indicator's name is that of the first row with the file name, and
      the id is that of the first concept with that full name. */
  lemma RenameColValue(s: string, idt: seq<(string, string)>, concepts: seq<Concepts.CleanConcept>, i: int, c: int)
    requires FirstFile(idt, s, i)
    requires FirstConcept(concepts, idt[i].1, c)
    ensures RenameCol(s, idt, concepts) == Success(concepts[c].record.concept)
  {
    var names := ConceptNames(concepts);
    var nm := FirstMatch(idt, s).value;
    var i2 :| 0 <= i2 < |idt| && idt[i2] == (s, nm) && forall i' :: 0 <= i' < i2 ==> idt[i'].0 != s;
    assert i2 == i;
    var c2 :| 0 <= c2 < |names| && names[c2] == (nm, FirstMatch(names, nm).value)
              && forall c' :: 0 <= c' < c2 ==> names[c'].0 != nm;
    assert names[c].0 == nm;
  }

  /** A known file whose indicator name no concept carries raises with that name. */
  lemma RenameColMissingConcept(s: string, idt: seq<(string, string)>, concepts: seq<Concepts.CleanConcept>, i: int)
    requires FirstFile(idt, s, i)
    requires forall c :: 0 <= c < |concepts| ==> concepts[c].record.fullName != idt[i].1
    ensures RenameCol(s, idt, concepts) == Failure(UnknownConcept(idt[i].1))
  {
    var names := ConceptNames(concepts);
    var nm := FirstMatch(idt, s).value;
    var i2 :| 0 <= i2 < |idt| && idt[i2] == (s, nm) && forall i' :: 0 <= i' < i2 ==> idt[i'].0 != s;
    assert i2 == i;
    assert forall c :: 0 <= c < |names| ==> names[c].0 != nm;
  }

  /** One label lookup of `.ix` over a column: a label the index lacks, or a
      missing cell, gives a missing cell. */
  function Relabel(cells: seq<Option<string>>, m: map<string, string>): (r: seq<Option<string>>)
    ensures |r| == |cells|
  {
    seq(|cells|, i requires 0 <= i < |cells| =>
      if cells[i].Some? && cells[i].value in m then Some(m[cells[i].value]) else None)
  }

  /** `rename_geo(s, gwidmap, isomap)`: gwid to ISO code, ISO code to new code. */
  function RenameGeo(s: seq<string>, gwidmap: map<string, string>, isomap: map<string, string>)
    : (r: seq<Option<string>>)
    ensures |r| == |s|
  {
    Relabel(Relabel(seq(|s|, i requires 0 <= i < |s| => Some(s[i])), gwidmap), isomap)
  }

  /** The (`Gwid`, `ISO3dig_ext`) pairs of the country sheet, in order. */
  function GwidPairs(recs: seq<EntityCountry.CountryRecord>): (r: seq<(string, string)>)
    ensures |r| == |recs|
    ensures forall j :: 0 <= j < |recs| ==> r[j] == (recs[j].gwid, recs[j].iso3)
  {
    seq(|recs|, j requires 0 <= j < |recs| => (recs[j].gwid, recs[j].iso3))
  }

  /** `geo_` of lines 237-238: the sheet indexed by gwid. */
  function GwidIndex(recs: seq<EntityCountry.CountryRecord>): map<string, string>
  {
    Assign(GwidPairs(recs))
  }

  /** A gwid is indexed exactly when some record carries it, and it leads to
      the ISO code of the last such record. */
  lemma GwidIndexSpec(recs: seq<EntityCountry.CountryRecord>, g: string)
    ensures g in GwidIndex(recs) <==> exists j :: 0 <= j < |recs| && recs[j].gwid == g
    ensures g in GwidIndex(recs) ==>
      exists j :: 0 <= j < |recs| && recs[j].gwid == g && GwidIndex(recs)[g] == recs[j].iso3
                  && forall j' :: j < j' < |recs| ==> recs[j'].gwid != g
  {
    var ps := GwidPairs(recs);
    AssignKeys(ps, g);
    if exists j :: 0 <= j < |ps| && ps[j].0 == g {
      var j :| 0 <= j < |ps| && ps[j].0 == g;
      assert recs[j].gwid == g;
    }
    if g in GwidIndex(recs) {
      AssignValue(ps, g);
    }
  }

  /** The single map the two stages amount to. */
  function GeoTranslation(gwidmap: map<string, string>, isomap: map<string, string>): map<string, string>
  {
    map g | g in gwidmap && gwidmap[g] in isomap :: isomap[gwidmap[g]]
  }

  /** The two-stage lookup translates a code exactly when both stages know
      it, to the new code of its ISO code: it is the composed map. */
  lemma RenameGeoComposes(s: seq<string>, gwidmap: map<string, string>, isomap: map<string, string>)
    ensures forall i :: 0 <= i < |s| ==>
      && (RenameGeo(s, gwidmap, isomap)[i].Some? <==> s[i] in gwidmap && gwidmap[s[i]] in isomap)
      && (RenameGeo(s, gwidmap, isomap)[i].Some? <==> s[i] in GeoTranslation(gwidmap, isomap))
      && (s[i] in GeoTranslation(gwidmap, isomap) ==>
            RenameGeo(s, gwidmap, isomap)[i] == Some(GeoTranslation(gwidmap, isomap)[s[i]]))
  {
  }

  /** `d.rename(columns={col: col_r})`: headers equal to the key become the id. */
  function RenameColumns(cols: seq<string>, key: string, cid: string): (r: seq<string>)
    ensures |r| == |cols|
    ensures forall j :: 0 <= j < |cols| ==> r[j] == (if cols[j] == key then cid else cols[j])
  {
    seq(|cols|, j requires 0 <= j < |cols| => if cols[j] == key then cid else cols[j])
  }

  /** Renaming replaces the file key by the concept id and no other header. */
  lemma RenameColumnsHeaders(cols: seq<string>, key: string, cid: string)
    ensures key in cols ==> cid in RenameColumns(cols, key, cid)
    ensures key != cid ==> key !in RenameColumns(cols, key, cid)
    ensures forall c :: c != key && c != cid ==> (c in RenameColumns(cols, key, cid) <==> c in cols)
  {
    var r := RenameColumns(cols, key, cid);
    if key in cols {
      var j :| 0 <= j < |cols| && cols[j] == key;
      assert r[j] == cid;
    }
    forall c | c != key && c != cid && c in cols
      ensures c in r
    {
      var j :| 0 <= j < |cols| && cols[j] == c;
      assert r[j] == c;
    }
  }

  /** The decision for one file (lines 241-259): what it yields, if anything. */
  function Process(f: DataFile, idt: seq<(string, string)>, concepts: seq<Concepts.CleanConcept>,
                   gwidmap: map<string, string>, isomap: map<string, string>): Option<(string, Frame)>
  {
    if !Contains(f.name, ".json") then None
    else
      var key := FileKey(f.name);
      match RenameCol(key, idt, concepts)
      case Failure(_) => None
      case Success(cid) =>
        if "geo" !in f.columns then None
        else Some((cid, Frame(RenameColumns(f.columns, key, cid), RenameGeo(f.geo, gwidmap, isomap))))
  }

  /** The decision for every listed file, in order. */
  function Decisions(files: seq<DataFile>, idt: seq<(string, string)>, concepts: seq<Concepts.CleanConcept>,
                     gwidmap: map<string, string>, isomap: map<string, string>): (r: seq<Option<(string, Frame)>>)
    ensures |r| == |files|
    ensures forall j :: 0 <= j < |files| ==> r[j] == Process(files[j], idt, concepts, gwidmap, isomap)
  {
    seq(|files|, j requires 0 <= j < |files| => Process(files[j], idt, concepts, gwidmap, isomap))
  }

  /** The present values of a sequence of options, in order. */
  function Somes<T>(xs: seq<Option<T>>): seq<T>
  {
    if |xs| == 0 then []
    else Somes(xs[..|xs| - 1]) + (if xs[|xs| - 1].Some? then [xs[|xs| - 1].value] else [])
  }

  lemma {:induction false} SomesAppend<T>(a: seq<Option<T>>, b: seq<Option<T>>)
    ensures Somes(a + b) == Somes(a) + Somes(b)
  {
    if |b| > 0 {
      var n := |b| - 1;
      assert (a + b)[..|a + b| - 1] == a + b[..n];
      SomesAppend(a, b[..n]);
    } else {
      assert a + b == a;
    }
  }

  lemma {:induction false} SomesIn<T>(xs: seq<Option<T>>, x: T)
    ensures |Somes(xs)| <= |xs|
    ensures x in Somes(xs) <==> exists j :: 0 <= j < |xs| && xs[j] == Some(x)
  {
    if |xs| > 0 {
      var n := |xs| - 1;
      SomesIn(xs[..n], x);
      assert forall j :: 0 <= j < n ==> xs[..n][j] == xs[j];
    }
  }

  /** Everything `extract_datapoints` yields for the listed files, in order. */
  function Datapoints(files: seq<DataFile>, idt: seq<(string, string)>, concepts: seq<Concepts.CleanConcept>,
                      gwidmap: map<string, string>, isomap: map<string, string>): seq<(string, Frame)>
  {
    Somes(Decisions(files, idt, concepts, gwidmap, isomap))
  }

  /** What `extract_datapoints` yields, or raises: line 237 selects the
      `ISO3dig_ext` and `Gwid` columns of the country sheet before the first
      file is read, and a frame without either raises. */
  function DatapointsRun(files: seq<DataFile>, idt: seq<(string, string)>, concepts: seq<Concepts.CleanConcept>,
                         geo: EntityCountry.CountrySheet, geomap: map<string, string>)
    : (r: Result<seq<(string, Frame)>>)
    ensures r.Failure? <==> "ISO3dig_ext" !in geo.columns || "Gwid" !in geo.columns
  {
    if "ISO3dig_ext" !in geo.columns then Failure(MissingColumn("ISO3dig_ext"))
    else if "Gwid" !in geo.columns then Failure(MissingColumn("Gwid"))
    else Success(Datapoints(files, idt, concepts, GwidIndex(geo.records), geomap))
  }

  /** Lines 237-259: the column selection, then the loop over the directory listing. */
  method ExtractDatapoints(files: seq<DataFile>, idt: seq<(string, string)>, concepts: seq<Concepts.CleanConcept>,
                           geo: EntityCountry.CountrySheet, geomap: map<string, string>)
    returns (r: Result<seq<(string, Frame)>>)
    ensures r == DatapointsRun(files, idt, concepts, geo, geomap)
  {
    if "ISO3dig_ext" !in geo.columns {
      return Failure(MissingColumn("ISO3dig_ext"));
    }
    if "Gwid" !in geo.columns {
      return Failure(MissingColumn("Gwid"));
    }
    var gwidmap := GwidIndex(geo.records);
    var isomap := geomap;
    var out := [];
    var i := 0;
    while i < |files|
      invariant 0 <= i <= |files|
      invariant out == Datapoints(files[..i], idt, concepts, gwidmap, isomap)
    {
      var f := files[i];
      ghost var ds := Decisions(files[..i + 1], idt, concepts, gwidmap, isomap);
      assert ds[..i] == Decisions(files[..i], idt, concepts, gwidmap, isomap);
      assert ds[i] == Process(f, idt, concepts, gwidmap, isomap);
      if !Contains(f.name, ".json") {
        i := i + 1;
        continue;
      }
      var col := FileKey(f.name);
      var colR := RenameCol(col, idt, concepts);
      if colR.Failure? {
        i := i + 1;
        continue;
      }
      if "geo" in f.columns {
        var d := Frame(RenameColumns(f.columns, col, colR.value), RenameGeo(f.geo, gwidmap, isomap));
        out := out + [(colR.value, d)];
      }
      i := i + 1;
    }
    assert files[..i] == files;
    r := Success(out);
  }

  /** The output follows the listing: a split listing yields the two outputs
      one after the other. */
  lemma DatapointsAppend(a: seq<DataFile>, b: seq<DataFile>, idt: seq<(string, string)>,
                         concepts: seq<Concepts.CleanConcept>,
                         gwidmap: map<string, string>, isomap: map<string, string>)
    ensures Datapoints(a + b, idt, concepts, gwidmap, isomap)
            == Datapoints(a, idt, concepts, gwidmap, isomap) + Datapoints(b, idt, concepts, gwidmap, isomap)
  {
    var da := Decisions(a, idt, concepts, gwidmap, isomap);
    var db := Decisions(b, idt, concepts, gwidmap, isomap);
    var dab := Decisions(a + b, idt, concepts, gwidmap, isomap);
    forall j | 0 <= j < |dab|
      ensures dab[j] == (da + db)[j]
    {
      if j < |a| {
        assert (a + b)[j] == a[j];
      } else {
        assert (a + b)[j] == b[j - |a|];
      }
    }
    assert dab == da + db;
    SomesAppend(da, db);
  }

  /** At most one pair per listed file, and a pair is yielded exactly when
      some listed file yields it. */
  lemma DatapointsFrom(files: seq<DataFile>, idt: seq<(string, string)>,
                       concepts: seq<Concepts.CleanConcept>,
                       gwidmap: map<string, string>, isomap: map<string, string>,
                       x: (string, Frame))
    ensures |Datapoints(files, idt, concepts, gwidmap, isomap)| <= |files|
    ensures x in Datapoints(files, idt, concepts, gwidmap, isomap) <==>
            exists j :: 0 <= j < |files| && Process(files[j], idt, concepts, gwidmap, isomap) == Some(x)
  {
    SomesIn(Decisions(files, idt, concepts, gwidmap, isomap), x);
  }

  /** A file yields a frame exactly when its name contains `.json`, its key
      names an indicator whose name is some concept's full name, and it has a
      `geo` column. The frame is keyed by that concept id; its `geo` cells are
      the translated codes and the value column is renamed to the id. */
  lemma ProcessSpec(f: DataFile, idt: seq<(string, string)>, concepts: seq<Concepts.CleanConcept>,
                    gwidmap: map<string, string>, isomap: map<string, string>)
    ensures Process(f, idt, concepts, gwidmap, isomap).Some? <==>
      && Contains(f.name, ".json")
      && (exists i, c :: FirstFile(idt, FileKey(f.name), i)
                         && 0 <= c < |concepts| && concepts[c].record.fullName == idt[i].1)
      && "geo" in f.columns
    ensures Process(f, idt, concepts, gwidmap, isomap).Some? ==>
      var (cid, d) := Process(f, idt, concepts, gwidmap, isomap).value;
      && RenameCol(FileKey(f.name), idt, concepts) == Success(cid)
      && |d.columns| == |f.columns|
      && (forall j :: 0 <= j < |f.columns| && f.columns[j] == FileKey(f.name) ==> d.columns[j] == cid)
      && (forall j :: 0 <= j < |f.columns| && f.columns[j] != FileKey(f.name) ==> d.columns[j] == f.columns[j])
      && d.geo == RenameGeo(f.geo, gwidmap, isomap)
  {
    RenameColFails(FileKey(f.name), idt, concepts);
  }

  /** Nothing keeps two yielded frames from sharing an id: two listed files
      whose keys name the same indicator, whose name is a concept's full
      name, both yield, one after the other, under the same id. */
  lemma SameIdTwice(f1: DataFile, f2: DataFile, idt: seq<(string, string)>, concepts: seq<Concepts.CleanConcept>,
                    gwidmap: map<string, string>, isomap: map<string, string>, nm: string)
    requires Contains(f1.name, ".json") && Contains(f2.name, ".json")
    requires "geo" in f1.columns && "geo" in f2.columns
    requires FirstMatch(idt, FileKey(f1.name)) == Some(nm) && FirstMatch(idt, FileKey(f2.name)) == Some(nm)
    requires FirstMatch(ConceptNames(concepts), nm).Some?
    ensures
      var out := Datapoints([f1, f2], idt, concepts, gwidmap, isomap);
      && |out| == 2 && out[0].0 == out[1].0 == FirstMatch(ConceptNames(concepts), nm).value
  {
    DatapointsAppend([f1], [f2], idt, concepts, gwidmap, isomap);
    assert [f1] + [f2] == [f1, f2];
    assert Decisions([f1], idt, concepts, gwidmap, isomap) == [Process(f1, idt, concepts, gwidmap, isomap)];
    assert Decisions([f2], idt, concepts, gwidmap, isomap) == [Process(f2, idt, concepts, gwidmap, isomap)];
    assert Somes(Decisions([f1], idt, concepts, gwidmap, isomap))
           == [Process(f1, idt, concepts, gwidmap, isomap).value];
    assert Somes(Decisions([f2], idt, concepts, gwidmap, isomap))
           == [Process(f2, idt, concepts, gwidmap, isomap).value];
  }
}
