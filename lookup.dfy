/** The two lookup rules the script relies on: a dictionary filled by
    assignments in order (later keys overwrite earlier ones), and pandas'
    `frame[frame[col] == k][other].iloc[0]`, the first row that matches. */
module Lookup {
  import opened Common

  /** The dictionary left by `d[k] = v` for each pair in order, starting empty. */
  function Assign<K, V>(ps: seq<(K, V)>): map<K, V>
  {
    if |ps| == 0 then map[] else Assign(ps[..|ps| - 1])[ps[|ps| - 1].0 := ps[|ps| - 1].1]
  }

  /** A key is in the dictionary exactly when some pair assigned it. */
  lemma {:induction false} AssignKeys<K, V>(ps: seq<(K, V)>, k: K)
    ensures k in Assign(ps) <==> exists i :: 0 <= i < |ps| && ps[i].0 == k
  {
    if |ps| > 0 {
      var n := |ps| - 1;
      AssignKeys(ps[..n], k);
      if k in Assign(ps[..n]) {
        var i :| 0 <= i < n && ps[..n][i].0 == k;
        assert ps[i].0 == k;
      }
      if exists i :: 0 <= i < |ps| && ps[i].0 == k {
        var i :| 0 <= i < |ps| && ps[i].0 == k;
        if i < n {
          assert ps[..n][i].0 == k;
        }
      }
    }
  }

  /** The pair that assigned a key last decides its value. */
  lemma {:induction false} AssignLastWins<K, V>(ps: seq<(K, V)>, i: nat)
    requires i < |ps|
    requires forall j :: i < j < |ps| ==> ps[j].0 != ps[i].0
    ensures ps[i].0 in Assign(ps) && Assign(ps)[ps[i].0] == ps[i].1
  {
    var n := |ps| - 1;
    if i < n {
      forall j | i < j < n ensures ps[..n][j].0 != ps[..n][i].0 {
        assert ps[..n][j] == ps[j];
      }
      AssignLastWins(ps[..n], i);
    }
  }

  /** Every value in the dictionary was assigned by a pair that no later pair overrode. */
  lemma {:induction false} AssignValue<K, V>(ps: seq<(K, V)>, k: K)
    requires k in Assign(ps)
    ensures exists i :: 0 <= i < |ps| && ps[i] == (k, Assign(ps)[k])
                        && forall j :: i < j < |ps| ==> ps[j].0 != k
  {
    var n := |ps| - 1;
    if ps[n].0 == k {
      assert ps[n] == (k, Assign(ps)[k]);
    } else {
      AssignValue(ps[..n], k);
      var i :| 0 <= i < n && ps[..n][i] == (k, Assign(ps[..n])[k])
               && forall j :: i < j < n ==> ps[..n][j].0 != k;
      assert ps[i] == (k, Assign(ps)[k]);
      forall j | i < j < |ps| ensures ps[j].0 != k {
        if j < n { assert ps[..n][j] == ps[j]; }
      }
    }
  }

  /** The value of the first pair whose key is `k`, if any. */
  function FirstMatch<K(==), V>(ps: seq<(K, V)>, k: K): (r: Option<V>)
    ensures r.None? <==> forall i :: 0 <= i < |ps| ==> ps[i].0 != k
    ensures r.Some? ==> exists i :: 0 <= i < |ps| && ps[i] == (k, r.value)
                                    && forall j :: 0 <= j < i ==> ps[j].0 != k
  {
    if |ps| == 0 then None
    else if ps[0].0 == k then Some(ps[0].1)
    else
      var r := FirstMatch(ps[1..], k);
      assert forall i :: 1 <= i < |ps| ==> ps[i] == ps[1..][i - 1];
      r
  }

  /** The first match is determined: any pair with key `k` preceded by no other
      pair with that key gives the value found. */
  lemma {:induction false} FirstMatchAt<K, V>(ps: seq<(K, V)>, i: nat)
    requires i < |ps|
    requires forall j :: 0 <= j < i ==> ps[j].0 != ps[i].0
    ensures FirstMatch(ps, ps[i].0) == Some(ps[i].1)
  {
    if i > 0 {
      forall j | 0 <= j < i - 1 ensures ps[1..][j].0 != ps[1..][i - 1].0 {
        assert ps[1..][j] == ps[j + 1];
      }
      FirstMatchAt(ps[1..], i - 1);
    }
  }
}
