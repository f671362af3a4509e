/**
 * Ordered property lists: the own string-keyed properties of a JavaScript
 * object, in insertion order. Both plain input objects and configuration
 * stores are such lists.
 */
module Props {
  import opened Wrappers

  /** No key occurs twice (true of every real JavaScript object). */
  ghost predicate DistinctKeys<T>(ps: seq<(string, T)>)
  {
    forall i, j :: 0 <= i < j < |ps| ==> ps[i].0 != ps[j].0
  }

  /** The set of keys present in the list. */
  function KeySet<T>(ps: seq<(string, T)>): set<string>
  {
    set i | 0 <= i < |ps| :: ps[i].0
  }

  /** The index of the first property named `k`, if any. */
  function Position<T>(ps: seq<(string, T)>, k: string): (r: Option<nat>)
    ensures r.Some? ==> r.value < |ps| && ps[r.value].0 == k
    ensures r.Some? ==> forall j :: 0 <= j < r.value ==> ps[j].0 != k
    ensures r.None? <==> k !in KeySet(ps)
  {
    if |ps| == 0 then None
    else if ps[0].0 == k then Some(0)
    else
      match Position(ps[1..], k)
      case None =>
        assert KeySet(ps) == KeySet(ps[1..]) + {ps[0].0};
        None
      case Some(i) => Some(i + 1)
  }

  /** Replaces the value at index `i`, keeping its key. */
  function ReplaceValue<T>(ps: seq<(string, T)>, i: nat, x: T): (r: seq<(string, T)>)
    requires i < |ps|
    ensures |r| == |ps| && r[i] == (ps[i].0, x)
    ensures forall j :: 0 <= j < |ps| && j != i ==> r[j] == ps[j]
  {
    ps[i := (ps[i].0, x)]
  }

  /** Two lists with the same keys at the same places find every key at the same place. */
  lemma {:induction false} SameKeysSamePosition<T>(ps: seq<(string, T)>, qs: seq<(string, T)>, k: string)
    requires |ps| == |qs| && forall j :: 0 <= j < |ps| ==> ps[j].0 == qs[j].0
    ensures Position(ps, k) == Position(qs, k)
  {
    if |ps| > 0 && ps[0].0 != k {
      SameKeysSamePosition(ps[1..], qs[1..], k);
    }
  }

  /** Replacing a value moves no key, so every key is found where it was. */
  lemma ReplaceKeepsPosition<T>(ps: seq<(string, T)>, i: nat, x: T, k: string)
    requires i < |ps|
    ensures Position(ReplaceValue(ps, i, x), k) == Position(ps, k)
    ensures ps[i].0 != k && Position(ps, k).Some? ==> ReplaceValue(ps, i, x)[Position(ps, k).value] == ps[Position(ps, k).value]
  {
    SameKeysSamePosition(ReplaceValue(ps, i, x), ps, k);
  }

  /**
   * JavaScript property assignment `o[k] = x`: an existing property keeps
   * its place and takes the new value, a new one is appended at the end.
   */
  function Assign<T>(ps: seq<(string, T)>, k: string, x: T): (r: seq<(string, T)>)
    ensures KeySet(r) == KeySet(ps) + {k}
    ensures DistinctKeys(ps) ==> DistinctKeys(r)
    ensures k !in KeySet(ps) ==> r == ps + [(k, x)]
    ensures Position(r, k).Some? && r[Position(r, k).value].1 == x
    ensures |ps| <= |r|
    ensures forall j :: 0 <= j < |r| ==> r[j] == (k, x) || (j < |ps| && r[j] == ps[j])
  {
    match Position(ps, k)
    case None =>
      var r := ps + [(k, x)];
      assert KeySet(r) == KeySet(ps) + {k} by {
        forall key | key in KeySet(r) ensures key in KeySet(ps) + {k} {
          var i :| 0 <= i < |r| && r[i].0 == key;
          if i < |ps| { assert ps[i].0 == key; }
        }
        forall key | key in KeySet(ps) + {k} ensures key in KeySet(r) {
          if key == k {
            assert r[|ps|].0 == key;
          } else {
            var i :| 0 <= i < |ps| && ps[i].0 == key;
            assert r[i].0 == key;
          }
        }
      }
      assert Position(r, k) == Some(|ps|);
      r
    case Some(i) =>
      var r := ps[i := (k, x)];
      assert KeySet(r) == KeySet(ps) by {
        forall key | key in KeySet(ps) ensures key in KeySet(r) {
          var j :| 0 <= j < |ps| && ps[j].0 == key;
          assert r[j].0 == key;
        }
      }
      assert r[i].0 == k;
      assert k in KeySet(r);
      r
  }
}
