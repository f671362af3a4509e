/**
 * The constructor of `Config` (lib/Utils/Config.ts:70-92) and the
 * round trips between construction and export.
 */
module Construct {
  import opened Wrappers
  import opened Props
  import opened Values
  import opened Store

  /** What the constructor is given: a value, or an existing store (which it copies through its export). */
  datatype Input = Data(value: Value) | Copy(source: Config)

  /** How the constructor stores one property: plain non-array objects become nested stores. */
  function Wrap(v: Value): (e: Entry)
    ensures CanonicalEntry(e)
    ensures e.Nested? <==> v.Obj?
    decreases v, 1
  {
    if v.Obj? then Nested(Config(BuildFrom(v, 0, []))) else Scalar(v)
  }

  /** The `for ... in` loop of the constructor, from the `i`-th own property on, assigning into `acc`. */
  function BuildFrom(v: Value, i: nat, acc: seq<(string, Entry)>): (r: seq<(string, Entry)>)
    requires ObjectLike(v) && i <= Count(v)
    ensures DistinctKeys(acc) && (forall j | 0 <= j < |acc| :: CanonicalEntry(acc[j].1)) ==> Canonical(Config(r))
    ensures KeySet(r) == KeySet(acc) + set j | i <= j < Count(v) :: KeyAt(v, j)
    decreases v, 0, Count(v) - i
  {
    if i == Count(v) then acc
    else
      var x := if v.Obj? then v.props[i].1 else v.items[i];
      var acc' := Assign(acc, KeyAt(v, i), Wrap(x));
      LaterKeys(v, i);
      CanonicalAssign(acc, KeyAt(v, i), Wrap(x));
      BuildFrom(v, i + 1, acc')
  }

  /** The keys from the `i`-th property on are the `i`-th key plus those after it. */
  lemma LaterKeys(v: Value, i: nat)
    requires ObjectLike(v) && i < Count(v)
    ensures (set j | i <= j < Count(v) :: KeyAt(v, j)) == {KeyAt(v, i)} + set j | i + 1 <= j < Count(v) :: KeyAt(v, j)
  {
  }

  /** Assigning a canonical entry into a canonical entry list keeps it canonical. */
  lemma CanonicalAssign(acc: seq<(string, Entry)>, k: string, e: Entry)
    requires CanonicalEntry(e)
    ensures (forall j | 0 <= j < |acc| :: CanonicalEntry(acc[j].1)) ==>
      forall j | 0 <= j < |Assign(acc, k, e)| :: CanonicalEntry(Assign(acc, k, e)[j].1)
  {
    var r := Assign(acc, k, e);
    if forall j | 0 <= j < |acc| :: CanonicalEntry(acc[j].1) {
      forall j | 0 <= j < |r| ensures CanonicalEntry(r[j].1) {
        if r[j] != (k, e) {
          assert r[j] == acc[j];
        }
      }
    }
  }

  /** `new Config(input)`: fails on anything that is not object-like. */
  function New(input: Input): (r: Result<Config, Error>)
    ensures r.Failure? <==> input.Data? && !ObjectLike(input.value)
    ensures r.Failure? ==> r.error == InvalidData
    ensures r.Success? ==> Canonical(r.value)
    ensures r.Success? && input.Data? ==> Keys(r.value) == OwnKeys(input.value)
    ensures r.Success? && input.Copy? ==> Keys(r.value) == Keys(input.source)
    ensures r.Success? && input.Data? && WellKeyed(input.value) ==> Export(r.value) == Obj(OwnProps(input.value))
  {
    var v := if input.Copy? then Export(input.source) else input.value;
    if !ObjectLike(v) then Failure(InvalidData)
    else
      var c := Config(BuildFrom(v, 0, []));
      assert input.Copy? ==> OwnKeys(v) == Keys(input.source) by {
        if input.Copy? {
          var s := input.source;
          forall k | k in Keys(s) ensures k in OwnKeys(v) {
            var j :| 0 <= j < |s.entries| && s.entries[j].0 == k;
            assert KeyAt(v, j) == k;
          }
        }
      }
      assert input.Data? && WellKeyed(v) ==> Export(c) == Obj(OwnProps(v)) by {
        if input.Data? && WellKeyed(v) {
          BuildExport(v);
        }
      }
      Success(c)
  }

  /** Every own property of `v`, wrapped as the constructor wraps it. */
  function WrapAll(v: Value): (r: seq<(string, Entry)>)
    requires ObjectLike(v)
    ensures |r| == Count(v)
    ensures forall j :: 0 <= j < Count(v) ==> r[j] == (KeyAt(v, j), Wrap(ValAt(v, j)))
  {
    seq(Count(v), j requires 0 <= j < Count(v) => (KeyAt(v, j), Wrap(ValAt(v, j))))
  }

  /** Without duplicate keys, the constructor's loop wraps each property in place, in order. */
  lemma {:induction false} BuildFromDistinct(v: Value, i: nat)
    requires ObjectLike(v) && i <= Count(v)
    requires forall a, b :: 0 <= a < b < Count(v) ==> KeyAt(v, a) != KeyAt(v, b)
    ensures BuildFrom(v, i, WrapAll(v)[..i]) == WrapAll(v)
    decreases Count(v) - i
  {
    var all := WrapAll(v);
    if i < Count(v) {
      var k := KeyAt(v, i);
      assert k !in KeySet(all[..i]);
      assert Assign(all[..i], k, Wrap(ValAt(v, i))) == all[..i + 1];
      BuildFromDistinct(v, i + 1);
    } else {
      assert all[..i] == all;
    }
  }

  /** Constructing from a well-keyed object-like value and exporting gives back its own properties. */
  lemma {:induction false} BuildExport(v: Value)
    requires ObjectLike(v) && WellKeyed(v)
    ensures Export(Config(BuildFrom(v, 0, []))) == Obj(OwnProps(v))
    decreases v, 1
  {
    OwnKeysDistinct(v);
    BuildFromDistinct(v, 0);
    assert WrapAll(v)[..0] == [];
    var c := Config(WrapAll(v));
    forall j | 0 <= j < Count(v) ensures Flatten(Wrap(ValAt(v, j))) == ValAt(v, j) {
      var x := if v.Obj? then v.props[j].1 else v.items[j];
      WrapFlatten(x);
    }
    assert Export(c).props == OwnProps(v);
  }

  /** Wrapping a well-keyed value and reading it back gives the same value. */
  lemma {:induction false} WrapFlatten(v: Value)
    requires WellKeyed(v)
    ensures Flatten(Wrap(v)) == v
    decreases v, 2
  {
    if v.Obj? {
      BuildExport(v);
    }
  }

  /** Export round trip: `getData(new Config(O))` is structurally equal to the plain object `O`. */
  lemma ExportRoundTrip(o: Value)
    requires o.Obj? && WellKeyed(o)
    ensures New(Data(o)).Success?
    ensures Export(New(Data(o)).value) == o
  {
    BuildExport(o);
  }

  /** An array given to the constructor is read as an object keyed by its indices. */
  lemma ArrayInput(xs: seq<Value>)
    requires WellKeyed(Arr(xs))
    ensures New(Data(Arr(xs))).Success?
    ensures Export(New(Data(Arr(xs))).value) == Obj(seq(|xs|, j requires 0 <= j < |xs| => (IndexKey(j), xs[j])))
  {
    BuildExport(Arr(xs));
  }

  /** Re-wrapping the export of a canonical entry rebuilds the same entry. */
  lemma {:induction false} FlattenWrap(e: Entry)
    requires CanonicalEntry(e)
    ensures Wrap(Flatten(e)) == e
    decreases e
  {
    match e
    case Scalar(v) =>
    case Nested(s) =>
      var v := Export(s);
      assert forall a, b :: 0 <= a < b < Count(v) ==> KeyAt(v, a) != KeyAt(v, b);
      BuildFromDistinct(v, 0);
      assert WrapAll(v)[..0] == [];
      forall j | 0 <= j < |s.entries| ensures Wrap(ValAt(v, j)) == s.entries[j].1 {
        FlattenWrap(s.entries[j].1);
      }
      assert WrapAll(v) == s.entries;
  }

  /** `new Config(c)` rebuilds exactly `c` if and only if `c` is a store construction could have produced. */
  lemma CopyRoundTrip(c: Config)
    ensures New(Copy(c)) == Success(c) <==> Canonical(c)
  {
    if Canonical(c) {
      FlattenWrap(Nested(c));
    }
  }
}
