/**
 * The plain JavaScript values a configuration is built from and exported
 * to. Numbers are opaque tokens; functions, dates and class instances are
 * not part of the value universe.
 */
module Values {
  import opened Props

  datatype Value =
    | Undefined
    | Null
    | Bool(b: bool)
    | Num(n: int)
    | Str(s: string)
    | Arr(items: seq<Value>)
    | Obj(props: seq<(string, Value)>)

  /** `v instanceof Object`: arrays and plain objects, not primitives or null. */
  predicate ObjectLike(v: Value)
  {
    v.Arr? || v.Obj?
  }

  /** The number of own enumerable properties of an object-like value. */
  function Count(v: Value): nat
    requires ObjectLike(v)
  {
    if v.Obj? then |v.props| else |v.items|
  }

  /** The decimal digit for `d`. */
  function Digit(d: nat): char
    requires d < 10
  {
    ('0' as int + d) as char
  }

  /** The property name under which an array stores its element at index `n`. */
  function IndexKey(n: nat): (s: string)
    ensures 1 <= |s|
    ensures 10 <= n ==> 2 <= |s|
    decreases n
  {
    if n < 10 then [Digit(n)] else IndexKey(n / 10) + [Digit(n % 10)]
  }

  /** The name of the `j`-th own property (`for ... in` order). */
  function KeyAt(v: Value, j: nat): string
    requires ObjectLike(v) && j < Count(v)
  {
    if v.Obj? then v.props[j].0 else IndexKey(j)
  }

  /** The value of the `j`-th own property. */
  function ValAt(v: Value, j: nat): Value
    requires ObjectLike(v) && j < Count(v)
  {
    if v.Obj? then v.props[j].1 else v.items[j]
  }

  /** The own properties in enumeration order, as a property list. */
  function OwnProps(v: Value): (ps: seq<(string, Value)>)
    requires ObjectLike(v)
    ensures |ps| == Count(v)
    ensures forall j :: 0 <= j < Count(v) ==> ps[j] == (KeyAt(v, j), ValAt(v, j))
    ensures v.Obj? ==> ps == v.props
  {
    if v.Obj? then v.props else seq(|v.items|, j requires 0 <= j < |v.items| => (IndexKey(j), v.items[j]))
  }

  /** The names of all own properties. */
  function OwnKeys(v: Value): set<string>
    requires ObjectLike(v)
  {
    set j | 0 <= j < Count(v) :: KeyAt(v, j)
  }

  /** Every object reachable through objects and arrays has distinct keys. */
  ghost predicate WellKeyed(v: Value)
    decreases v
  {
    match v
    case Obj(ps) => DistinctKeys(ps) && forall i | 0 <= i < |ps| :: WellKeyed(ps[i].1)
    case Arr(xs) => forall i | 0 <= i < |xs| :: WellKeyed(xs[i])
    case _ => true
  }

  /** Distinct numbers name distinct array slots. */
  lemma {:induction false} IndexKeyInjective(m: nat, n: nat)
    ensures IndexKey(m) == IndexKey(n) ==> m == n
    decreases m
  {
    if IndexKey(m) == IndexKey(n) {
      if m < 10 && n < 10 {
        assert IndexKey(m)[0] == IndexKey(n)[0];
      } else if 10 <= m && 10 <= n {
        var a, b := IndexKey(m), IndexKey(n);
        assert a[|a| - 1] == b[|b| - 1];
        assert a[..|a| - 1] == IndexKey(m / 10);
        assert b[..|b| - 1] == IndexKey(n / 10);
        IndexKeyInjective(m / 10, n / 10);
      }
    }
  }

  /** Own property names of a well-keyed object-like value are pairwise distinct. */
  lemma OwnKeysDistinct(v: Value)
    requires ObjectLike(v) && WellKeyed(v)
    ensures forall i, j :: 0 <= i < j < Count(v) ==> KeyAt(v, i) != KeyAt(v, j)
  {
    if v.Arr? {
      forall i, j | 0 <= i < j < Count(v) ensures KeyAt(v, i) != KeyAt(v, j) {
        IndexKeyInjective(i, j);
      }
    }
  }
}
