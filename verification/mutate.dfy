/**
 * The write side of `Config`: `set` and `setData`
 * (lib/Utils/Config.ts:175-203, 229-249), the schema lock they keep, and
 * how their effects show through `get`.
 */
module Mutate {
  import opened Wrappers
  import opened Props
  import opened Values
  import opened Paths
  import opened Store
  import opened Access

  /**
   * `setData(inputDatas)`: every own property of the input must name a
   * defined key; scalars are overwritten, nested stores receive the
   * property's value through their own `setData`. Writes made before an
   * error stay made.
   */
  function SetData(c: Config, input: Value): (u: Update)
    ensures !ObjectLike(input) ==> u == Update(c, Some(InvalidData))
    ensures u.error.None? || u.error == Some(InvalidData) || u.error == Some(OverrideNotAllowed)
    decreases input, 1
  {
    if !ObjectLike(input) then Update(c, Some(InvalidData))
    else SetDataFrom(c, input, 0)
  }

  /** The loop of `setData` from the `i`-th own property of `input` on. */
  function SetDataFrom(c: Config, input: Value, i: nat): (u: Update)
    requires ObjectLike(input) && i <= Count(input)
    ensures u.error.None? || u.error == Some(InvalidData) || u.error == Some(OverrideNotAllowed)
    decreases input, 0, Count(input) - i
  {
    if i == Count(input) then Update(c, None)
    else
      var x := if input.Obj? then input.props[i].1 else input.items[i];
      match Slot(c, KeyAt(input, i))
      case None => Update(c, Some(OverrideNotAllowed))
      case Some(j) =>
        var e := c.entries[j].1;
        if e.Nested? then
          var inner := SetData(e.store, x);
          var c' := ReplaceAt(c, j, Nested(inner.after));
          if inner.error.Some? then Update(c', inner.error) else SetDataFrom(c', input, i + 1)
        else
          SetDataFrom(ReplaceAt(c, j, Scalar(x)), input, i + 1)
  }

  /**
   * `set(path, value, initialPath)`: resolves the path as `get` does; at the
   * last key a scalar is overwritten and a nested store receives `value`
   * through `setData`.
   */
  function SetFrom(c: Config, path: string, value: Value, initial: string): (u: Update)
    ensures u.error.Some? && (u.error.value.UndefinedPath? || u.error.value.NotAStore?) ==> u.after == c
    ensures u.error.Some? && u.error.value.UndefinedPath? ==> u.error.value.initial == InitialPath(path, initial)
    decreases c
  {
    var initial := InitialPath(path, initial);
    var step := ParseStep(path);
    match Slot(c, step.key)
    case None => Update(c, Some(UndefinedPath(step.Remainder(), initial)))
    case Some(i) =>
      var e := c.entries[i].1;
      if e.Nested? then
        var inner := if step.Terminal? then SetData(e.store, value) else SetFrom(e.store, step.rest, value, initial);
        assert inner.after == e.store ==> ReplaceAt(c, i, Nested(inner.after)) == c by {
          if inner.after == e.store {
            assert ReplaceAt(c, i, Nested(inner.after)).entries == c.entries;
          }
        }
        Update(ReplaceAt(c, i, Nested(inner.after)), inner.error)
      else if step.Terminal? then
        Update(ReplaceAt(c, i, Scalar(value)), None)
      else Update(c, Some(NotAStore))
  }

  /**
   * `set(path, value)` called from outside, with no initial path: the
   * schema is kept, and a path that does not resolve raises `get`'s error
   * and writes nothing.
   */
  function Set(c: Config, path: string, value: Value): (u: Update)
    ensures ShapeOf(u.after) == ShapeOf(c)
    ensures !Lookup(c, Steps(path)).Hit? ==> u == Update(c, Some(Located(Lookup(c, Steps(path)), path).error))
  {
    SetKeepsShape(c, path, value, "");
    var u := SetFrom(c, path, value, "");
    if Lookup(c, Steps(path)).Hit? then u
    else
      SetPathError(c, path, value, "");
      u
  }

  /**
   * Schema lock: whether it succeeds or fails part-way, `setData` leaves
   * the keys of every level in place, nested stores nested and scalars
   * scalar.
   */
  lemma {:induction false} SetDataKeepsShape(c: Config, input: Value)
    ensures ShapeOf(SetData(c, input).after) == ShapeOf(c)
    decreases input, 1
  {
    if ObjectLike(input) {
      SetDataFromKeepsShape(c, input, 0);
    }
  }

  lemma {:induction false} SetDataFromKeepsShape(c: Config, input: Value, i: nat)
    requires ObjectLike(input) && i <= Count(input)
    ensures ShapeOf(SetDataFrom(c, input, i).after) == ShapeOf(c)
    decreases input, 0, Count(input) - i
  {
    if i < Count(input) {
      var x := if input.Obj? then input.props[i].1 else input.items[i];
      match Slot(c, KeyAt(input, i))
      case None =>
      case Some(j) =>
        var e := c.entries[j].1;
        if e.Nested? {
          var inner := SetData(e.store, x);
          SetDataKeepsShape(e.store, x);
          ReplaceKeepsShape(c, j, Nested(inner.after));
          if inner.error.None? {
            SetDataFromKeepsShape(ReplaceAt(c, j, Nested(inner.after)), input, i + 1);
          }
        } else {
          ReplaceKeepsShape(c, j, Scalar(x));
          SetDataFromKeepsShape(ReplaceAt(c, j, Scalar(x)), input, i + 1);
        }
    }
  }

  /** Schema lock for `set`: the shape of the store is the same before and after, whatever the outcome. */
  lemma {:induction false} SetKeepsShape(c: Config, path: string, value: Value, initial: string)
    ensures ShapeOf(SetFrom(c, path, value, initial).after) == ShapeOf(c)
    decreases c
  {
    var initial := InitialPath(path, initial);
    var step := ParseStep(path);
    match Slot(c, step.key)
    case None =>
    case Some(i) =>
      var e := c.entries[i].1;
      if e.Nested? {
        var inner := if step.Terminal? then SetData(e.store, value) else SetFrom(e.store, step.rest, value, initial);
        if step.Terminal? {
          SetDataKeepsShape(e.store, value);
        } else {
          SetKeepsShape(e.store, step.rest, value, initial);
        }
        ReplaceKeepsShape(c, i, Nested(inner.after));
      } else if step.Terminal? {
        ReplaceKeepsShape(c, i, Scalar(value));
      }
  }

  /**
   * Independent statement of when `setData` accepts an input: it is
   * object-like, and each of its own properties names a defined key whose
   * nested store (if any) accepts the property's value in turn.
   */
  ghost predicate Fits(c: Config, x: Value)
    decreases x, 1
  {
    && ObjectLike(x)
    && forall j | 0 <= j < Count(x) :: FitsProp(c, KeyAt(x, j), if x.Obj? then x.props[j].1 else x.items[j])
  }

  ghost predicate FitsProp(c: Config, k: string, y: Value)
    decreases y, 2
  {
    match Slot(c, k)
    case None => false
    case Some(i) => c.entries[i].1.Nested? ==> Fits(c.entries[i].1.store, y)
  }

  /**
   * Schema lock: for an input without duplicate keys, `setData` succeeds
   * exactly when the input fits the store; it raises OverrideNotAllowed on
   * an undefined key and InvalidData on a non-object.
   */
  lemma {:induction false} SetDataFits(c: Config, x: Value)
    requires WellKeyed(x)
    ensures SetData(c, x).error.None? <==> Fits(c, x)
    decreases x, 1
  {
    if ObjectLike(x) {
      SetDataFromFits(c, x, 0);
    }
  }

  /** Every own property of `x` from the `i`-th on fits the store. */
  ghost predicate FitsFrom(c: Config, x: Value, i: nat)
    requires ObjectLike(x)
  {
    forall j | i <= j < Count(x) :: FitsProp(c, KeyAt(x, j), ValAt(x, j))
  }

  lemma FitsFromStep(c: Config, x: Value, i: nat)
    requires ObjectLike(x) && i < Count(x)
    ensures FitsFrom(c, x, i) <==> FitsProp(c, KeyAt(x, i), ValAt(x, i)) && FitsFrom(c, x, i + 1)
  {
  }

  /** Overwriting the entry of a key that no later property names does not change whether they fit. */
  lemma FitsFromElsewhere(c: Config, x: Value, i: nat, j0: nat, e: Entry)
    requires ObjectLike(x) && i <= Count(x) && j0 < |c.entries|
    requires forall j | i <= j < Count(x) :: KeyAt(x, j) != c.entries[j0].0
    ensures FitsFrom(ReplaceAt(c, j0, e), x, i) <==> FitsFrom(c, x, i)
  {
    forall j | i <= j < Count(x)
      ensures FitsProp(ReplaceAt(c, j0, e), KeyAt(x, j), ValAt(x, j)) == FitsProp(c, KeyAt(x, j), ValAt(x, j))
    {
      ReplaceElsewhere(c, j0, e, KeyAt(x, j));
    }
  }

  lemma {:induction false} SetDataFromFits(c: Config, x: Value, i: nat)
    requires ObjectLike(x) && WellKeyed(x) && i <= Count(x)
    ensures SetDataFrom(c, x, i).error.None? <==> FitsFrom(c, x, i)
    decreases x, 0, Count(x) - i
  {
    if i < Count(x) {
      var k := KeyAt(x, i);
      var y := if x.Obj? then x.props[i].1 else x.items[i];
      assert y == ValAt(x, i);
      assert WellKeyed(y);
      FitsFromStep(c, x, i);
      match Slot(c, k)
      case None =>
        assert !FitsProp(c, k, y);
      case Some(j0) =>
        var e := c.entries[j0].1;
        if e.Nested? {
          SetDataFits(e.store, y);
        }
        if e.Nested? && SetData(e.store, y).error.Some? {
          assert !FitsProp(c, k, y);
          assert SetDataFrom(c, x, i).error.Some?;
        } else {
          var e' := if e.Nested? then Nested(SetData(e.store, y).after) else Scalar(y);
          var c' := ReplaceAt(c, j0, e');
          assert FitsFrom(c, x, i) <==> FitsFrom(c', x, i + 1) by {
            assert FitsProp(c, k, y);
            assert forall j | i + 1 <= j < Count(x) :: KeyAt(x, j) != c.entries[j0].0 by {
              OwnKeysDistinct(x);
            }
            FitsFromElsewhere(c, x, i + 1, j0, e');
          }
          assert SetDataFrom(c, x, i) == SetDataFrom(c', x, i + 1) by {
            SetDataFromNext(c, x, i, j0);
          }
          SetDataFromFits(c', x, i + 1);
        }
    }
  }

  /** When the `i`-th property is accepted, `setData` continues with the next one on the updated store. */
  lemma SetDataFromNext(c: Config, x: Value, i: nat, j0: nat)
    requires ObjectLike(x) && i < Count(x)
    requires Slot(c, KeyAt(x, i)) == Some(j0)
    requires c.entries[j0].1.Nested? ==> SetData(c.entries[j0].1.store, ValAt(x, i)).error.None?
    ensures var e := c.entries[j0].1;
      var e' := if e.Nested? then Nested(SetData(e.store, ValAt(x, i)).after) else Scalar(ValAt(x, i));
      SetDataFrom(c, x, i) == SetDataFrom(ReplaceAt(c, j0, e'), x, i + 1)
  {
  }

  /** The entry a property leaves under its key: its value as a scalar, or the nested store after its own `setData`. */
  function Written(e: Entry, y: Value): Entry
  {
    if e.Nested? then Nested(SetData(e.store, y).after) else Scalar(y)
  }

  /**
   * Frame of `setData`: a key that no property of the input names keeps
   * its place and its entry, whether the call succeeds or stops at an
   * error part-way.
   */
  lemma SetDataFrame(c: Config, x: Value, k: string)
    requires ObjectLike(x) ==> k !in OwnKeys(x)
    ensures Position(SetData(c, x).after.entries, k) == Position(c.entries, k)
    ensures Position(c.entries, k).Some? ==>
      SetData(c, x).after.entries[Position(c.entries, k).value] == c.entries[Position(c.entries, k).value]
  {
    if ObjectLike(x) {
      forall j | 0 <= j < Count(x) ensures KeyAt(x, j) != k {
        assert KeyAt(x, j) in OwnKeys(x);
      }
      SetDataFromFrame(c, x, 0, k);
    }
  }

  lemma {:induction false} SetDataFromFrame(c: Config, x: Value, i: nat, k: string)
    requires ObjectLike(x) && i <= Count(x)
    requires forall j | i <= j < Count(x) :: KeyAt(x, j) != k
    ensures Position(SetDataFrom(c, x, i).after.entries, k) == Position(c.entries, k)
    ensures Position(c.entries, k).Some? ==>
      SetDataFrom(c, x, i).after.entries[Position(c.entries, k).value] == c.entries[Position(c.entries, k).value]
    decreases Count(x) - i
  {
    if i < Count(x) {
      var y := ValAt(x, i);
      assert KeyAt(x, i) != k;
      SetDataFromStep(c, x, i);
      var s := Slot(c, KeyAt(x, i));
      if s.Some? {
        var e := c.entries[s.value].1;
        var w := Written(e, y);
        var c' := ReplaceAt(c, s.value, w);
        ReplaceKeepsPosition(c.entries, s.value, w, k);
        if e.Nested? && SetData(e.store, y).error.Some? {
          assert SetDataFrom(c, x, i).after == c';
        } else {
          assert SetDataFrom(c, x, i) == SetDataFrom(c', x, i + 1);
          SetDataFromFrame(c', x, i + 1, k);
        }
      } else {
        assert SetDataFrom(c, x, i).after == c;
      }
    }
  }

  /** One step of the loop of `setData`: the `i`-th property is rejected, stops the loop, or is written and the loop goes on. */
  lemma SetDataFromStep(c: Config, x: Value, i: nat)
    requires ObjectLike(x) && i < Count(x)
    ensures SetDataFrom(c, x, i) ==
      match Slot(c, KeyAt(x, i))
      case None => Update(c, Some(OverrideNotAllowed))
      case Some(j) =>
        var e := c.entries[j].1;
        var c' := ReplaceAt(c, j, Written(e, ValAt(x, i)));
        if e.Nested? && SetData(e.store, ValAt(x, i)).error.Some? then Update(c', SetData(e.store, ValAt(x, i)).error)
        else SetDataFrom(c', x, i + 1)
  {
    assert ValAt(x, i) == if x.Obj? then x.props[i].1 else x.items[i];
  }

  /**
   * What `setData` writes: when every property before the `j0`-th is
   * accepted and the `j0`-th names a set key, that key ends up holding the
   * property's value — a scalar overwritten, a nested store after its own
   * `setData` — whatever the later properties do, an error included.
   */
  lemma SetDataWrites(c: Config, x: Value, j0: nat)
    requires ObjectLike(x) && WellKeyed(x) && j0 < Count(x)
    requires forall j | 0 <= j < j0 :: FitsProp(c, KeyAt(x, j), ValAt(x, j))
    requires Slot(c, KeyAt(x, j0)).Some?
    ensures var p := Slot(c, KeyAt(x, j0)).value;
      p < |SetData(c, x).after.entries| &&
      SetData(c, x).after.entries[p] == (KeyAt(x, j0), Written(c.entries[p].1, ValAt(x, j0)))
  {
    SetDataFromWrites(c, x, 0, j0);
  }

  lemma {:induction false} SetDataFromWrites(c: Config, x: Value, i: nat, j0: nat)
    requires ObjectLike(x) && WellKeyed(x) && i <= j0 < Count(x)
    requires forall j | i <= j < j0 :: FitsProp(c, KeyAt(x, j), ValAt(x, j))
    requires Slot(c, KeyAt(x, j0)).Some?
    ensures var p := Slot(c, KeyAt(x, j0)).value;
      p < |SetDataFrom(c, x, i).after.entries| &&
      SetDataFrom(c, x, i).after.entries[p] == (KeyAt(x, j0), Written(c.entries[p].1, ValAt(x, j0)))
    decreases Count(x) - i
  {
    var k0, p := KeyAt(x, j0), Slot(c, KeyAt(x, j0)).value;
    var y := ValAt(x, i);
    assert y == if x.Obj? then x.props[i].1 else x.items[i];
    OwnKeysDistinct(x);
    if i == j0 {
      var e := c.entries[p].1;
      var c' := ReplaceAt(c, p, Written(e, y));
      if e.Nested? && SetData(e.store, y).error.Some? {
        assert SetDataFrom(c, x, i).after == c';
      } else {
        SetDataFromNext(c, x, i, p);
        ReplaceKeepsPosition(c.entries, p, Written(e, y), k0);
        SetDataFromFrame(c', x, i + 1, k0);
      }
    } else {
      assert FitsProp(c, KeyAt(x, i), y);
      var q := Slot(c, KeyAt(x, i)).value;
      var e := c.entries[q].1;
      if e.Nested? {
        assert WellKeyed(y);
        SetDataFits(e.store, y);
      }
      var c' := ReplaceAt(c, q, Written(e, y));
      SetDataFromNext(c, x, i, q);
      ReplaceElsewhere(c, q, Written(e, y), k0);
      forall j | i + 1 <= j < j0 ensures FitsProp(c', KeyAt(x, j), ValAt(x, j)) {
        assert FitsProp(c, KeyAt(x, j), ValAt(x, j));
        ReplaceElsewhere(c, q, Written(e, y), KeyAt(x, j));
      }
      SetDataFromWrites(c', x, i + 1, j0);
    }
  }

  /**
   * `setData` stops at the first property it rejects: when the `j0`-th
   * property is the first that does not fit, the call fails, and a key
   * that none of the properties up to the `j0`-th names keeps its place
   * and its entry, even if a later property names it.
   */
  lemma SetDataStops(c: Config, x: Value, j0: nat, k: string)
    requires ObjectLike(x) && WellKeyed(x) && j0 < Count(x)
    requires forall j | 0 <= j < j0 :: FitsProp(c, KeyAt(x, j), ValAt(x, j))
    requires !FitsProp(c, KeyAt(x, j0), ValAt(x, j0))
    requires forall j | 0 <= j <= j0 :: KeyAt(x, j) != k
    ensures SetData(c, x).error.Some?
    ensures Position(SetData(c, x).after.entries, k) == Position(c.entries, k)
    ensures Position(c.entries, k).Some? ==>
      SetData(c, x).after.entries[Position(c.entries, k).value] == c.entries[Position(c.entries, k).value]
  {
    SetDataFromStops(c, x, 0, j0, k);
  }

  lemma {:induction false} SetDataFromStops(c: Config, x: Value, i: nat, j0: nat, k: string)
    requires ObjectLike(x) && WellKeyed(x) && i <= j0 < Count(x)
    requires forall j | i <= j < j0 :: FitsProp(c, KeyAt(x, j), ValAt(x, j))
    requires !FitsProp(c, KeyAt(x, j0), ValAt(x, j0))
    requires forall j | i <= j <= j0 :: KeyAt(x, j) != k
    ensures SetDataFrom(c, x, i).error.Some?
    ensures Position(SetDataFrom(c, x, i).after.entries, k) == Position(c.entries, k)
    ensures Position(c.entries, k).Some? ==>
      SetDataFrom(c, x, i).after.entries[Position(c.entries, k).value] == c.entries[Position(c.entries, k).value]
    decreases Count(x) - i
  {
    if i == j0 {
      SetDataFromRejects(c, x, i, k);
    } else {
      SetDataFromAccepts(c, x, i);
      var q := Slot(c, KeyAt(x, i)).value;
      var w := Written(c.entries[q].1, ValAt(x, i));
      var c' := ReplaceAt(c, q, w);
      assert SetDataFrom(c, x, i) == SetDataFrom(c', x, i + 1);
      assert KeyAt(x, i) != k;
      ReplaceKeepsPosition(c.entries, q, w, k);
      OwnKeysDistinct(x);
      forall j | i + 1 <= j <= j0 ensures FitsProp(c', KeyAt(x, j), ValAt(x, j)) == FitsProp(c, KeyAt(x, j), ValAt(x, j)) {
        ReplaceElsewhere(c, q, w, KeyAt(x, j));
      }
      SetDataFromStops(c', x, i + 1, j0, k);
    }
  }

  /** A property that does not fit stops the loop with an error, touching no key but its own. */
  lemma SetDataFromRejects(c: Config, x: Value, i: nat, k: string)
    requires ObjectLike(x) && WellKeyed(x) && i < Count(x)
    requires !FitsProp(c, KeyAt(x, i), ValAt(x, i)) && KeyAt(x, i) != k
    ensures SetDataFrom(c, x, i).error.Some?
    ensures Position(SetDataFrom(c, x, i).after.entries, k) == Position(c.entries, k)
    ensures Position(c.entries, k).Some? ==>
      SetDataFrom(c, x, i).after.entries[Position(c.entries, k).value] == c.entries[Position(c.entries, k).value]
  {
    var y := ValAt(x, i);
    assert WellKeyed(y) by {
      assert y == if x.Obj? then x.props[i].1 else x.items[i];
    }
    SetDataFromStep(c, x, i);
    var s := Slot(c, KeyAt(x, i));
    if s.Some? {
      var e := c.entries[s.value].1;
      assert e.Nested? && !Fits(e.store, y);
      SetDataFits(e.store, y);
      var w := Written(e, y);
      ReplaceKeepsPosition(c.entries, s.value, w, k);
      assert SetDataFrom(c, x, i) == Update(ReplaceAt(c, s.value, w), SetData(e.store, y).error);
    } else {
      assert SetDataFrom(c, x, i) == Update(c, Some(OverrideNotAllowed));
    }
  }

  /** A property that fits is written, and the loop goes on with the next one. */
  lemma SetDataFromAccepts(c: Config, x: Value, i: nat)
    requires ObjectLike(x) && WellKeyed(x) && i < Count(x)
    requires FitsProp(c, KeyAt(x, i), ValAt(x, i))
    ensures Slot(c, KeyAt(x, i)).Some?
    ensures var q := Slot(c, KeyAt(x, i)).value;
      SetDataFrom(c, x, i) == SetDataFrom(ReplaceAt(c, q, Written(c.entries[q].1, ValAt(x, i))), x, i + 1)
  {
    var y := ValAt(x, i);
    assert WellKeyed(y) by {
      assert y == if x.Obj? then x.props[i].1 else x.items[i];
    }
    var q := Slot(c, KeyAt(x, i)).value;
    var e := c.entries[q].1;
    if e.Nested? {
      SetDataFits(e.store, y);
    }
    SetDataFromStep(c, x, i);
  }

  /**
   * Reference for the error `setData(x)` raises, read off the store as it
   * was before the call: `InvalidData` if `x` is not object-like, otherwise
   * the first own property, in order, that the store rejects —
   * `OverrideNotAllowed` for a key that is not set, or the error the
   * nested store at that key raises for the property's value.
   */
  function Misfit(c: Config, x: Value): (r: Option<Error>)
    ensures r.None? || r == Some(InvalidData) || r == Some(OverrideNotAllowed)
    decreases x, 1
  {
    if !ObjectLike(x) then Some(InvalidData) else MisfitFrom(c, x, 0)
  }

  /** The first property from the `i`-th on that the store rejects. */
  function MisfitFrom(c: Config, x: Value, i: nat): (r: Option<Error>)
    requires ObjectLike(x) && i <= Count(x)
    ensures r.None? || r == Some(InvalidData) || r == Some(OverrideNotAllowed)
    decreases x, 0, Count(x) - i
  {
    if i == Count(x) then None
    else
      var y := if x.Obj? then x.props[i].1 else x.items[i];
      match Slot(c, KeyAt(x, i))
      case None => Some(OverrideNotAllowed)
      case Some(j) =>
        var e := c.entries[j].1;
        if e.Nested? && Misfit(e.store, y).Some? then Misfit(e.store, y) else MisfitFrom(c, x, i + 1)
  }

  /**
   * For an input without duplicate keys, `setData` raises exactly the
   * reference error: `OverrideNotAllowed` on the first key that is not set,
   * `InvalidData` when a nested store is handed a non-object, nothing
   * when every property is accepted.
   */
  lemma {:induction false} SetDataMisfit(c: Config, x: Value)
    requires WellKeyed(x)
    ensures SetData(c, x).error == Misfit(c, x)
    decreases x, 1
  {
    if ObjectLike(x) {
      SetDataFromMisfit(c, x, 0);
    }
  }

  lemma {:induction false} SetDataFromMisfit(c: Config, x: Value, i: nat)
    requires ObjectLike(x) && WellKeyed(x) && i <= Count(x)
    ensures SetDataFrom(c, x, i).error == MisfitFrom(c, x, i)
    decreases x, 0, Count(x) - i
  {
    if i < Count(x) {
      var k := KeyAt(x, i);
      var y := if x.Obj? then x.props[i].1 else x.items[i];
      assert y == ValAt(x, i);
      assert WellKeyed(y);
      match Slot(c, k)
      case None =>
      case Some(j0) =>
        var e := c.entries[j0].1;
        if e.Nested? {
          SetDataMisfit(e.store, y);
        }
        if e.Nested? && SetData(e.store, y).error.Some? {
          assert MisfitFrom(c, x, i) == Misfit(e.store, y);
          assert SetDataFrom(c, x, i).error == SetData(e.store, y).error;
        } else {
          var e' := if e.Nested? then Nested(SetData(e.store, y).after) else Scalar(y);
          var c' := ReplaceAt(c, j0, e');
          assert MisfitFrom(c, x, i) == MisfitFrom(c', x, i + 1) by {
            assert MisfitFrom(c, x, i) == MisfitFrom(c, x, i + 1);
            assert forall j | i + 1 <= j < Count(x) :: KeyAt(x, j) != c.entries[j0].0 by {
              OwnKeysDistinct(x);
            }
            MisfitFromElsewhere(c, x, i + 1, j0, e');
          }
          assert SetDataFrom(c, x, i) == SetDataFrom(c', x, i + 1) by {
            SetDataFromNext(c, x, i, j0);
          }
          SetDataFromMisfit(c', x, i + 1);
        }
    }
  }

  /** Overwriting the entry of a key that no later property names does not change the reference error. */
  lemma MisfitFromElsewhere(c: Config, x: Value, i: nat, j0: nat, e: Entry)
    requires ObjectLike(x) && i <= Count(x) && j0 < |c.entries|
    requires forall j | i <= j < Count(x) :: KeyAt(x, j) != c.entries[j0].0
    ensures MisfitFrom(ReplaceAt(c, j0, e), x, i) == MisfitFrom(c, x, i)
  {
    var d := ReplaceAt(c, j0, e);
    forall j | i <= j < Count(x) ensures Rejection(d, KeyAt(x, j), ValAt(x, j)) == Rejection(c, KeyAt(x, j), ValAt(x, j)) {
      RejectionElsewhere(c, j0, e, KeyAt(x, j), ValAt(x, j));
    }
    MisfitFromAgree(c, d, x, i);
  }

  /** Two stores on which each property from the `i`-th on meets the same error have the same reference error. */
  lemma {:induction false} MisfitFromAgree(c: Config, d: Config, x: Value, i: nat)
    requires ObjectLike(x) && i <= Count(x)
    requires forall j | i <= j < Count(x) :: Rejection(d, KeyAt(x, j), ValAt(x, j)) == Rejection(c, KeyAt(x, j), ValAt(x, j))
    ensures MisfitFrom(d, x, i) == MisfitFrom(c, x, i)
    decreases Count(x) - i
  {
    if i < Count(x) {
      var r := Rejection(c, KeyAt(x, i), ValAt(x, i));
      assert Rejection(d, KeyAt(x, i), ValAt(x, i)) == r;
      MisfitFromStep(c, x, i);
      MisfitFromStep(d, x, i);
      if r.Some? {
        assert MisfitFrom(c, x, i) == r == MisfitFrom(d, x, i);
      } else {
        assert MisfitFrom(c, x, i) == MisfitFrom(c, x, i + 1);
        assert MisfitFrom(d, x, i) == MisfitFrom(d, x, i + 1);
        MisfitFromAgree(c, d, x, i + 1);
      }
    }
  }

  /** The error a single property `k: y` meets in the store, if any. */
  function Rejection(c: Config, k: string, y: Value): Option<Error>
  {
    match Slot(c, k)
    case None => Some(OverrideNotAllowed)
    case Some(j) => if c.entries[j].1.Nested? then Misfit(c.entries[j].1.store, y) else None
  }

  lemma RejectionElsewhere(c: Config, j0: nat, e: Entry, k: string, y: Value)
    requires j0 < |c.entries| && c.entries[j0].0 != k
    ensures Rejection(ReplaceAt(c, j0, e), k, y) == Rejection(c, k, y)
  {
    ReplaceElsewhere(c, j0, e, k);
  }

  /** One step of the reference: the `i`-th property decides, or the search moves on. */
  lemma MisfitFromStep(c: Config, x: Value, i: nat)
    requires ObjectLike(x) && i < Count(x)
    ensures MisfitFrom(c, x, i) ==
      if Rejection(c, KeyAt(x, i), ValAt(x, i)).Some? then Rejection(c, KeyAt(x, i), ValAt(x, i))
      else MisfitFrom(c, x, i + 1)
  {
    assert ValAt(x, i) == if x.Obj? then x.props[i].1 else x.items[i];
  }

  /**
   * Frame: a `set` at `p`, whether it succeeds or fails part-way, leaves
   * what `get` reads at every path disjoint from `p` unchanged.
   */
  lemma {:induction false} SetFrame(c: Config, p: string, v: Value, ip: string, q: string, iq: string)
    requires Disjoint(p, q)
    ensures GetFrom(SetFrom(c, p, v, ip).after, q, iq) == GetFrom(c, q, iq)
    decreases c
  {
    var sp, sq := ParseStep(p), ParseStep(q);
    var ip', iq' := InitialPath(p, ip), InitialPath(q, iq);
    var u := SetFrom(c, p, v, ip);
    match Slot(c, sp.key)
    case None =>
    case Some(i) =>
      SetLocal(c, p, v, ip);
      if sp.key != sq.key {
        ReplaceElsewhere(c, i, u.after.entries[i].1, sq.key);
        SameSlotSameGet(c, u.after, q, iq);
      } else {
        DisjointStep(p, q);
        var e := c.entries[i].1;
        if e.Nested? {
          var inner := SetFrom(e.store, sp.rest, v, ip');
          assert u.after == ReplaceAt(c, i, Nested(inner.after));
          ReplaceHere(c, i, Nested(inner.after));
          SetFrame(e.store, sp.rest, v, ip', sq.rest, iq');
          assert GetFrom(u.after, q, iq) == GetFrom(inner.after, sq.rest, iq');
        } else {
          assert u.after == c;
        }
      }
  }

  /** A `set` only ever rewrites the entry of the first key of its path. */
  lemma SetLocal(c: Config, p: string, v: Value, ip: string)
    requires Slot(c, ParseStep(p).key).Some?
    ensures var i := Slot(c, ParseStep(p).key).value;
      SetFrom(c, p, v, ip).after == ReplaceAt(c, i, SetFrom(c, p, v, ip).after.entries[i].1)
  {
    var i := Slot(c, ParseStep(p).key).value;
    var u := SetFrom(c, p, v, ip);
    if u.after == c {
      assert ReplaceAt(c, i, c.entries[i].1).entries == c.entries;
    }
  }

  /** `get` of a path reads only the slot and entry of its first key at the top level. */
  lemma SameSlotSameGet(c: Config, d: Config, q: string, iq: string)
    requires Slot(d, ParseStep(q).key) == Slot(c, ParseStep(q).key)
    requires Slot(c, ParseStep(q).key).Some? ==>
      d.entries[Slot(c, ParseStep(q).key).value] == c.entries[Slot(c, ParseStep(q).key).value]
    ensures GetFrom(d, q, iq) == GetFrom(c, q, iq)
  {
  }

  /** Two disjoint paths sharing their first key both descend, and their rests are disjoint. */
  lemma DisjointStep(p: string, q: string)
    requires Disjoint(p, q) && ParseStep(p).key == ParseStep(q).key
    ensures ParseStep(p).Descend? && ParseStep(q).Descend?
    ensures Disjoint(ParseStep(p).rest, ParseStep(q).rest)
  {
    RouteStep(p);
    RouteStep(q);
  }

  /** The fragment `get` reports when the last key of `p` is undefined. */
  function LastRemainder(p: string): string
  {
    Steps(p)[|Steps(p)| - 1].1
  }

  /** The last reported fragment of a path is that of its remainder, or the key of its only step. */
  lemma LastRemainderStep(p: string)
    ensures ParseStep(p).Terminal? ==> LastRemainder(p) == ParseStep(p).key
    ensures ParseStep(p).Descend? ==> LastRemainder(p) == LastRemainder(ParseStep(p).rest)
  {
    match ParseStep(p)
    case Terminal(k) =>
      assert Steps(p) == [(k, k)];
    case Descend(k, rest) =>
      assert Steps(p) == [(k, rest)] + Steps(rest);
  }

  /** Setting a path that ends at a scalar succeeds and leaves the new value (or nothing, for `undefined`) there. */
  lemma {:induction false} SetScalarLookup(c: Config, p: string, v: Value, ip: string)
    requires Lookup(c, Steps(p)).Hit? && Lookup(c, Steps(p)).entry.Scalar?
    ensures SetFrom(c, p, v, ip).error.None?
    ensures Lookup(SetFrom(c, p, v, ip).after, Steps(p)) ==
      if v == Undefined then Missing(LastRemainder(p)) else Hit(Scalar(v))
    decreases c
  {
    var step := ParseStep(p);
    LookupStep(c, p);
    LastRemainderStep(p);
    var i := Slot(c, step.key).value;
    var e := c.entries[i].1;
    var d := SetFrom(c, p, v, ip).after;
    if step.Terminal? {
      ReplaceHere(c, i, Scalar(v));
      assert d == ReplaceAt(c, i, Scalar(v));
    } else {
      var ip' := InitialPath(p, ip);
      var inner := SetFrom(e.store, step.rest, v, ip');
      SetScalarLookup(e.store, step.rest, v, ip');
      ReplaceHere(c, i, Nested(inner.after));
      assert d == ReplaceAt(c, i, Nested(inner.after));
    }
    LookupStep(d, p);
  }

  /**
   * A successful `set` on a path ending at a scalar makes `get` read the
   * new value there (writing `undefined` makes the path undefined).
   */
  lemma SetThenGet(c: Config, p: string, v: Value, ip: string, iq: string)
    requires Lookup(c, Steps(p)).Hit? && Lookup(c, Steps(p)).entry.Scalar?
    ensures SetFrom(c, p, v, ip).error.None?
    ensures GetFrom(SetFrom(c, p, v, ip).after, p, iq) ==
      if v == Undefined then Failure(UndefinedPath(LastRemainder(p), InitialPath(p, iq))) else Success(v)
  {
    SetScalarLookup(c, p, v, ip);
    GetMatchesLookup(SetFrom(c, p, v, ip).after, p, iq);
  }

  /**
   * A `set` on a path ending at a nested store is that store's `setData`:
   * same error, and the store it leaves behind is put back in place.
   */
  lemma {:induction false} SetAtStore(c: Config, p: string, v: Value, ip: string, s: Config)
    requires Lookup(c, Steps(p)) == Hit(Nested(s))
    ensures SetFrom(c, p, v, ip).error == SetData(s, v).error
    ensures Lookup(SetFrom(c, p, v, ip).after, Steps(p)) == Hit(Nested(SetData(s, v).after))
    decreases c
  {
    var steps := Steps(p);
    var i := Slot(c, ParseStep(p).key).value;
    var e := c.entries[i].1;
    var u := SetFrom(c, p, v, ip);
    ReplaceHere(c, i, u.after.entries[i].1);
    match ParseStep(p)
    case Terminal(k) =>
    case Descend(k, rest) =>
      assert steps[1..] == Steps(rest);
      SetAtStore(e.store, rest, v, InitialPath(p, ip), s);
  }

  /**
   * Writes through the corrected `getSub` reach the parent: if `getSub(p)`
   * yields the nested store `s`, then `set(p + "." + q, v)` raises what
   * `s.set(q, v)` raises and leaves at `p` the store that call produces.
   */
  lemma {:induction false} SetThroughSub(c: Config, p: string, q: string, v: Value, ip: string, i: string, s: Config)
    requires SimplePath(p)
    requires GetSubStore(c, p, i) == Success(Nested(s))
    ensures SetFrom(c, p + "." + q, v, ip).error == SetFrom(s, q, v, InitialPath(p + "." + q, ip)).error
    ensures Lookup(SetFrom(c, p + "." + q, v, ip).after, Steps(p)) ==
      Hit(Nested(SetFrom(s, q, v, InitialPath(p + "." + q, ip)).after))
    decreases c
  {
    ParseAppend(p, q);
    LookupStep(c, p);
    var step := ParseStep(p);
    var j := Slot(c, step.key).value;
    var e := c.entries[j].1;
    var ip' := InitialPath(p + "." + q, ip);
    var u := SetFrom(c, p + "." + q, v, ip);
    var inner := SetFrom(e.store, ParseStep(p + "." + q).rest, v, ip');
    assert u == Update(ReplaceAt(c, j, Nested(inner.after)), inner.error);
    ReplaceHere(c, j, Nested(inner.after));
    if step.Descend? {
      assert GetSubStore(e.store, step.rest, i) == Success(Nested(s));
      SetThroughSub(e.store, step.rest, q, v, ip', i, s);
    }
    LookupStep(u.after, p);
  }

  /** `set` resolves paths as `get` does: on an unresolvable path it raises the same error and writes nothing. */
  lemma {:induction false} SetPathError(c: Config, p: string, v: Value, ip: string)
    requires !Lookup(c, Steps(p)).Hit?
    ensures SetFrom(c, p, v, ip) == Update(c, Some(Located(Lookup(c, Steps(p)), InitialPath(p, ip)).error))
    decreases c
  {
    var step := ParseStep(p);
    LookupStep(c, p);
    match Slot(c, step.key)
    case None =>
    case Some(i) =>
      var e := c.entries[i].1;
      if e.Nested? {
        SetPathError(e.store, step.rest, v, InitialPath(p, ip));
      }
  }

  /** Once a scalar has been set to `undefined`, every later `set` of that path fails and writes nothing. */
  lemma SetUndefinedLocks(c: Config, p: string, ip: string, v: Value, iq: string)
    requires Lookup(c, Steps(p)).Hit? && Lookup(c, Steps(p)).entry.Scalar?
    ensures var d := SetFrom(c, p, Undefined, ip).after;
      SetFrom(d, p, v, iq) == Update(d, Some(UndefinedPath(LastRemainder(p), InitialPath(p, iq))))
  {
    var d := SetFrom(c, p, Undefined, ip).after;
    SetScalarLookup(c, p, Undefined, ip);
    SetPathError(d, p, v, iq);
  }
}
