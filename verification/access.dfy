/**
 * The read side of `Config`: `get`, `isset`, `getOrReturn` and `getSub`
 * (lib/Utils/Config.ts:101-170, 254-261), with a reference lookup that
 * parses the whole path first and then walks the store.
 */
module Access {
  import opened Wrappers
  import opened Values
  import opened Paths
  import opened Store

  /**
   * `get(path, initialPath)`: resolves one level, then either reads the
   * entry (exporting a nested store) or continues in the nested store.
   */
  function GetFrom(c: Config, path: string, initial: string): (r: Result<Value, Error>)
    ensures r.Failure? ==> r.error == NotAStore || (r.error.UndefinedPath? && r.error.initial == InitialPath(path, initial))
    decreases c
  {
    var initial := InitialPath(path, initial);
    var step := ParseStep(path);
    match Slot(c, step.key)
    case None => Failure(UndefinedPath(step.Remainder(), initial))
    case Some(i) =>
      var e := c.entries[i].1;
      if step.Terminal? then Success(Flatten(e))
      else if e.Nested? then GetFrom(e.store, step.rest, initial)
      else Failure(NotAStore)
  }

  /** One level of `get`: the first key decides, and a descent carries the resolved initial path along. */
  lemma GetFromStep(c: Config, path: string, initial: string)
    ensures GetFrom(c, path, initial) ==
      match Slot(c, ParseStep(path).key)
      case None => Failure(UndefinedPath(ParseStep(path).Remainder(), InitialPath(path, initial)))
      case Some(i) =>
        if ParseStep(path).Terminal? then Success(Flatten(c.entries[i].1))
        else if c.entries[i].1.Nested? then GetFrom(c.entries[i].1.store, ParseStep(path).rest, InitialPath(path, initial))
        else Failure(NotAStore)
  {
  }

  /** `get(path)` called from outside, with no initial path. */
  function Get(c: Config, path: string): (r: Result<Value, Error>)
    ensures r == Reported(Lookup(c, Steps(path)), path)
  {
    GetMatchesLookup(c, path, "");
    GetFrom(c, path, "")
  }

  /** What a walk along a parsed path finds. */
  datatype Probe =
    | Hit(entry: Entry)     // the entry at the last key
    | Missing(rest: string) // a key was undefined; the fragment reported for it
    | Blocked               // a key before the last held a scalar

  /** Reference lookup: walks the store along the keys of an already parsed path. */
  function Lookup(c: Config, steps: seq<(string, string)>): (r: Probe)
    requires 1 <= |steps|
    ensures r.Blocked? ==> 2 <= |steps|
    ensures r.Missing? ==> exists j :: 0 <= j < |steps| && r.rest == steps[j].1
    decreases c
  {
    match Slot(c, steps[0].0)
    case None => Missing(steps[0].1)
    case Some(i) =>
      var e := c.entries[i].1;
      if |steps| == 1 then Hit(e)
      else if e.Nested? then Lookup(e.store, steps[1..])
      else Blocked
  }

  /** One level of the reference lookup, read off the first step of the path. */
  lemma LookupStep(c: Config, p: string)
    ensures Lookup(c, Steps(p)) ==
      match Slot(c, ParseStep(p).key)
      case None => Missing(ParseStep(p).Remainder())
      case Some(i) =>
        if ParseStep(p).Terminal? then Hit(c.entries[i].1)
        else if c.entries[i].1.Nested? then Lookup(c.entries[i].1.store, Steps(ParseStep(p).rest))
        else Blocked
  {
    match ParseStep(p)
    case Terminal(k) =>
      assert Steps(p) == [(k, k)];
    case Descend(k, rest) =>
      assert Steps(p) == [(k, rest)] + Steps(rest);
      assert Steps(p)[1..] == Steps(rest);
  }

  /** The walk is associative: walking `s + t` is walking `t` in the store that walking `s` ends at. */
  lemma {:induction false} LookupAppend(c: Config, s: seq<(string, string)>, t: seq<(string, string)>, d: Config)
    requires 1 <= |s| && 1 <= |t| && Lookup(c, s) == Hit(Nested(d))
    ensures Lookup(c, s + t) == Lookup(d, t)
    decreases c
  {
    var i := Slot(c, s[0].0).value;
    assert (s + t)[0] == s[0];
    if |s| == 1 {
      assert (s + t)[1..] == t;
    } else {
      assert (s + t)[1..] == s[1..] + t;
      LookupAppend(c.entries[i].1.store, s[1..], t, d);
    }
  }

  /** The entry a probe found, or the error the store raises for it. */
  function Located(p: Probe, initial: string): Result<Entry, Error>
  {
    match p
    case Hit(e) => Success(e)
    case Missing(rest) => Failure(UndefinedPath(rest, initial))
    case Blocked => Failure(NotAStore)
  }

  /** What `get` returns for a probe: the found entry read as a plain value, or the error. */
  function Reported(p: Probe, initial: string): Result<Value, Error>
  {
    match Located(p, initial)
    case Success(e) => Success(Flatten(e))
    case Failure(err) => Failure(err)
  }

  /**
   * Path resolution: `get` fails with UndefinedPath exactly when some key on
   * the path is absent or holds undefined, fails with NotAStore when it
   * traverses a scalar, and otherwise reads the entry at the last key.
   */
  lemma {:induction false} GetMatchesLookup(c: Config, path: string, initial: string)
    ensures GetFrom(c, path, initial) == Reported(Lookup(c, Steps(path)), InitialPath(path, initial))
    decreases c
  {
    var steps := Steps(path);
    match ParseStep(path)
    case Terminal(k) =>
    case Descend(k, rest) =>
      assert steps == [(k, rest)] + Steps(rest);
      assert steps[1..] == Steps(rest);
      match Slot(c, k)
      case None =>
        assert Lookup(c, steps) == Missing(rest);
      case Some(i) =>
        var e := c.entries[i].1;
        if e.Nested? {
          var initial' := InitialPath(path, initial);
          GetMatchesLookup(e.store, rest, initial');
          assert Lookup(c, steps) == Lookup(e.store, Steps(rest));
          assert GetFrom(c, path, initial) == GetFrom(e.store, rest, initial');
        } else {
          assert Lookup(c, steps) == Blocked;
        }
  }

  /** `isset(path)`: whether `get(path)` would return without raising. */
  function Isset(c: Config, path: string): (b: bool)
    ensures b <==> Lookup(c, Steps(path)).Hit?
  {
    Get(c, path).Success?
  }

  /** isset/get consistency: `isset(p)` holds exactly when `get(p)` does not fail. */
  lemma IssetMatchesGet(c: Config, path: string)
    ensures Isset(c, path) <==> Get(c, path).Success?
    ensures !Isset(c, path) ==> Get(c, path).error.NotAStore? || Get(c, path).error.UndefinedPath?
  {
  }

  /** `getOrReturn(path, defValue)`: the value at `path` if it is set, `fallback` otherwise. */
  function GetOrReturn(c: Config, path: string, fallback: Value): (r: Value)
    ensures Lookup(c, Steps(path)).Hit? ==> r == Flatten(Lookup(c, Steps(path)).entry)
    ensures !Lookup(c, Steps(path)).Hit? ==> r == fallback
  {
    if Isset(c, path) then Get(c, path).value else fallback
  }

  /** Default fallback: `getOrReturn` agrees with `get` where `isset` holds and returns the default elsewhere. */
  lemma GetOrReturnFallback(c: Config, path: string, fallback: Value)
    ensures Isset(c, path) ==> Success(GetOrReturn(c, path, fallback)) == Get(c, path)
    ensures !Isset(c, path) ==> GetOrReturn(c, path, fallback) == fallback
  {
  }

  /**
   * `getSub(path, initialPath)` as written: on a single-level path it
   * returns the live entry, but below that it delegates to `get` and so
   * returns an exported copy (represented as a scalar), never a store.
   */
  function GetSub(c: Config, path: string, initial: string): (r: Result<Entry, Error>)
    ensures r.Failure? <==> GetFrom(c, path, initial).Failure?
    ensures r.Failure? ==> r.error == GetFrom(c, path, initial).error
    ensures r.Success? ==> Flatten(r.value) == GetFrom(c, path, initial).value
    ensures ParseStep(path).Descend? && r.Success? ==> r.value.Scalar?
    decreases c
  {
    var initial := InitialPath(path, initial);
    var step := ParseStep(path);
    match Slot(c, step.key)
    case None => Failure(UndefinedPath(step.Remainder(), initial))
    case Some(i) =>
      var e := c.entries[i].1;
      if step.Terminal? then Success(e)
      else if e.Nested? then
        match GetFrom(e.store, step.rest, initial)
        case Success(v) => Success(Scalar(v))
        case Failure(err) => Failure(err)
      else Failure(NotAStore)
  }

  /**
   * `getSub` as its documentation and declared return type intend: the
   * traversal continues with `getSub` at every level, so the live entry at
   * the end of the path is returned.
   */
  function GetSubStore(c: Config, path: string, initial: string): (r: Result<Entry, Error>)
    ensures r == Located(Lookup(c, Steps(path)), InitialPath(path, initial))
    decreases c
  {
    var initial := InitialPath(path, initial);
    var step := ParseStep(path);
    var steps := Steps(path);
    match Slot(c, step.key)
    case None => Failure(UndefinedPath(step.Remainder(), initial))
    case Some(i) =>
      var e := c.entries[i].1;
      if step.Terminal? then Success(e)
      else if e.Nested? then
        assert steps[1..] == Steps(step.rest);
        GetSubStore(e.store, step.rest, initial)
      else Failure(NotAStore)
  }

  /** The corrected lookup raises exactly what `get` raises, and its entry reads as what `get` returns. */
  lemma GetSubStoreMatchesGet(c: Config, path: string, initial: string)
    ensures GetSubStore(c, path, initial).Failure? <==> GetFrom(c, path, initial).Failure?
    ensures GetSubStore(c, path, initial).Failure? ==> GetSubStore(c, path, initial).error == GetFrom(c, path, initial).error
    ensures GetSubStore(c, path, initial).Success? ==>
      Flatten(GetSubStore(c, path, initial).value) == GetFrom(c, path, initial).value
  {
    GetMatchesLookup(c, path, initial);
  }

  /** On a single-level path `getSub` as written in lib/Utils/Config.ts already returns the live entry. */
  lemma GetSubSingleLevel(c: Config, path: string, initial: string)
    requires '.' !in path
    ensures GetSub(c, path, initial) == GetSubStore(c, path, initial)
  {
  }

  /** Traversal is associative: reading `k.r` is reading `r` inside the store held at `k`. */
  lemma Traverse(c: Config, k: string, r: string, initial: string)
    requires k != "" && '.' !in k
    requires Slot(c, k).Some? && c.entries[Slot(c, k).value].1.Nested?
    ensures GetFrom(c, k + "." + r, initial) ==
      GetFrom(c.entries[Slot(c, k).value].1.store, r, InitialPath(k + "." + r, initial))
  {
    ParseJoin(k, r);
  }

  /**
   * Reading `p.q` is reading `q` in the live store that the corrected
   * `getSub(p)` returns, for any path `p` without empty segments.
   */
  lemma {:induction false} SubStoreThenGet(c: Config, p: string, q: string, initial: string, s: Config)
    requires SimplePath(p)
    requires GetSubStore(c, p, initial) == Success(Nested(s))
    ensures GetFrom(c, p + "." + q, initial) == GetFrom(s, q, InitialPath(p + "." + q, initial))
    decreases c
  {
    ParseAppend(p, q);
    LookupStep(c, p);
    var step := ParseStep(p);
    var e := c.entries[Slot(c, step.key).value].1;
    var initial' := InitialPath(p + "." + q, initial);
    GetFromStep(c, p + "." + q, initial);
    if step.Descend? {
      assert GetSubStore(e.store, step.rest, initial') == Success(Nested(s));
      SubStoreThenGet(e.store, step.rest, q, initial', s);
    }
  }

  /**
   * The empty-first-segment quirk: with a leading dot the key is empty, so
   * the remainder is read as one literal key, dots included.
   */
  lemma LeadingDot(c: Config, r: string, initial: string)
    ensures GetFrom(c, "." + r, initial).Success? <==> Slot(c, r).Some?
    ensures '.' !in r ==> GetFrom(c, "." + r, initial) == GetFrom(c, r, InitialPath("." + r, initial))
  {
    ParseLeadingDot(r);
  }
}
