/**
 * Dotted configuration paths. Every access method of the store consumes a
 * path one level at a time: it cuts at the first `.`, uses the part before
 * it as the key of the current level and hands the rest to the next level.
 */
module Paths {
  import opened Wrappers

  /** `path.indexOf('.')`. */
  function FirstDot(p: string): (r: Option<nat>)
    ensures r.Some? ==> r.value < |p| && p[r.value] == '.' && '.' !in p[..r.value]
    ensures r.None? <==> '.' !in p
  {
    if |p| == 0 then None
    else if p[0] == '.' then Some(0)
    else
      match FirstDot(p[1..])
      case None => None
      case Some(i) =>
        assert p[..i + 1] == [p[0]] + p[1..][..i];
        Some(i + 1)
  }

  /**
   * What one level does with a path: descend into `key` with `rest`, or
   * read `key` at this level. A leading `.` yields an empty key, which the
   * TypeScript `get` treats as "no key", so the remainder is read as a literal key.
   */
  datatype Step = Descend(key: string, rest: string) | Terminal(key: string)
  {
    /** The fragment the TypeScript `get` reports when this level's key is undefined. */
    function Remainder(): string
    {
      match this
      case Descend(_, rest) => rest
      case Terminal(key) => key
    }
  }

  function ParseStep(p: string): (s: Step)
    ensures s.Descend? ==> |s.rest| < |p|
  {
    match FirstDot(p)
    case None => Terminal(p)
    case Some(i) =>
      if i == 0 then Terminal(p[1..])
      else
        assert p == p[..i] + "." + p[i + 1..];
        Descend(p[..i], p[i + 1..])
  }

  /**
   * A path descends exactly when it holds a dot that is not its first
   * character; it then splits into a dot-free key, the dot and the rest.
   * Otherwise the path is read whole, or, after a leading dot, the rest is.
   */
  lemma ParseStepSpec(p: string)
    ensures ParseStep(p).Descend? <==> ('.' in p && p[0] != '.')
    ensures ParseStep(p).Descend? ==>
      ParseStep(p).key != "" && '.' !in ParseStep(p).key && p == ParseStep(p).key + "." + ParseStep(p).rest
    ensures ParseStep(p).Terminal? && '.' !in p ==> ParseStep(p).key == p
    ensures ParseStep(p).Terminal? && '.' in p ==> p == "." + ParseStep(p).key
  {
    match FirstDot(p)
    case None =>
    case Some(i) =>
      if i != 0 {
        assert p == p[..i] + "." + p[i + 1..];
      }
  }

  /** The key visited at each level, paired with the fragment reported if it is undefined. */
  function Steps(p: string): (r: seq<(string, string)>)
    ensures 1 <= |r|
    decreases |p|
  {
    match ParseStep(p)
    case Descend(k, rest) => [(k, rest)] + Steps(rest)
    case Terminal(k) => [(k, k)]
  }

  /** The keys a traversal of `p` visits, outermost first. */
  function Route(p: string): (r: seq<string>)
    ensures |r| == |Steps(p)|
    ensures forall i :: 0 <= i < |r| ==> r[i] == Steps(p)[i].0
  {
    var st := Steps(p);
    seq(|st|, i requires 0 <= i < |st| => st[i].0)
  }

  /** The route of a path is its first key followed by the route of the rest. */
  lemma RouteStep(p: string)
    ensures ParseStep(p).Terminal? ==> Route(p) == [ParseStep(p).key]
    ensures ParseStep(p).Descend? ==> Route(p) == [ParseStep(p).key] + Route(ParseStep(p).rest)
  {
  }

  /** Neither path addresses the other's target or one of its ancestors. */
  predicate Disjoint(p: string, q: string)
  {
    var a, b := Route(p), Route(q);
    !(a <= b) && !(b <= a)
  }

  /** Every dot of `p` separates two non-empty segments. */
  predicate SimplePath(p: string)
    decreases |p|
  {
    match ParseStep(p)
    case Descend(_, rest) => SimplePath(rest)
    case Terminal(k) => k != "" && '.' !in p
  }

  /** Joining a plain key and a remainder with a dot descends into that key. */
  lemma ParseJoin(k: string, r: string)
    requires k != "" && '.' !in k
    ensures ParseStep(k + "." + r) == Descend(k, r)
  {
    var p := k + "." + r;
    assert p[|k|] == '.';
    assert p[..|k|] == k;
    assert p[|k| + 1..] == r;
  }

  /** A leading dot makes the whole remainder a single literal key. */
  lemma ParseLeadingDot(r: string)
    ensures ParseStep("." + r) == Terminal(r)
  {
    assert ("." + r)[0] == '.';
    assert ("." + r)[1..] == r;
  }

  /**
   * `if(!initialPath) initialPath = path;`: an omitted or empty initial path
   * is replaced by the path handed to the current level.
   */
  function InitialPath(path: string, initial: string): (r: string)
    ensures path != "" ==> r != ""
  {
    if initial == "" then path else initial
  }

  /** Appending `.q` to a simple path keeps its first step and carries `q` along. */
  lemma ParseAppend(p: string, q: string)
    requires SimplePath(p)
    ensures ParseStep(p).Descend? ==>
      ParseStep(p + "." + q) == Descend(ParseStep(p).key, ParseStep(p).rest + "." + q)
    ensures ParseStep(p).Terminal? ==> ParseStep(p + "." + q) == Descend(p, q)
  {
    ParseStepSpec(p);
    match ParseStep(p)
    case Descend(k, rest) =>
      JoinAssoc(k, rest, q);
      ParseJoin(k, rest + "." + q);
    case Terminal(k) =>
      ParseJoin(p, q);
  }

  lemma JoinAssoc(a: string, b: string, c: string)
    ensures (a + "." + b) + "." + c == a + "." + (b + "." + c)
  {
  }

  /** A path of two plain segments is visited key by key. */
  lemma TwoSegmentSteps(k: string, r: string)
    requires k != "" && '.' !in k && '.' !in r
    ensures Steps(k + "." + r) == [(k, r), (r, r)]
  {
    ParseJoin(k, r);
  }
}
