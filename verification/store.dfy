/**
 * The configuration store `Config` of lib/Utils/Config.ts as an immutable
 * value: an ordered list of entries, each either a scalar kept as given or
 * a nested store built from a plain object.
 */
module Store {
  import opened Wrappers
  import opened Props
  import opened Values

  /** The errors the store raises. */
  datatype Error =
    | InvalidData                                  // 'invalid config data'
    | UndefinedPath(rest: string, initial: string) // 'undefined config <rest> for path <initial>'
    | OverrideNotAllowed                           // 'override properties not allowed'
    | NotAStore                                    // TypeError: `.get`/`.set` called on a scalar

  datatype Entry = Scalar(value: Value) | Nested(store: Config)

  datatype Config = Config(entries: seq<(string, Entry)>)

  /** The state a write leaves behind, and the error it raised if any. Writes are not transactional. */
  datatype Update = Update(after: Config, error: Option<Error>)

  /** The keys of one level of the store. */
  function Keys(c: Config): set<string>
  {
    KeySet(c.entries)
  }

  /**
   * The index of the entry under `k`, unless `typeof data[k] === 'undefined'`:
   * an absent key and a key holding `undefined` both count as undefined.
   */
  function Slot(c: Config, k: string): (r: Option<nat>)
    ensures r.Some? ==> r.value < |c.entries| && c.entries[r.value].0 == k
    ensures r.Some? ==> c.entries[r.value].1 != Scalar(Undefined)
    ensures r.Some? ==> Position(c.entries, k) == r
    ensures r.None? <==> (k !in Keys(c) || c.entries[Position(c.entries, k).value].1 == Scalar(Undefined))
  {
    match Position(c.entries, k)
    case None => None
    case Some(i) => if c.entries[i].1 == Scalar(Undefined) then None else Some(i)
  }

  /** `data[key] = e` for a key already present at index `i`. */
  function ReplaceAt(c: Config, i: nat, e: Entry): (r: Config)
    requires i < |c.entries|
    ensures r.entries == ReplaceValue(c.entries, i, e)
  {
    Config(ReplaceValue(c.entries, i, e))
  }

  /** The plain value an entry reads as: its scalar, or the export of its nested store. */
  function Flatten(e: Entry): Value
    decreases e
  {
    match e
    case Scalar(v) => v
    case Nested(s) => Export(s)
  }

  /**
   * `getData`: a plain object with the same keys in the same order, nested
   * stores exported recursively. The export of a canonical store is a real
   * object (no repeated key) whose plain objects are exactly its nested
   * stores, which is what lets a copy rebuild the schema.
   */
  function Export(c: Config): (v: Value)
    ensures v.Obj? && |v.props| == |c.entries|
    ensures forall i :: 0 <= i < |c.entries| ==> v.props[i] == (c.entries[i].0, Flatten(c.entries[i].1))
    ensures Canonical(c) ==> DistinctKeys(v.props)
    ensures Canonical(c) ==> forall i :: 0 <= i < |c.entries| ==> (c.entries[i].1.Nested? <==> v.props[i].1.Obj?)
    decreases c
  {
    var v := Obj(seq(|c.entries|, i requires 0 <= i < |c.entries| => (c.entries[i].0, Flatten(c.entries[i].1))));
    assert Canonical(c) ==> forall i :: 0 <= i < |c.entries| ==> (c.entries[i].1.Nested? <==> v.props[i].1.Obj?) by {
      if Canonical(c) {
        forall i | 0 <= i < |c.entries| ensures c.entries[i].1.Nested? <==> v.props[i].1.Obj? {
          assert CanonicalEntry(c.entries[i].1);
        }
      }
    }
    v
  }

  /** The schema of a store: its keys at every level and which of them hold nested stores. */
  datatype Shape = Leaf | Node(fields: seq<(string, Shape)>)

  function EntryShape(e: Entry): Shape
    decreases e
  {
    match e
    case Scalar(_) => Leaf
    case Nested(s) => ShapeOf(s)
  }

  function ShapeOf(c: Config): (s: Shape)
    ensures s.Node? && |s.fields| == |c.entries|
    ensures forall i :: 0 <= i < |c.entries| ==> s.fields[i] == (c.entries[i].0, EntryShape(c.entries[i].1))
    decreases c
  {
    Node(seq(|c.entries|, i requires 0 <= i < |c.entries| => (c.entries[i].0, EntryShape(c.entries[i].1))))
  }

  /**
   * The stores construction produces: distinct keys at every level, and no
   * scalar holding a plain object (construction would have nested it).
   */
  ghost predicate Canonical(c: Config)
    decreases c
  {
    && DistinctKeys(c.entries)
    && forall i | 0 <= i < |c.entries| :: CanonicalEntry(c.entries[i].1)
  }

  ghost predicate CanonicalEntry(e: Entry)
    decreases e
  {
    match e
    case Scalar(v) => !v.Obj?
    case Nested(s) => Canonical(s)
  }

  /** Overwriting an entry with one of the same shape leaves the store's shape unchanged. */
  lemma ReplaceKeepsShape(c: Config, i: nat, e: Entry)
    requires i < |c.entries| && EntryShape(e) == EntryShape(c.entries[i].1)
    ensures ShapeOf(ReplaceAt(c, i, e)) == ShapeOf(c)
  {
    var a, b := ShapeOf(ReplaceAt(c, i, e)), ShapeOf(c);
    assert a.fields == b.fields;
  }

  /** Overwriting the entry found under a key decides by itself whether that key is still defined. */
  lemma ReplaceHere(c: Config, i: nat, e: Entry)
    requires i < |c.entries| && Position(c.entries, c.entries[i].0) == Some(i)
    ensures Slot(ReplaceAt(c, i, e), c.entries[i].0) == if e == Scalar(Undefined) then None else Some(i)
  {
    var d := ReplaceAt(c, i, e);
    var k := c.entries[i].0;
    assert d.entries[i].0 == k;
    assert k in Keys(d);
  }

  /** Overwriting the entry of one key leaves every other key's slot and entry untouched. */
  lemma ReplaceElsewhere(c: Config, i: nat, e: Entry, k: string)
    requires i < |c.entries| && c.entries[i].0 != k
    ensures Slot(ReplaceAt(c, i, e), k) == Slot(c, k)
    ensures Slot(c, k).Some? ==> ReplaceAt(c, i, e).entries[Slot(c, k).value] == c.entries[Slot(c, k).value]
  {
    var d := ReplaceAt(c, i, e);
    assert Keys(d) == Keys(c) by {
      forall key | key in Keys(c) ensures key in Keys(d) {
        var j :| 0 <= j < |c.entries| && c.entries[j].0 == key;
        assert d.entries[j].0 == key;
      }
      forall key | key in Keys(d) ensures key in Keys(c) {
        var j :| 0 <= j < |d.entries| && d.entries[j].0 == key;
        assert c.entries[j].0 == key;
      }
    }
  }
}
