/**
 * Concrete runs of the store on the configuration used as the example in
 * the documentation of lib/Utils/Config.ts, and on two small stores that
 * show the non-transactional `setData` and the behaviour of `getSub`.
 */
module Scenario {
  import opened Wrappers
  import opened Values
  import opened Paths
  import opened Store
  import opened Construct
  import opened Access
  import opened Mutate

  /** `{foo: 'bar', mongo: {host: 'localhost'}}` */
  function Example(): Value
  {
    Obj([("foo", Str("bar")), ("mongo", Obj([("host", Str("localhost"))]))])
  }

  /** The store the constructor builds from `Example()`. */
  function ExampleStore(): Config
  {
    Config([("foo", Scalar(Str("bar"))), ("mongo", Nested(Config([("host", Scalar(Str("localhost")))])))])
  }

  lemma ExampleBuilds()
    ensures New(Data(Example())) == Success(ExampleStore())
  {
    var c := ExampleStore();
    var inner := c.entries[1].1.store;
    assert Export(inner).props == [("host", Str("localhost"))];
    assert Export(c).props == Example().props;
    assert Canonical(c);
    CopyRoundTrip(c);
  }

  /** The store held under `mongo` in `ExampleStore()`. */
  function Mongo(): Config
  {
    Config([("host", Scalar(Str("localhost")))])
  }

  lemma MongoHostSteps()
    ensures Steps("mongo.host") == [("mongo", "host"), ("host", "host")]
  {
    TwoSegmentSteps("mongo", "host");
    assert "mongo" + "." + "host" == "mongo.host";
  }

  lemma MongoLoginSteps()
    ensures Steps("mongo.login") == [("mongo", "login"), ("login", "login")]
  {
    TwoSegmentSteps("mongo", "login");
    assert "mongo" + "." + "login" == "mongo.login";
  }

  lemma ExampleSlots()
    ensures Slot(ExampleStore(), "mongo") == Some(1)
    ensures Slot(ExampleStore(), "foo") == Some(0)
    ensures ExampleStore().entries[1].1 == Nested(Mongo())
    ensures Slot(Mongo(), "host") == Some(0)
    ensures Slot(Mongo(), "login") == None
  {
  }

  /** Reading a nested key returns its scalar. */
  lemma ExampleReadsNestedKey()
    ensures Get(ExampleStore(), "mongo.host") == Success(Str("localhost"))
  {
    MongoHostSteps();
    assert Lookup(ExampleStore(), [("mongo", "host"), ("host", "host")]) == Hit(Scalar(Str("localhost"))) by {
      ExampleSlots();
    }
  }

  /** Reading a nested store returns its export. */
  lemma ExampleReadsStore()
    ensures Get(ExampleStore(), "mongo") == Success(Obj([("host", Str("localhost"))]))
  {
    ExampleSlots();
    assert ParseStep("mongo") == Terminal("mongo");
    assert Export(Mongo()).props == [("host", Str("localhost"))];
  }

  /** Reading a key that was never declared fails, reporting the fragment and the whole path. */
  lemma ExampleReadsUndeclared()
    ensures Get(ExampleStore(), "mongo.login") == Failure(UndefinedPath("login", "mongo.login"))
  {
    MongoLoginSteps();
    assert Lookup(ExampleStore(), [("mongo", "login"), ("login", "login")]) == Missing("login") by {
      ExampleSlots();
    }
    ReadsAs(ExampleStore(), "mongo.login", Missing("login"));
  }

  /** What `get` returns once the walk along a path is known. */
  lemma ReadsAs(c: Config, p: string, probe: Probe)
    requires Lookup(c, Steps(p)) == probe
    ensures Get(c, p) == Reported(probe, p)
  {
  }

  /** Writing a declared scalar overwrites it. */
  lemma ExampleWritesScalar()
    ensures Set(ExampleStore(), "foo", Str("fou")).error == None
    ensures Get(Set(ExampleStore(), "foo", Str("fou")).after, "foo") == Success(Str("fou"))
  {
    ExampleSlots();
    var c := ExampleStore();
    var d := ReplaceAt(c, 0, Scalar(Str("fou")));
    assert ParseStep("foo") == Terminal("foo");
    assert Set(c, "foo", Str("fou")) == Update(d, None);
    ReplaceHere(c, 0, Scalar(Str("fou")));
  }

  /** Writing a key that was never declared fails and changes nothing. */
  lemma ExampleWritesUndeclared()
    ensures Set(ExampleStore(), "mongo.login", Str("x")) ==
      Update(ExampleStore(), Some(UndefinedPath("login", "mongo.login")))
  {
    MongoLoginSteps();
    assert Lookup(ExampleStore(), [("mongo", "login"), ("login", "login")]) == Missing("login") by {
      ExampleSlots();
    }
  }

  /** Construction rejects primitives and null. */
  lemma ConstructionRejects()
    ensures New(Data(Num(42))) == Failure(InvalidData)
    ensures New(Data(Str("str"))) == Failure(InvalidData)
    ensures New(Data(Null)) == Failure(InvalidData)
    ensures New(Data(Undefined)) == Failure(InvalidData)
  {
  }

  /** `setData({a: 9, z: 0})` on `{a: 1, b: 2}` writes `a` before failing on `z`. */
  lemma SetDataNotTransactional()
    ensures SetData(Config([("a", Scalar(Num(1))), ("b", Scalar(Num(2)))]), Obj([("a", Num(9)), ("z", Num(0))])) ==
      Update(Config([("a", Scalar(Num(9))), ("b", Scalar(Num(2)))]), Some(OverrideNotAllowed))
  {
    var c := Config([("a", Scalar(Num(1))), ("b", Scalar(Num(2)))]);
    var x := Obj([("a", Num(9)), ("z", Num(0))]);
    assert Slot(c, "a") == Some(0);
    var c' := ReplaceAt(c, 0, Scalar(Num(9)));
    assert c' == Config([("a", Scalar(Num(9))), ("b", Scalar(Num(2)))]);
    assert Slot(c', "z") == None;
    assert SetData(c, x) == SetDataFrom(c', x, 1);
  }

  /** `setData({z: 0, a: 9})` on `{a: 1}` throws at `z`, so `a` is never written. */
  lemma SetDataStopsAtRejection()
    ensures SetData(Config([("a", Scalar(Num(1)))]), Obj([("z", Num(0)), ("a", Num(9))])) ==
      Update(Config([("a", Scalar(Num(1)))]), Some(OverrideNotAllowed))
  {
    var c := Config([("a", Scalar(Num(1)))]);
    assert Slot(c, "z") == None;
  }

  /**
   * `setData({a: 9, m: 5})` on `{a: 1, m: {}}` writes `a`, then the nested
   * store at `m` rejects the non-object `5` with `invalid config data`.
   */
  lemma SetDataNestedNonObject()
    ensures SetData(Config([("a", Scalar(Num(1))), ("m", Nested(Config([])))]), Obj([("a", Num(9)), ("m", Num(5))])) ==
      Update(Config([("a", Scalar(Num(9))), ("m", Nested(Config([])))]), Some(InvalidData))
  {
    var c := Config([("a", Scalar(Num(1))), ("m", Nested(Config([])))]);
    var x := Obj([("a", Num(9)), ("m", Num(5))]);
    assert Slot(c, "a") == Some(0);
    var c' := ReplaceAt(c, 0, Scalar(Num(9)));
    assert c' == Config([("a", Scalar(Num(9))), ("m", Nested(Config([])))]);
    assert Slot(c', "m") == Some(1);
    assert SetData(Config([]), Num(5)) == Update(Config([]), Some(InvalidData));
    assert ReplaceAt(c', 1, Nested(Config([]))) == c';
    assert SetData(c, x) == SetDataFrom(c', x, 1);
  }

  /** `{mongo: {db: {name: 'x'}}}` */
  function DeepStore(): Config
  {
    Config([("mongo", Nested(Config([("db", Nested(Config([("name", Scalar(Str("x")))])))])))])
  }

  lemma MongoDbStep()
    ensures ParseStep("mongo.db") == Descend("mongo", "db")
  {
    ParseJoin("mongo", "db");
    assert "mongo" + "." + "db" == "mongo.db";
  }

  /** `getSub('mongo.db')` as written returns the exported plain object. */
  lemma GetSubReturnsCopy()
    ensures GetSub(DeepStore(), "mongo.db", "mongo.db") == Success(Scalar(Obj([("name", Str("x"))])))
  {
    var c := DeepStore();
    var mongo := c.entries[0].1.store;
    var db := mongo.entries[0].1.store;
    assert Slot(c, "mongo") == Some(0);
    assert GetFrom(mongo, "db", "mongo.db") == Success(Export(db)) by {
      assert ParseStep("db") == Terminal("db");
      assert Slot(mongo, "db") == Some(0);
    }
    assert Export(db) == Obj([("name", Str("x"))]) by {
      assert Export(db).props == [("name", Str("x"))];
    }
    MongoDbStep();
  }

  /** The corrected lookup returns the nested store itself. */
  lemma GetSubStoreReturnsStore()
    ensures GetSubStore(DeepStore(), "mongo.db", "mongo.db") == Success(Nested(Config([("name", Scalar(Str("x")))])))
  {
    var c := DeepStore();
    assert Slot(c, "mongo") == Some(0);
    assert Slot(c.entries[0].1.store, "db") == Some(0);
    MongoDbStep();
    assert ParseStep("db") == Terminal("db");
  }
}
