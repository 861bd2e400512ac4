/**
 * Callers of the cache: the scenarios of example_test.go, with what they
 * print stated as assertions that follow from the contracts alone. Times
 * are milliseconds.
 */
module Examples {
  import opened Items
  import opened CacheFacade

  /** example_test.go:11-22: a set key is found, an unset one is not. */
  method ExampleCache()
  {
    var c := new Cache<string, int>(0);
    c.Set("a", 1, [], 0);
    var gota, aok := c.Get("a", 0);
    var gotb, bok := c.Get("b", 0);
    assert gota == 1 && aok;
    assert gotb == 0 && !bok;
  }

  /** example_test.go:54-77: an item is found until its deadline passes,
      and setting it again replaces both value and deadline. The source
      runs this on a FIFO store; here it runs on the simple store. */
  method ExampleWithExpiration()
  {
    var c := new Cache<string, int>(0);
    var exp := 250;
    c.Set("a", 1, [WithExpiration(exp)], 0);
    var gota, aok := c.Get("a", 0);
    assert gota == 1 && aok;
    c.Set("a", 2, [WithExpiration(exp)], 10);
    var gota2, aok2 := c.Get("a", 10);
    assert gota2 == 2 && aok2;
    var gota3, aok3 := c.Get("a", 10 + exp + 100);
    assert gota3 == 0 && !aok3;
  }

  /** example_test.go:79-87: a deleted key is not found. The source runs
      this on an MRU store; here it runs on the simple store. */
  method ExampleCacheDelete()
  {
    var c := new Cache<string, int>(0);
    c.Set("a", 1, [], 0);
    c.Delete("a");
    var gota, aok := c.Get("a", 0);
    assert gota == 0 && !aok;
  }

  /** example_test.go:99-107: `Contains` reports presence. The source runs
      this on an LRU store; here it runs on the simple store. */
  method ExampleCacheContains()
  {
    var c := new Cache<string, int>(0);
    c.Set("a", 1, [], 0);
    var a := c.Contains("a");
    var b := c.Contains("b");
    assert a && !b;
  }

  /** An expired item is a miss for `Get` but is still contained and
      listed until `DeleteExpired` reclaims it. */
  method ExpiredItemUntilReclaimed()
  {
    var c := new Cache<string, int>(0);
    c.Set("a", 1, [WithExpiration(250)], 0);
    c.Set("b", 2, [], 0);
    var got, ok := c.Get("a", 300);
    var found := c.Contains("a");
    var keys := c.Keys();
    var listed := c.List();
    assert !ok && found && "a" in keys && listed["a"] == 1;
    c.DeleteExpired(300);
    found := c.Contains("a");
    var foundB := c.Contains("b");
    assert !found && foundB;
  }

  /** example_test.go:109-131: increments and decrements of present,
      expiring and missing keys. */
  method ExampleNewNumber()
  {
    var nc := new NumberCache<string>();
    nc.cache.Set("a", 1, [], 0);
    nc.cache.Set("b", 2, [WithExpiration(60000)], 0);
    var av := nc.Increment("a", 1, 0);
    var gota, aok := nc.cache.Get("a", 0);
    var bv := nc.Decrement("b", 1, 0);
    var gotb, bok := nc.cache.Get("b", 0);
    var cv := nc.Increment("c", 100, 0);
    var dv := nc.Decrement("d", 100, 0);
    assert av == 2 && gota == 2 && aok;
    assert bv == 1 && gotb == 1 && bok;
    assert cv == 100;
    assert dv == -100;
    // The decrement dropped the deadline "b" had.
    var gotbLater, bokLater := nc.cache.Get("b", 120000);
    assert gotbLater == 1 && bokLater;
  }
}
