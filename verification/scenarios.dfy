/**
 * Short request sequences against a fresh `AppState`, using only the
 * methods' contracts.
 */
module Scenarios {
  import opened Wrappers
  import opened Models
  import opened Namespace
  import opened Policy
  import opened Database

  /** A hit is served from the cache while the store fails, and a later upsert keeps it. */
  method HitThenUpsert()
  {
    var state := new AppState(map[]);
    var home := Shortlink("home", "https://example.org", "ann", 0, false, "");
    var stored := state.StoreShortlink(home, false);
    var hit := state.HitShortlink("home", true);
    assert hit == Counted && state.cache["home"].hits == 1;
    stored := state.StoreShortlink(home, false);
    assert state.cache["home"] == home.(hits := 1);
  }

  /** A hit reaches the store at the next flush, not before. */
  method HitThenFlush()
  {
    var state := new AppState(map[]);
    var home := Shortlink("home", "https://example.org", "ann", 0, false, "");
    var stored := state.StoreShortlink(home, false);
    assert state.cache == map["home" := home];
    var hit := state.HitShortlink("home", false);
    assert state.cache == map["home" := home.(hits := 1)];
    assert StoreGet(state.store, NamespacedKey("home")) == Ok(Some(home));
    ghost var db := state.State();
    var running := state.FlushTick({});
    assert running && state.State() == FlushSweep(db, {});
    SweepWritesEveryEntry(db, {}, "home");
    assert db.cache["home"] == home.(hits := 1);
    assert StoreGet(state.store, NamespacedKey("home")) == Ok(Some(home.(hits := 1)));
  }

  /** Once the cache's last owner is gone the flusher stops and writes nothing. */
  method FlusherStops()
  {
    var state := new AppState(map[]);
    state.Release(true, false);
    var running := state.FlushTick({});
    assert !running && !state.flusherRunning && state.store == map[];
  }
}
