/**
 The manager as the object it is in the source (proxy/manager.go): fields that its methods update
 in place. Each method is one critical section, entered with the main mutex held, and is proved
 against the function in ServiceIndex that the protocol uses for that section, so the two forms
 cannot drift apart.
 */
module ManagerObject {
  import opened Options
  import opened ServiceIndex

  class Manager {
    var services: map<Name, nat>
    var byKey: map<Key, Name>
    var shutdown: bool
    var recs: seq<Record>
    var active: int
    var series: map<Name, nat>

    ghost function View(): Shared
      reads this
    {
      Shared(services, byKey, shutdown, recs, active, series)
    }

    ghost predicate Valid()
      reads this
    {
      IndexInv(View())
    }

    constructor ()
      ensures Valid() && View() == EMPTY
    {
      services, byKey, shutdown, recs, active, series := map[], map[], false, [], 0, map[];
      new;
      assert ReadyNames(View()) == {};
    }

    // The gauge helpers: every path that changes the advertised set goes through one of these.

    method SetPoolSize(service: Name, n: nat)
      modifies this`series
      ensures series == old(series)[service := n]
    {
      series := series[service := n];
    }

    method ServiceAdvertised(service: Name, n: nat)
      modifies this`series, this`active
      ensures active == old(active) + 1 && series == old(series)[service := n]
    {
      active := active + 1;
      SetPoolSize(service, n);
    }

    method ServiceWithdrawn(service: Name)
      modifies this`series, this`active
      ensures active == old(active) - 1 && series == old(series) - {service}
    {
      active := active - 1;
      series := series - {service};
    }

    method AllServicesWithdrawn()
      modifies this`series, this`active
      ensures active == 0 && series == map[]
    {
      active := 0;
      series := map[];
    }

    // The pool of a record: each operation publishes a fresh member sequence.

    method PoolAdd(r: nat, b: Backend) returns (size: nat)
      requires r < |recs|
      modifies this`recs
      ensures recs == old(recs)[r := old(recs)[r].(pool := old(recs)[r].pool + [b])]
      ensures size == |recs[r].pool|
    {
      var pool := recs[r].pool + [b];
      recs := recs[r := recs[r].(pool := pool)];
      size := |pool|;
    }

    method PoolRemove(r: nat, key: Key) returns (size: nat)
      requires r < |recs|
      modifies this`recs
      ensures recs == old(recs)[r := old(recs)[r].(pool := Without(old(recs)[r].pool, key))]
      ensures size == |recs[r].pool|
    {
      var pool := Without(recs[r].pool, key);
      recs := recs[r := recs[r].(pool := pool)];
      size := |pool|;
    }

    /** `conflictWith`. */
    method Conflict(rec: Record, def: Def) returns (c: Option<Outcome>)
      ensures c == ConflictWith(rec, def)
    {
      if def.scheme != rec.scheme {
        return Some(SchemeConflict);
      }
      var same := SameCapLists(rec.caps, def.caps);
      return if same then None else Some(CapsConflict);
    }

    // The critical sections, as updates of the fields. They need no more of the index than that
    // its names lead to records, and say exactly what they leave behind.

    /** One pass of the loop in `register`. */
    method RegisterFields(def: Def, b: Backend) returns (next: RegisterNext)
      requires IndexTyped(View())
      modifies this
      ensures (View(), next) == Register(old(View()), def, b)
    {
      if shutdown {
        return Returns(ShuttingDown);
      }
      if b.key in byKey {
        return Returns(Registered);
      }
      if def.service !in services {
        var rec := Record(def.service, def.scheme, def.caps, [], false, 0, None, 0, 0);
        services := services[def.service := |recs|];
        recs := recs + [rec];
        return Advertises(|recs| - 1);
      }
      var r := services[def.service];
      var rec := recs[r];
      var wait := Transition(rec, r);
      if wait.Some? {
        return Waits(wait.value);
      }
      var conflict := Conflict(rec, def);
      if conflict.Some? {
        return Returns(conflict.value);
      }
      var size := PoolAdd(r, b);
      byKey := byKey[b.key := rec.name];
      SetPoolSize(rec.name, size);
      return Returns(Registered);
    }

    /** `releaseLocked`. */
    method ReleaseFields(r: nat)
      requires r < |recs|
      modifies this
      ensures View() == Release(old(View()), r)
    {
      var rec := recs[r];
      if rec.name in services && services[rec.name] == r {
        services := services - {rec.name};
      }
      if !rec.ready {
        recs := recs[r := rec.(advertised := rec.advertised + 1)];
      }
    }

    /** The second region of `advertise`. */
    method PublishFields(r: nat, b: Backend) returns (up: bool)
      requires r < |recs|
      modifies this
      ensures (View(), up) == Publish(old(View()), r, b)
    {
      if shutdown {
        ReleaseFields(r);
        return false;
      }
      var size := PoolAdd(r, b);
      var rec := recs[r];
      recs := recs[r := rec.(ready := true, advertised := rec.advertised + 1)];
      assert recs == old(recs)[r := recs[r]];
      byKey := byKey[b.key := rec.name];
      ServiceAdvertised(rec.name, size);
      return true;
    }

    /** The part of `Deregister` that works on the pool of a ready record. */
    method LeavePool(r: nat, name: Name, key: Key) returns (emptied: Option<nat>)
      requires r < |recs|
      modifies this`recs, this`series
      ensures
        var rest := Without(old(recs)[r].pool, key);
        if rest != [] then
          emptied == None && recs == old(recs)[r := old(recs)[r].(pool := rest)]
          && series == old(series)[name := |rest|]
        else
          emptied == Some(r) && recs == old(recs)[r := old(recs)[r].(pool := rest, withdrawing := Some(0))]
          && series == old(series)
    {
      var size := PoolRemove(r, key);
      if size > 0 {
        SetPoolSize(name, size);
        return None;
      }
      recs := recs[r := recs[r].(withdrawing := Some(0))];
      return Some(r);
    }

    /** The first region of `Deregister`. */
    method DeregisterFields(key: Key) returns (emptied: Option<nat>)
      requires IndexTyped(View())
      modifies this
      ensures (View(), emptied) == Deregister(old(View()), key)
    {
      if key !in byKey {
        return None;
      }
      var name := byKey[key];
      byKey := byKey - {key};
      if name !in services || !recs[services[name]].ready {
        return None;
      }
      emptied := LeavePool(services[name], name, key);
    }

    /** The last region of `Deregister`. */
    method FinishFields(r: nat)
      requires r < |recs| && recs[r].withdrawing.Some?
      modifies this
      ensures View() == FinishWithdrawal(old(View()), r)
    {
      var rec := recs[r];
      if rec.name in services && services[rec.name] == r {
        services := services - {rec.name};
        ServiceWithdrawn(rec.name);
      }
      recs := recs[r := rec.(withdrawing := Some(rec.withdrawing.value + 1))];
    }

    // The same sections as their callers meet them: the invariant holds before and after.

    method RegisterPass(def: Def, b: Backend) returns (next: RegisterNext)
      requires Valid()
      modifies this
      ensures Valid()
      ensures (View(), next) == Register(old(View()), def, b)
    {
      RegisterKeeps(View(), def, b);
      next := RegisterFields(def, b);
    }

    /** `abandon`: give up a claim whose listener could not be opened. */
    method Abandon(r: nat)
      requires Valid() && r < |recs| && recs[r].advertised == 0
      modifies this
      ensures Valid() && View() == Release(old(View()), r)
    {
      ReleaseKeeps(View(), r);
      ReleaseFields(r);
    }

    method PublishPass(r: nat, b: Backend) returns (up: bool)
      requires Valid() && r < |recs| && recs[r].advertised == 0 && ListenerOpen(recs[r])
      modifies this
      ensures Valid()
      ensures (View(), up) == Publish(old(View()), r, b)
    {
      PublishKeeps(View(), r, b);
      up := PublishFields(r, b);
    }

    method DeregisterPass(key: Key) returns (emptied: Option<nat>)
      requires Valid()
      modifies this
      ensures Valid()
      ensures (View(), emptied) == Deregister(old(View()), key)
    {
      DeregisterKeeps(View(), key);
      emptied := DeregisterFields(key);
    }

    method FinishPass(r: nat)
      requires Valid() && r < |recs| && recs[r].withdrawing == Some(0)
      modifies this
      ensures Valid() && View() == FinishWithdrawal(old(View()), r)
    {
      FinishKeeps(View(), r);
      FinishFields(r);
    }

    /** The records of the index that are serving, in the order of a map range. */
    method ServingRecords() returns (order: seq<nat>)
      requires IndexTyped(View())
      ensures Lists(order, ServingSet(View()))
    {
      order := [];
      var left := services.Keys;
      while left != {}
        invariant left <= services.Keys
        invariant Lists(order, TakenFrom(View(), services.Keys - left))
        decreases left
      {
        var n :| n in left;
        TakenOne(View(), services.Keys - left, n);
        var rec := recs[services[n]];
        if rec.ready && rec.withdrawing.None? {
          ListsMore(order, TakenFrom(View(), services.Keys - left), services[n]);
          order := order + [services[n]];
        }
        assert services.Keys - (left - {n}) == (services.Keys - left) + {n};
        left := left - {n};
      }
      assert services.Keys - left == services.Keys;
      assert TakenFrom(View(), services.Keys) == ServingSet(View());
    }

    /** The region of `Close`: shut, and hand back the serving records in some order. */
    method ShutPass() returns (order: seq<nat>)
      requires Valid()
      modifies this
      ensures Valid() && View() == Shut(old(View()))
      ensures Lists(order, ServingSet(old(View())))
    {
      order := ServingRecords();
      ShutKeeps(View());
      shutdown := true;
      services := map[];
      byKey := map[];
      AllServicesWithdrawn();
    }
  }

  ghost function TakenFrom(s: Shared, names: set<Name>): set<nat>
    requires IndexTyped(s) && names <= s.services.Keys
  {
    set n | n in names && Serving(At(s, n)) :: s.services[n]
  }

  lemma ListsMore(order: seq<nat>, rs: set<nat>, r: nat)
    requires Lists(order, rs) && r !in rs
    ensures Lists(order + [r], rs + {r})
  {
    var out := order + [r];
    assert forall q :: q in out <==> q in order || q == r;
    assert forall i :: 0 <= i < |order| ==> order[i] in order && order[i] in rs;
  }

  /** Different names lead to different records, so each serving name adds one record. */
  lemma TakenOne(s: Shared, names: set<Name>, n: Name)
    requires IndexTyped(s) && names <= s.services.Keys && n in s.services && n !in names
    ensures s.services[n] !in TakenFrom(s, names)
    ensures TakenFrom(s, names + {n}) ==
      TakenFrom(s, names) + (if Serving(At(s, n)) then {s.services[n]} else {})
  {
  }

  // ------------------------------------------------------------------ capability lists

  method CapsSubset(a: seq<string>, b: seq<string>) returns (sub: bool)
    ensures sub <==> CapSet(a) <= CapSet(b)
  {
    for i := 0 to |a|
      invariant forall j :: 0 <= j < i ==> a[j] in b
    {
      if a[i] !in b {
        assert a[i] in CapSet(a) && a[i] !in CapSet(b);
        return false;
      }
    }
    return true;
  }

  /** Order and repetition do not matter: the lists are compared as sets. */
  method SameCapLists(a: seq<string>, b: seq<string>) returns (same: bool)
    ensures same <==> SameCaps(a, b)
  {
    same := CapsSubset(a, b);
    if same {
      same := CapsSubset(b, a);
    }
  }
}
