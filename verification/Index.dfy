/**
 The state of the service manager that its main mutex guards (proxy/manager.go, proxy/pool.go):
 the service index, the key index, the shutdown flag, the records and the two gauges.

 A record is reached in the source by reference and compared by identity; here the reference
 is an index into the table `recs`, which only grows, so a record that has left the service index
 keeps its own place for the threads that still refer to it.

 Each function below is one lock-to-unlock region of the source, read as a function of the state
 it finds to the state it leaves and what the caller does next.
 */
module ServiceIndex {
  import opened Options

  type Name = string
  type Key = string

  /** The service-level part of a definition, which is all that a registration compares. */
  datatype Def = Def(service: Name, scheme: string, caps: seq<string>)

  /** A container backend has an address; a function backend has an invoker instead. */
  datatype Target = Container(addr: string) | Function(arn: string)

  /** A pool member. `call` is history: it says which registration call brought the member. */
  datatype Backend = Backend(key: Key, target: Target, call: nat)

  /**
   An advertised service. A channel is the number of times it has been closed, so that closing it
   twice is visible; `withdrawing` is None until the channel is made. `opens` and `tears` count
   what happened to the listener of this record: successful listen calls and runs of closeFn.
   */
  datatype Record = Record(
    name: Name,
    scheme: string,
    caps: seq<string>,
    pool: seq<Backend>,
    ready: bool,
    advertised: nat,
    withdrawing: Option<nat>,
    opens: nat,
    tears: nat)

  datatype Shared = Shared(
    services: map<Name, nat>,
    byKey: map<Key, Name>,
    shutdown: bool,
    recs: seq<Record>,
    active: int,
    series: map<Name, nat>)

  const EMPTY := Shared(map[], map[], false, [], 0, map[])

  datatype Chan = Advertised(rec: nat) | Withdrawing(rec: nat)

  /** The outcome of a registration as its caller sees it. */
  datatype Outcome =
    | Registered
    | SchemeConflict
    | CapsConflict
    | ListenFailed
    | ListenFatal
    | ShuttingDown
    | NoInvoker

  // ------------------------------------------------------------------ reading a record

  predicate Serving(rec: Record) {
    rec.ready && rec.withdrawing.None?
  }

  /** A record that still has a claim on its name: advertising, serving, or withdrawing. */
  predicate Live(rec: Record) {
    rec.advertised == 0 || (rec.ready && rec.withdrawing != Some(1))
  }

  predicate ListenerOpen(rec: Record) {
    rec.opens > rec.tears
  }

  /** The channel a registration that finds this record must wait on, None when it can join. */
  function Transition(rec: Record, r: nat): (ch: Option<Chan>)
    ensures ch.None? <==> Serving(rec)
  {
    if rec.withdrawing.Some? then Some(Withdrawing(r))
    else if !rec.ready then Some(Advertised(r))
    else None
  }

  function CapSet(caps: seq<string>): set<string> {
    set c | c in caps
  }

  predicate SameCaps(a: seq<string>, b: seq<string>) {
    CapSet(a) == CapSet(b)
  }

  function ConflictWith(rec: Record, def: Def): (c: Option<Outcome>)
    ensures c.None? <==> def.scheme == rec.scheme && SameCaps(rec.caps, def.caps)
    ensures c == Some(SchemeConflict) <==> def.scheme != rec.scheme
    ensures c == Some(CapsConflict) <==> def.scheme == rec.scheme && !SameCaps(rec.caps, def.caps)
  {
    if def.scheme != rec.scheme then Some(SchemeConflict)
    else if !SameCaps(rec.caps, def.caps) then Some(CapsConflict)
    else None
  }

  predicate HasKey(pool: seq<Backend>, k: Key) {
    exists i :: 0 <= i < |pool| && pool[i].key == k
  }

  /** The members that are left when every member with key k is deleted. */
  function Without(pool: seq<Backend>, k: Key): (rest: seq<Backend>)
    ensures forall b :: b in rest <==> b in pool && b.key != k
    ensures !HasKey(rest, k)
    ensures forall q :: q != k ==> (HasKey(rest, q) <==> HasKey(pool, q))
  {
    if pool == [] then []
    else
      var rest := Without(pool[1..], k);
      assert forall b :: b in pool <==> b == pool[0] || b in pool[1..];
      assert forall q :: HasKey(pool, q) <==> pool[0].key == q || HasKey(pool[1..], q) by {
        HasKeyCons(pool);
      }
      if pool[0].key == k then rest
      else
        var out := [pool[0]] + rest;
        assert out[1..] == rest;
        assert forall q :: HasKey(out, q) <==> pool[0].key == q || HasKey(rest, q) by {
          HasKeyCons(out);
        }
        out
  }

  lemma HasKeyCons(pool: seq<Backend>)
    requires pool != []
    ensures forall q :: HasKey(pool, q) <==> pool[0].key == q || HasKey(pool[1..], q)
  {
    forall q
      ensures HasKey(pool, q) <==> pool[0].key == q || HasKey(pool[1..], q)
    {
      if HasKey(pool, q) && pool[0].key != q {
        var i :| 0 <= i < |pool| && pool[i].key == q;
        assert pool[1..][i - 1] == pool[i];
      }
      if HasKey(pool[1..], q) {
        var i :| 0 <= i < |pool[1..]| && pool[1..][i].key == q;
        assert pool[i + 1] == pool[1..][i];
      }
    }
  }

  // ------------------------------------------------------------------ the critical sections

  /** Every name in the index leads to a record of that name. */
  ghost predicate IndexTyped(s: Shared) {
    forall n :: n in s.services ==> s.services[n] < |s.recs| && s.recs[s.services[n]].name == n
  }

  /** The record a name leads to. */
  function At(s: Shared, n: Name): Record
    requires IndexTyped(s) && n in s.services
  {
    s.recs[s.services[n]]
  }

  predicate Indexed(s: Shared, r: nat)
    requires r < |s.recs|
  {
    s.recs[r].name in s.services && s.services[s.recs[r].name] == r
  }

  datatype RegisterNext = Returns(outcome: Outcome) | Advertises(rec: nat) | Waits(ch: Chan)

  function Claim(s: Shared, def: Def): Shared {
    s.(services := s.services[def.service := |s.recs|],
       recs := s.recs + [Record(def.service, def.scheme, def.caps, [], false, 0, None, 0, 0)])
  }

  function Join(s: Shared, r: nat, b: Backend): Shared
    requires r < |s.recs|
  {
    var rec := s.recs[r];
    s.(recs := s.recs[r := rec.(pool := rec.pool + [b])],
       byKey := s.byKey[b.key := rec.name],
       series := s.series[rec.name := |rec.pool| + 1])
  }

  /** One pass of the loop in `register`. */
  function Register(s: Shared, def: Def, b: Backend): (Shared, RegisterNext)
    requires IndexTyped(s)
  {
    if s.shutdown then (s, Returns(ShuttingDown))
    else if b.key in s.byKey then (s, Returns(Registered))
    else if def.service !in s.services then (Claim(s, def), Advertises(|s.recs|))
    else
      var r := s.services[def.service];
      var rec := s.recs[r];
      var wait := Transition(rec, r);
      if wait.Some? then (s, Waits(wait.value))
      else
        var conflict := ConflictWith(rec, def);
        if conflict.Some? then (s, Returns(conflict.value))
        else (Join(s, r, b), Returns(Registered))
  }

  /** `releaseLocked`: leave the index if still there, and wake the waiters. */
  function Release(s: Shared, r: nat): Shared
    requires r < |s.recs|
  {
    var rec := s.recs[r];
    s.(services := if Indexed(s, r) then s.services - {rec.name} else s.services,
       recs := if rec.ready then s.recs else s.recs[r := rec.(advertised := rec.advertised + 1)])
  }

  /** The second region of `advertise`; the flag says whether the service is now serving. */
  function Publish(s: Shared, r: nat, b: Backend): (Shared, bool)
    requires r < |s.recs|
  {
    if s.shutdown then (Release(s, r), false)
    else
      var rec := s.recs[r];
      var pool := rec.pool + [b];
      (s.(recs := s.recs[r := rec.(pool := pool, ready := true, advertised := rec.advertised + 1)],
          byKey := s.byKey[b.key := rec.name],
          active := s.active + 1,
          series := s.series[rec.name := |pool|]),
       true)
  }

  /** The first region of `Deregister`: the record to withdraw, if this emptied its pool. */
  function Deregister(s: Shared, key: Key): (Shared, Option<nat>)
    requires IndexTyped(s)
  {
    if key !in s.byKey then (s, None)
    else
      var name := s.byKey[key];
      var s1 := s.(byKey := s.byKey - {key});
      if name !in s.services || !s.recs[s.services[name]].ready then (s1, None)
      else
        var r := s.services[name];
        var rec := s.recs[r];
        var rest := Without(rec.pool, key);
        if rest != [] then
          (s1.(recs := s.recs[r := rec.(pool := rest)], series := s.series[name := |rest|]), None)
        else
          (s1.(recs := s.recs[r := rec.(pool := rest, withdrawing := Some(0))]), Some(r))
  }

  /** The last region of `Deregister`, after the listener is down. */
  function FinishWithdrawal(s: Shared, r: nat): Shared
    requires r < |s.recs| && s.recs[r].withdrawing.Some?
  {
    var rec := s.recs[r];
    var s1 := s.(recs := s.recs[r := rec.(withdrawing := Some(rec.withdrawing.value + 1))]);
    if Indexed(s, r) then
      s1.(services := s.services - {rec.name}, active := s.active - 1, series := s.series - {rec.name})
    else s1
  }

  /** The region of `Close`. */
  function Shut(s: Shared): Shared {
    s.(shutdown := true, services := map[], byKey := map[], active := 0, series := map[])
  }

  /** The records `Close` tears down itself. */
  function ServingSet(s: Shared): set<nat>
    requires IndexTyped(s)
  {
    set n | n in s.services && Serving(At(s, n)) :: s.services[n]
  }

  predicate Distinct(s: seq<nat>) {
    forall i, j :: 0 <= i < j < |s| ==> s[i] != s[j]
  }

  /** The members of a set, each once, in the order some map range gave them. */
  predicate Lists(order: seq<nat>, rs: set<nat>) {
    Distinct(order) && (set r | r in order) == rs
  }

  /** The outside world: a listen call for r succeeded, or its closeFn ran. */
  function Opened(s: Shared, r: nat): Shared
    requires r < |s.recs|
  {
    s.(recs := s.recs[r := s.recs[r].(opens := s.recs[r].opens + 1)])
  }

  function TornDown(s: Shared, r: nat): Shared
    requires r < |s.recs|
  {
    s.(recs := s.recs[r := s.recs[r].(tears := s.recs[r].tears + 1)])
  }

  // ------------------------------------------------------------------ what every section keeps

  ghost predicate RecordOk(rec: Record) {
    && rec.advertised <= 1
    && rec.tears <= rec.opens <= 1
    && (!rec.ready ==> rec.pool == [] && rec.withdrawing.None?)
    && (rec.ready ==> rec.advertised == 1 && rec.opens == 1)
    && (rec.withdrawing.Some? ==> rec.withdrawing.value <= 1 && rec.pool == [])
    && (Serving(rec) ==> rec.pool != [])
  }

  ghost predicate RecordsOk(s: Shared) {
    forall r :: 0 <= r < |s.recs| ==> RecordOk(s.recs[r])
  }

  /** Until shutdown the index holds exactly the live records; afterwards it holds nothing. */
  ghost predicate IndexExact(s: Shared) {
    if s.shutdown then s.services == map[] && s.byKey == map[]
    else forall r :: 0 <= r < |s.recs| ==> (Live(s.recs[r]) <==> Indexed(s, r))
  }

  /** A key in the key index is a member of the pool of a serving service. */
  ghost predicate KeysServed(s: Shared)
    requires IndexTyped(s)
  {
    forall k :: k in s.byKey ==> KeyServed(s, k, s.byKey[k])
  }

  ghost predicate KeyServed(s: Shared, k: Key, n: Name)
    requires IndexTyped(s)
  {
    n in s.services && Serving(At(s, n)) && HasKey(At(s, n).pool, k)
  }

  function ReadyNames(s: Shared): set<Name>
    requires IndexTyped(s)
  {
    set n | n in s.services && At(s, n).ready
  }

  /** The gauge of active services counts the ready records of the index. */
  ghost predicate CountExact(s: Shared)
    requires IndexTyped(s)
  {
    s.active == |ReadyNames(s)|
  }

  /** There is a pool-size series for exactly those names, and for a serving one it is the size. */
  ghost predicate SeriesExact(s: Shared)
    requires IndexTyped(s)
  {
    && (forall n :: n in s.series <==> n in s.services && At(s, n).ready)
    && (forall n :: n in s.services && Serving(At(s, n)) ==> s.series[n] == |At(s, n).pool|)
  }

  ghost predicate GaugesExact(s: Shared)
    requires IndexTyped(s)
  {
    CountExact(s) && SeriesExact(s)
  }

  ghost predicate Structure(s: Shared) {
    IndexTyped(s) && RecordsOk(s) && IndexExact(s)
  }

  ghost predicate IndexInv(s: Shared) {
    Structure(s) && KeysServed(s) && GaugesExact(s)
  }

  lemma RegisterKeeps(s: Shared, def: Def, b: Backend)
    requires IndexInv(s)
    ensures IndexInv(Register(s, def, b).0)
  {
    if s.shutdown || b.key in s.byKey {
    } else if def.service !in s.services {
      ClaimKeeps(s, def);
    } else {
      var r := s.services[def.service];
      if Serving(s.recs[r]) {
        JoinKeeps(s, r, b);
      }
    }
  }

  lemma ClaimKeeps(s: Shared, def: Def)
    requires IndexInv(s) && !s.shutdown && def.service !in s.services
    ensures IndexInv(Claim(s, def))
  {
    ClaimStructure(s, def);
    ClaimViews(s, def);
  }

  lemma ClaimStructure(s: Shared, def: Def)
    requires Structure(s) && !s.shutdown && def.service !in s.services
    ensures Structure(Claim(s, def))
  {
  }

  lemma ClaimViews(s: Shared, def: Def)
    requires IndexTyped(s) && KeysServed(s) && GaugesExact(s) && def.service !in s.services
    requires IndexTyped(Claim(s, def))
    ensures KeysServed(Claim(s, def)) && GaugesExact(Claim(s, def))
  {
    var s' := Claim(s, def);
    assert forall n :: n in s.services ==> At(s', n) == At(s, n);
    assert ReadyNames(s') == ReadyNames(s);
    forall k | k in s'.byKey
      ensures KeyServed(s', k, s'.byKey[k])
    {
      assert KeyServed(s, k, s.byKey[k]);
    }
  }

  // The gauges, when the index is the same before and after and one name has changed.

  ghost predicate OnlyAt(s: Shared, s': Shared, name: Name)
    requires IndexTyped(s) && IndexTyped(s')
  {
    && s.services == s'.services && name in s.services
    && (forall n :: n in s.services && n != name ==> At(s', n) == At(s, n))
  }

  lemma SeriesSet(s: Shared, s': Shared, name: Name)
    requires IndexTyped(s) && IndexTyped(s') && OnlyAt(s, s', name) && SeriesExact(s)
    requires At(s', name).ready && s'.series == s.series[name := |At(s', name).pool|]
    ensures SeriesExact(s')
  {
  }

  lemma SeriesKept(s: Shared, s': Shared, name: Name)
    requires IndexTyped(s) && IndexTyped(s') && OnlyAt(s, s', name) && SeriesExact(s)
    requires At(s', name).ready && At(s, name).ready && !Serving(At(s', name))
    requires s'.series == s.series
    ensures SeriesExact(s')
  {
  }

  lemma CountKept(s: Shared, s': Shared, name: Name)
    requires IndexTyped(s) && IndexTyped(s') && OnlyAt(s, s', name) && CountExact(s)
    requires At(s', name).ready == At(s, name).ready && s'.active == s.active
    ensures CountExact(s')
  {
    assert ReadyNames(s') == ReadyNames(s);
  }

  lemma CountRaised(s: Shared, s': Shared, name: Name)
    requires IndexTyped(s) && IndexTyped(s') && OnlyAt(s, s', name) && CountExact(s)
    requires At(s', name).ready && !At(s, name).ready && s'.active == s.active + 1
    ensures CountExact(s')
  {
    assert ReadyNames(s') == ReadyNames(s) + {name};
  }

  lemma CountLowered(s: Shared, s': Shared, name: Name)
    requires IndexTyped(s) && IndexTyped(s') && CountExact(s)
    requires name in s.services && s'.services == s.services - {name}
    requires forall n :: n in s'.services ==> At(s', n) == At(s, n)
    requires At(s, name).ready && s'.active == s.active - 1
    ensures CountExact(s')
  {
    assert ReadyNames(s') == ReadyNames(s) - {name};
  }

  lemma JoinKeeps(s: Shared, r: nat, b: Backend)
    requires IndexInv(s) && r < |s.recs| && Indexed(s, r) && Serving(s.recs[r])
    ensures IndexInv(Join(s, r, b))
  {
    JoinStructure(s, r, b);
    JoinKeys(s, r, b);
    JoinGauges(s, r, b);
  }

  lemma JoinStructure(s: Shared, r: nat, b: Backend)
    requires Structure(s) && r < |s.recs| && Indexed(s, r) && Serving(s.recs[r])
    ensures Structure(Join(s, r, b))
  {
  }

  lemma JoinKeys(s: Shared, r: nat, b: Backend)
    requires IndexTyped(s) && KeysServed(s) && r < |s.recs| && Indexed(s, r) && Serving(s.recs[r])
    requires IndexTyped(Join(s, r, b))
    ensures KeysServed(Join(s, r, b))
  {
    var s' := Join(s, r, b);
    HasKeyAppend(s.recs[r].pool, b);
    forall k | k in s'.byKey
      ensures KeyServed(s', k, s'.byKey[k])
    {
      if k != b.key {
        assert KeyServed(s, k, s.byKey[k]);
      }
    }
  }

  lemma JoinGauges(s: Shared, r: nat, b: Backend)
    requires IndexTyped(s) && GaugesExact(s) && r < |s.recs| && Indexed(s, r) && Serving(s.recs[r])
    requires IndexTyped(Join(s, r, b))
    ensures GaugesExact(Join(s, r, b))
  {
    SeriesSet(s, Join(s, r, b), s.recs[r].name);
    CountKept(s, Join(s, r, b), s.recs[r].name);
  }

  lemma HasKeyAppend(pool: seq<Backend>, b: Backend)
    ensures forall q :: HasKey(pool + [b], q) <==> HasKey(pool, q) || q == b.key
  {
    forall q
      ensures HasKey(pool + [b], q) <==> HasKey(pool, q) || q == b.key
    {
      var out := pool + [b];
      assert out[|pool|] == b;
      if HasKey(pool, q) {
        var i :| 0 <= i < |pool| && pool[i].key == q;
        assert out[i].key == q;
      }
    }
  }

  lemma ReleaseKeeps(s: Shared, r: nat)
    requires IndexInv(s) && r < |s.recs| && s.recs[r].advertised == 0
    ensures IndexInv(Release(s, r))
  {
    ReleaseStructure(s, r);
    ReleaseViews(s, r);
  }

  lemma ReleaseStructure(s: Shared, r: nat)
    requires Structure(s) && r < |s.recs| && s.recs[r].advertised == 0
    ensures Structure(Release(s, r))
  {
  }

  lemma ReleaseViews(s: Shared, r: nat)
    requires IndexTyped(s) && KeysServed(s) && GaugesExact(s) && r < |s.recs| && !s.recs[r].ready
    requires IndexTyped(Release(s, r))
    ensures KeysServed(Release(s, r)) && GaugesExact(Release(s, r))
  {
    var s' := Release(s, r);
    assert forall n :: n in s'.services ==> At(s', n) == At(s, n);
    assert ReadyNames(s') == ReadyNames(s);
    forall k | k in s'.byKey
      ensures KeyServed(s', k, s'.byKey[k])
    {
      assert KeyServed(s, k, s.byKey[k]);
    }
  }

  lemma PublishKeeps(s: Shared, r: nat, b: Backend)
    requires IndexInv(s) && r < |s.recs| && s.recs[r].advertised == 0 && ListenerOpen(s.recs[r])
    ensures IndexInv(Publish(s, r, b).0)
  {
    if s.shutdown {
      ReleaseKeeps(s, r);
    } else {
      PublishStructure(s, r, b);
      PublishKeys(s, r, b);
      PublishGauges(s, r, b);
    }
  }

  lemma PublishStructure(s: Shared, r: nat, b: Backend)
    requires Structure(s) && !s.shutdown && r < |s.recs|
    requires s.recs[r].advertised == 0 && ListenerOpen(s.recs[r])
    ensures Structure(Publish(s, r, b).0) && Indexed(s, r)
  {
  }

  lemma PublishKeys(s: Shared, r: nat, b: Backend)
    requires IndexTyped(s) && KeysServed(s) && !s.shutdown
    requires r < |s.recs| && Indexed(s, r) && s.recs[r].withdrawing.None?
    requires IndexTyped(Publish(s, r, b).0)
    ensures KeysServed(Publish(s, r, b).0)
  {
    var (s', _) := Publish(s, r, b);
    HasKeyAppend(s.recs[r].pool, b);
    forall k | k in s'.byKey
      ensures KeyServed(s', k, s'.byKey[k])
    {
      if k != b.key {
        assert KeyServed(s, k, s.byKey[k]);
      }
    }
  }

  lemma PublishGauges(s: Shared, r: nat, b: Backend)
    requires IndexTyped(s) && GaugesExact(s) && !s.shutdown
    requires r < |s.recs| && Indexed(s, r) && !s.recs[r].ready
    requires IndexTyped(Publish(s, r, b).0)
    ensures GaugesExact(Publish(s, r, b).0)
  {
    SeriesSet(s, Publish(s, r, b).0, s.recs[r].name);
    CountRaised(s, Publish(s, r, b).0, s.recs[r].name);
  }

  lemma DeregisterKeeps(s: Shared, key: Key)
    requires IndexInv(s)
    ensures IndexInv(Deregister(s, key).0)
  {
    if key in s.byKey {
      assert KeyServed(s, key, s.byKey[key]);
      DeregisterStructure(s, key);
      DeregisterKeys(s, key);
      DeregisterGauges(s, key);
    }
  }

  lemma DeregisterStructure(s: Shared, key: Key)
    requires Structure(s) && key in s.byKey && KeyServed(s, key, s.byKey[key])
    ensures Structure(Deregister(s, key).0)
  {
  }

  lemma DeregisterKeys(s: Shared, key: Key)
    requires IndexTyped(s) && KeysServed(s) && key in s.byKey
    requires IndexTyped(Deregister(s, key).0)
    ensures KeysServed(Deregister(s, key).0)
  {
    var (s', _) := Deregister(s, key);
    assert KeyServed(s, key, s.byKey[key]);
    forall k | k in s'.byKey
      ensures KeyServed(s', k, s'.byKey[k])
    {
      assert KeyServed(s, k, s.byKey[k]);
    }
  }

  lemma DeregisterGauges(s: Shared, key: Key)
    requires IndexTyped(s) && GaugesExact(s) && key in s.byKey && KeyServed(s, key, s.byKey[key])
    requires IndexTyped(Deregister(s, key).0)
    ensures GaugesExact(Deregister(s, key).0)
  {
    var (s', emptied) := Deregister(s, key);
    var name := s.byKey[key];
    if emptied.None? {
      SeriesSet(s, s', name);
    } else {
      SeriesKept(s, s', name);
    }
    CountKept(s, s', name);
  }

  lemma FinishKeeps(s: Shared, r: nat)
    requires IndexInv(s) && r < |s.recs| && s.recs[r].withdrawing == Some(0)
    ensures IndexInv(FinishWithdrawal(s, r))
  {
    FinishStructure(s, r);
    FinishKeys(s, r);
    FinishGauges(s, r);
  }

  lemma FinishStructure(s: Shared, r: nat)
    requires Structure(s) && r < |s.recs| && s.recs[r].withdrawing == Some(0)
    ensures Structure(FinishWithdrawal(s, r))
  {
  }

  lemma FinishKeys(s: Shared, r: nat)
    requires IndexTyped(s) && KeysServed(s) && r < |s.recs| && s.recs[r].withdrawing == Some(0)
    requires IndexTyped(FinishWithdrawal(s, r))
    ensures KeysServed(FinishWithdrawal(s, r))
  {
    var s' := FinishWithdrawal(s, r);
    forall k | k in s'.byKey
      ensures KeyServed(s', k, s'.byKey[k])
    {
      assert KeyServed(s, k, s.byKey[k]);
    }
  }

  lemma FinishGauges(s: Shared, r: nat)
    requires IndexTyped(s) && GaugesExact(s) && r < |s.recs|
    requires s.recs[r].withdrawing == Some(0) && s.recs[r].ready
    requires IndexTyped(FinishWithdrawal(s, r))
    ensures GaugesExact(FinishWithdrawal(s, r))
  {
    FinishSeries(s, r);
    FinishCount(s, r);
  }

  lemma FinishSeries(s: Shared, r: nat)
    requires IndexTyped(s) && SeriesExact(s) && r < |s.recs|
    requires s.recs[r].withdrawing == Some(0) && s.recs[r].ready
    requires IndexTyped(FinishWithdrawal(s, r))
    ensures SeriesExact(FinishWithdrawal(s, r))
  {
    var s' := FinishWithdrawal(s, r);
    assert forall n :: n in s'.services ==> At(s', n) == At(s, n);
  }

  lemma FinishCount(s: Shared, r: nat)
    requires IndexTyped(s) && CountExact(s) && r < |s.recs|
    requires s.recs[r].withdrawing == Some(0) && s.recs[r].ready
    requires IndexTyped(FinishWithdrawal(s, r))
    ensures CountExact(FinishWithdrawal(s, r))
  {
    var s' := FinishWithdrawal(s, r);
    assert forall n :: n in s'.services ==> At(s', n) == At(s, n);
    if Indexed(s, r) {
      CountLowered(s, s', s.recs[r].name);
    } else {
      assert ReadyNames(s') == ReadyNames(s);
    }
  }

  lemma ShutKeeps(s: Shared)
    requires IndexInv(s)
    ensures IndexInv(Shut(s))
  {
    assert ReadyNames(Shut(s)) == {};
  }

  lemma OpenedKeeps(s: Shared, r: nat)
    requires IndexInv(s) && r < |s.recs| && s.recs[r].opens == 0
    ensures IndexInv(Opened(s, r))
  {
    assert Structure(Opened(s, r));
    ListenerFrame(s, Opened(s, r));
  }

  lemma TornDownKeeps(s: Shared, r: nat)
    requires IndexInv(s) && r < |s.recs| && ListenerOpen(s.recs[r])
    ensures IndexInv(TornDown(s, r))
  {
    assert Structure(TornDown(s, r));
    ListenerFrame(s, TornDown(s, r));
  }

  /** What happens to listeners is invisible to the key index and to the gauges. */
  lemma ListenerFrame(s: Shared, s': Shared)
    requires IndexTyped(s) && IndexTyped(s') && s'.(recs := s.recs) == s
    requires forall n :: n in s.services ==>
      At(s', n).(opens := 0, tears := 0) == At(s, n).(opens := 0, tears := 0)
    requires KeysServed(s) && GaugesExact(s)
    ensures KeysServed(s') && GaugesExact(s')
  {
    assert ReadyNames(s') == ReadyNames(s);
    forall k | k in s'.byKey
      ensures KeyServed(s', k, s'.byKey[k])
    {
      assert KeyServed(s, k, s.byKey[k]);
    }
  }
}
