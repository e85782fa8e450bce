/**
 Agreement of the two indexes. The key index and the pools say the same thing provided that, at
 any time, the registrations in flight for one key all name one service; `advertise` relies on it,
 because it does not look at the key index again when it publishes.
 */
module ProtocolAgreement {
  import opened Options
  import opened ServiceIndex
  import opened Protocol
  import opened ProtocolInvariant
  import opened ProtocolRuns

  /** No two members of a pool have the same key. */
  predicate KeysDistinct(pool: seq<Backend>) {
    forall i, j :: 0 <= i < j < |pool| ==> pool[i].key != pool[j].key
  }

  /** Every member of this pool is in the key index, once and under this service. */
  ghost predicate PoolIndexed(s: Shared, rec: Record) {
    && KeysDistinct(rec.pool)
    && (forall b :: b in rec.pool ==> b.key in s.byKey && s.byKey[b.key] == rec.name)
  }

  ghost predicate Agree(s: Shared) {
    !s.shutdown ==> forall r :: 0 <= r < |s.recs| && Serving(s.recs[r]) ==> PoolIndexed(s, s.recs[r])
  }

  predicate InFlight(pc: Pc) {
    pc.RegEnter? || pc.RegWait? || pc.Listening? || pc.Abandoning? || pc.Publishing?
  }

  /** The hypothesis on callers: in-flight registrations of one key name one service. */
  ghost predicate OneServicePerKey(ths: seq<Thread>) {
    forall t, u | 0 <= t < |ths| && 0 <= u < |ths| ::
      (&& InFlight(ths[t].pc) && IsRegistration(ths[t].call)
       && InFlight(ths[u].pc) && IsRegistration(ths[u].call)
       && ths[t].call.key == ths[u].call.key)
      ==> DefOf(ths[t].call).service == DefOf(ths[u].call).service
  }

  predicate Advertising(pc: Pc) {
    pc.Listening? || pc.Abandoning? || pc.Publishing?
  }

  /** The key of a registration that is opening a listener is not in the key index yet. */
  ghost predicate ClaimsUnindexed(s: Shared, ths: seq<Thread>) {
    !s.shutdown ==> forall t :: 0 <= t < |ths| && Advertising(ths[t].pc) && IsRegistration(ths[t].call) ==>
      ths[t].call.key !in s.byKey
  }

  ghost predicate AgreeInv(st: State) {
    Agree(st.sh) && ClaimsUnindexed(st.sh, st.threads)
  }

  // ------------------------------------------------------------------ each change of the key index

  lemma JoinAgrees(s: Shared, r: nat, b: Backend)
    requires Structure(s) && Agree(s) && !s.shutdown && r < |s.recs| && Serving(s.recs[r])
    requires b.key !in s.byKey
    ensures Agree(Join(s, r, b))
  {
    var s' := Join(s, r, b);
    forall q | 0 <= q < |s'.recs| && Serving(s'.recs[q])
      ensures PoolIndexed(s', s'.recs[q])
    {
      assert PoolIndexed(s, s.recs[q]);
      if q == r {
        NewKeyDistinct(s.recs[r].pool, b);
      }
    }
  }

  lemma NewKeyDistinct(pool: seq<Backend>, b: Backend)
    requires KeysDistinct(pool) && forall c :: c in pool ==> c.key != b.key
    ensures KeysDistinct(pool + [b])
  {
    forall i, j | 0 <= i < j < |pool + [b]|
      ensures (pool + [b])[i].key != (pool + [b])[j].key
    {
      if j == |pool| {
        assert pool[i] in pool;
      }
    }
  }

  lemma PublishAgrees(s: Shared, r: nat, b: Backend)
    requires Structure(s) && Agree(s) && !s.shutdown && r < |s.recs| && s.recs[r].advertised == 0
    requires b.key !in s.byKey
    ensures Agree(Publish(s, r, b).0)
  {
    var (s', _) := Publish(s, r, b);
    assert RecordOk(s.recs[r]);
    forall q | 0 <= q < |s'.recs| && Serving(s'.recs[q])
      ensures PoolIndexed(s', s'.recs[q])
    {
      if q != r {
        assert PoolIndexed(s, s.recs[q]);
      }
    }
  }

  /** Publishing keeps the indexes in agreement exactly when the key is not indexed already. */
  lemma PublishAgreesIff(s: Shared, r: nat, b: Backend)
    requires IndexInv(s) && Agree(s) && !s.shutdown && r < |s.recs| && s.recs[r].advertised == 0
    ensures Agree(Publish(s, r, b).0) <==> b.key !in s.byKey
  {
    if b.key !in s.byKey {
      PublishAgrees(s, r, b);
    } else {
      var (s', _) := Publish(s, r, b);
      var n := s.byKey[b.key];
      assert KeyServed(s, b.key, n);
      var q := s.services[n];
      assert RecordOk(s.recs[r]) && Serving(s.recs[q]);
      assert s'.recs[q] == s.recs[q] && q != r;
      assert Indexed(s, r) && n != s.recs[r].name;
      var i :| 0 <= i < |s.recs[q].pool| && s.recs[q].pool[i].key == b.key;
      var c := s.recs[q].pool[i];
      assert c in s'.recs[q].pool && s'.byKey[c.key] != s'.recs[q].name;
      assert !PoolIndexed(s', s'.recs[q]);
    }
  }

  lemma DeregisterAgrees(s: Shared, key: Key)
    requires Structure(s) && Agree(s) && !s.shutdown && key in s.byKey && KeyServed(s, key, s.byKey[key])
    ensures Agree(ServiceIndex.Deregister(s, key).0)
  {
    var (s', _) := ServiceIndex.Deregister(s, key);
    var r := s.services[s.byKey[key]];
    WithoutDistinct(s.recs[r].pool, key);
    forall q | 0 <= q < |s'.recs| && Serving(s'.recs[q])
      ensures PoolIndexed(s', s'.recs[q])
    {
      assert PoolIndexed(s, s.recs[q]);
      if q != r {
        OtherNames(s, q, r);
      }
    }
  }

  lemma OtherNames(s: Shared, q: nat, r: nat)
    requires Structure(s) && !s.shutdown && q < |s.recs| && r < |s.recs| && q != r
    requires Live(s.recs[q]) && Live(s.recs[r])
    ensures s.recs[q].name != s.recs[r].name
  {
    assert Indexed(s, q) && Indexed(s, r);
  }

  lemma {:induction false} WithoutDistinct(pool: seq<Backend>, k: Key)
    requires KeysDistinct(pool)
    ensures KeysDistinct(Without(pool, k))
  {
    if pool != [] {
      WithoutDistinct(pool[1..], k);
      var rest := Without(pool[1..], k);
      if pool[0].key != k {
        forall j | 0 <= j < |rest|
          ensures rest[j].key != pool[0].key
        {
          assert rest[j] in rest;
          var i :| 0 <= i < |pool[1..]| && pool[1..][i] == rest[j];
          assert pool[i + 1] == rest[j];
        }
      }
    }
  }

  // ------------------------------------------------------------------ every step, under the hypothesis

  /** Two claims, or a claim and a serving record, never share a key while the hypothesis holds. */
  lemma ClaimKeyStaysOut(st: State, t: nat, r: nat, u: nat)
    requires Inv(st) && OneServicePerKey(st.threads) && !st.sh.shutdown
    requires t < |st.threads| && u < |st.threads| && t != u
    requires IsRegistration(st.threads[t].call) && IsRegistration(st.threads[u].call)
    requires InFlight(st.threads[t].pc) && Advertising(st.threads[u].pc)
    requires r < |st.sh.recs| && st.sh.recs[r].name == DefOf(st.threads[t].call).service
    requires (st.threads[t].pc.RegEnter? && Serving(st.sh.recs[r])) || st.threads[t].pc == Publishing(r)
    ensures st.threads[u].call.key != st.threads[t].call.key
  {
    var q := st.threads[u].pc.rec;
    assert ThreadOk(st.sh, st.threads[u]) && ThreadOk(st.sh, st.threads[t]);
    assert RecordOk(st.sh.recs[r]) && RecordOk(st.sh.recs[q]);
    if st.threads[t].pc == Publishing(r) {
      HoldersDiffer(st.threads, t, u, r, q);
    }
    OtherNames(st.sh, q, r);
  }

  lemma HoldersDiffer(ths: seq<Thread>, t: nat, u: nat, r: nat, q: nat)
    requires HeldApart(ths) && t < |ths| && u < |ths| && t != u
    requires r in Held(ths[t].pc) && q in Held(ths[u].pc)
    ensures r != q
  {
  }

  lemma EnterAgrees(st: State, t: nat, o: Oracle)
    requires Inv(st) && Typed(st) && OneServicePerKey(st.threads) && AgreeInv(st)
    requires Enabled(st, Run(t, o)) && st.threads[t].pc.RegEnter?
    ensures AgreeInv(Next(st, Run(t, o)))
  {
    var s, th := st.sh, st.threads[t];
    var (s', pc') := Act(s, th, t, o);
    var def := DefOf(th.call);
    if s.shutdown || th.call.key in s.byKey {
    } else if def.service !in s.services {
      SameKeysAgreeMore(s, Claim(s, def));
    } else if Serving(s.recs[s.services[def.service]]) {
      JoinStepAgrees(st, t, s.services[def.service]);
    }
    EnterKeysOut(st, t, o);
  }

  /** The keys of the threads that are opening listeners, after thread t has been through the
      top of the loop. */
  lemma EnterKeysOut(st: State, t: nat, o: Oracle)
    requires Inv(st) && Typed(st) && OneServicePerKey(st.threads) && AgreeInv(st)
    requires Enabled(st, Run(t, o)) && st.threads[t].pc.RegEnter?
    ensures ClaimsUnindexed(Next(st, Run(t, o)).sh, Next(st, Run(t, o)).threads)
  {
    var s, th := st.sh, st.threads[t];
    var def := DefOf(th.call);
    var (s', pc') := Act(s, th, t, o);
    if !s.shutdown && th.call.key !in s.byKey && def.service in s.services
       && Serving(s.recs[s.services[def.service]]) {
      JoinStepAgrees(st, t, s.services[def.service]);
    }
    EnteredOut(s, s', st.threads, t, pc', o);
  }

  lemma EnteredOut(s: Shared, s': Shared, ths: seq<Thread>, t: nat, pc': Pc, o: Oracle)
    requires IndexTyped(s) && t < |ths| && PcTyped(s, ths[t]) && ths[t].pc.RegEnter?
    requires ClaimsUnindexed(s, ths) && (s', pc') == Act(s, ths[t], t, o)
    requires s'.byKey != s.byKey ==> ClaimsUnindexed(s', ths)
    ensures ClaimsUnindexed(s', ths[t := Thread(ths[t].call, pc')])
  {
  }

  lemma SameKeysAgreeMore(s: Shared, s': Shared)
    requires Agree(s) && !s.shutdown && s'.byKey == s.byKey && |s'.recs| == |s.recs| + 1
    requires s'.recs[..|s.recs|] == s.recs && !Serving(s'.recs[|s.recs|])
    ensures Agree(s')
  {
    forall q | 0 <= q < |s'.recs| && Serving(s'.recs[q])
      ensures PoolIndexed(s', s'.recs[q])
    {
      assert s'.recs[q] == s'.recs[..|s.recs|][q];
      assert PoolIndexed(s, s.recs[q]);
    }
  }

  lemma JoinStepAgrees(st: State, t: nat, r: nat)
    requires Inv(st) && OneServicePerKey(st.threads) && AgreeInv(st) && !st.sh.shutdown
    requires t < |st.threads| && st.threads[t].pc.RegEnter? && IsRegistration(st.threads[t].call)
    requires r < |st.sh.recs| && Serving(st.sh.recs[r])
    requires st.sh.recs[r].name == DefOf(st.threads[t].call).service
    requires st.threads[t].call.key !in st.sh.byKey
    ensures Agree(Join(st.sh, r, BackendOf(st.threads[t].call, t)))
    ensures ClaimsUnindexed(Join(st.sh, r, BackendOf(st.threads[t].call, t)), st.threads)
  {
    JoinAgrees(st.sh, r, BackendOf(st.threads[t].call, t));
    forall u | 0 <= u < |st.threads| && Advertising(st.threads[u].pc) && IsRegistration(st.threads[u].call)
      ensures st.threads[u].call.key != st.threads[t].call.key
    {
      ClaimKeyStaysOut(st, t, r, u);
    }
  }

  lemma PublishStepAgrees(st: State, t: nat, o: Oracle)
    requires Inv(st) && Typed(st) && OneServicePerKey(st.threads) && AgreeInv(st)
    requires Enabled(st, Run(t, o)) && st.threads[t].pc.Publishing?
    ensures AgreeInv(Next(st, Run(t, o)))
  {
    var s, th := st.sh, st.threads[t];
    assert ThreadOk(s, th);
    if !s.shutdown {
      var r, b := th.pc.rec, BackendOf(th.call, t);
      PublishAgrees(s, r, b);
      forall u | 0 <= u < |st.threads| && u != t && Advertising(st.threads[u].pc)
        && IsRegistration(st.threads[u].call)
        ensures st.threads[u].call.key != b.key
      {
        ClaimKeyStaysOut(st, t, r, u);
      }
    }
  }

  lemma DeregStepAgrees(st: State, t: nat, o: Oracle)
    requires Inv(st) && Typed(st) && AgreeInv(st)
    requires Enabled(st, Run(t, o)) && st.threads[t].pc.DeregEnter?
    ensures AgreeInv(Next(st, Run(t, o)))
  {
    var s, key := st.sh, st.threads[t].call.key;
    if key in s.byKey {
      assert KeyServed(s, key, s.byKey[key]);
      DeregisterAgrees(s, key);
    }
  }

  lemma OtherStepAgrees(st: State, t: nat, o: Oracle)
    requires Inv(st) && Typed(st) && AgreeInv(st) && Enabled(st, Run(t, o))
    requires
      var pc := st.threads[t].pc;
      !pc.RegEnter? && !pc.Publishing? && !pc.DeregEnter?
    ensures AgreeInv(Next(st, Run(t, o)))
  {
    var (s', pc') := Act(st.sh, st.threads[t], t, o);
    KeysUntouched(st.sh, st.threads[t], t, o);
    SameKeysAgree(st.sh, s');
    ClaimsStayOut(st.sh, s', st.threads, t, pc');
  }

  lemma ClaimsStayOut(s: Shared, s': Shared, ths: seq<Thread>, t: nat, pc': Pc)
    requires ClaimsUnindexed(s, ths) && t < |ths| && SameKeys(s, s')
    requires Advertising(pc') ==> Advertising(ths[t].pc)
    ensures ClaimsUnindexed(s', ths[t := Thread(ths[t].call, pc')])
  {
  }

  ghost predicate SameKeys(s: Shared, s': Shared) {
    !s'.shutdown ==>
      && !s.shutdown && s'.byKey == s.byKey && |s'.recs| == |s.recs|
      && forall q :: 0 <= q < |s.recs| ==>
           s'.recs[q].pool == s.recs[q].pool && s'.recs[q].name == s.recs[q].name
           && (Serving(s'.recs[q]) ==> Serving(s.recs[q]))
  }

  lemma SameKeysAgree(s: Shared, s': Shared)
    requires SameKeys(s, s') && Agree(s)
    ensures Agree(s')
  {
    if !s'.shutdown {
      forall q | 0 <= q < |s'.recs| && Serving(s'.recs[q])
        ensures PoolIndexed(s', s'.recs[q])
      {
        assert PoolIndexed(s, s.recs[q]);
      }
    }
  }

  lemma KeysUntouched(s: Shared, th: Thread, t: nat, o: Oracle)
    requires Structure(s) && ThreadOk(s, th) && !th.pc.Done?
    requires !th.pc.RegEnter? && !th.pc.Publishing? && !th.pc.DeregEnter?
    ensures SameKeys(s, Act(s, th, t, o).0)
    ensures Advertising(Act(s, th, t, o).1) ==> Advertising(th.pc)
  {
    if LockOf(th.pc) == ServeMu {
      EditsKeepKeys(s, th, t, o);
    }
  }

  lemma EditsKeepKeys(s: Shared, th: Thread, t: nat, o: Oracle)
    requires IndexTyped(s) && PcTyped(s, th) && LockOf(th.pc) == ServeMu
    requires !th.pc.Publishing?
    ensures SameKeys(s, Act(s, th, t, o).0)
    ensures Advertising(Act(s, th, t, o).1) ==> Advertising(th.pc)
  {
  }

  lemma StepKeepsAgreement(st: State, l: Label)
    requires Inv(st) && Typed(st) && OneServicePerKey(st.threads) && AgreeInv(st) && Enabled(st, l)
    ensures AgreeInv(Next(st, l))
  {
    match l
    case Invoke(call) =>
    case Acquire(_) =>
    case Run(t, o) =>
      match st.threads[t].pc
      case RegEnter => EnterAgrees(st, t, o);
      case Publishing(_) => PublishStepAgrees(st, t, o);
      case DeregEnter => DeregStepAgrees(st, t, o);
      case _ => OtherStepAgrees(st, t, o);
  }

  lemma {:induction false} RunAgrees(states: seq<State>, labels: seq<Label>, i: nat)
    requires IsRun(states, labels) && i < |states|
    requires forall j :: 0 <= j < i ==> OneServicePerKey(states[j].threads)
    ensures Inv(states[i]) && AgreeInv(states[i])
  {
    RunInv(states, labels, i);
    if i > 0 {
      RunAgrees(states, labels, i - 1);
      assert Step(states[i - 1], labels[i - 1], states[i]);
      StepKeepsAgreement(states[i - 1], labels[i - 1]);
    }
  }

  /** Index agreement, both ways: a key is indexed under n exactly when n is serving with exactly
      one member of that key, no key is in two pools, and an indexed record has a non-empty pool
      exactly when it is serving. */
  lemma IndexesAgree(states: seq<State>, labels: seq<Label>, i: nat)
    requires IsRun(states, labels) && i < |states| && !states[i].sh.shutdown
    requires forall j :: 0 <= j < i ==> OneServicePerKey(states[j].threads)
    ensures IndexTyped(states[i].sh)
    ensures forall k, n :: (k in states[i].sh.byKey && states[i].sh.byKey[k] == n) <==>
      (n in states[i].sh.services && Serving(At(states[i].sh, n)) && HasKey(At(states[i].sh, n).pool, k))
    ensures forall n :: n in states[i].sh.services ==>
      (Serving(At(states[i].sh, n)) <==> At(states[i].sh, n).pool != [])
    ensures forall n :: n in states[i].sh.services ==> KeysDistinct(At(states[i].sh, n).pool)
  {
    RunAgrees(states, labels, i);
    var s := states[i].sh;
    forall k, n
      ensures (k in s.byKey && s.byKey[k] == n) <==>
              (n in s.services && Serving(At(s, n)) && HasKey(At(s, n).pool, k))
    {
      AgreeBothWays(s, k, n);
    }
    forall n | n in s.services
      ensures (Serving(At(s, n)) <==> At(s, n).pool != []) && KeysDistinct(At(s, n).pool)
    {
      assert RecordOk(s.recs[s.services[n]]);
      if Serving(At(s, n)) {
        assert PoolIndexed(s, s.recs[s.services[n]]);
      }
    }
  }

  lemma AgreeBothWays(s: Shared, k: Key, n: Name)
    requires IndexInv(s) && Agree(s) && !s.shutdown
    ensures (k in s.byKey && s.byKey[k] == n) <==>
            (n in s.services && Serving(At(s, n)) && HasKey(At(s, n).pool, k))
  {
    if k in s.byKey {
      assert KeyServed(s, k, s.byKey[k]);
    }
    if n in s.services && Serving(At(s, n)) && HasKey(At(s, n).pool, k) {
      var i :| 0 <= i < |At(s, n).pool| && At(s, n).pool[i].key == k;
      assert PoolIndexed(s, s.recs[s.services[n]]);
      assert At(s, n).pool[i] in At(s, n).pool;
    }
  }

  // ------------------------------------------------------------------ without the hypothesis

  /** A run, one step longer. */
  lemma OneStep(states: seq<State>, labels: seq<Label>, l: Label) returns (states': seq<State>, labels': seq<Label>)
    requires IsRun(states, labels) && Typed(states[|labels|]) && Enabled(states[|labels|], l)
    ensures IsRun(states', labels') && states <= states' && |labels'| == |labels| + 1
    ensures states'[|labels'|] == Next(states[|labels|], l)
  {
    labels' := labels + [l];
    states' := states + [Next(states[|labels|], l)];
    forall i | 0 <= i < |labels'|
      ensures Step(states'[i], labels'[i], states'[i + 1])
    {
      if i < |labels| {
        assert Step(states[i], labels[i], states[i + 1]);
      }
    }
  }

  /** One whole turn of a thread that needs a lock, both locks being free: take it and act. */
  lemma Turn(states: seq<State>, labels: seq<Label>, t: nat, s': Shared, pc': Pc)
    returns (states': seq<State>, labels': seq<Label>)
    requires IsRun(states, labels)
    requires
      var st := states[|labels|];
      && st.mu.None? && st.serveMu.None? && t < |st.threads| && LockOf(st.threads[t].pc) != Neither
      && !st.threads[t].pc.CloseEnter? && IndexTyped(st.sh) && PcTyped(st.sh, st.threads[t])
      && Act(st.sh, st.threads[t], t, Oracle(ListenOk, [])) == (s', pc')
    ensures IsRun(states', labels') && states <= states'
    ensures
      var ths := states[|labels|].threads;
      states'[|labels'|] == State(s', ths[t := Thread(ths[t].call, pc')], None, None)
  {
    RunTypedAt(states, labels, |labels|);
    var states1, labels1 := OneStep(states, labels, Acquire(t));
    RunTypedAt(states1, labels1, |labels1|);
    states', labels' := OneStep(states1, labels1, Run(t, Oracle(ListenOk, [])));
  }

  lemma RunTypedAt(states: seq<State>, labels: seq<Label>, i: nat)
    requires IsRun(states, labels) && i < |states|
    ensures Typed(states[i])
  {
    RunInv(states, labels, i);
    InvTyped(states[i]);
  }

  const FOR_A := HostPort("k", Def("a", "http", []), "10.0.0.1:80")
  const FOR_B := HostPort("k", Def("b", "http", []), "10.0.0.2:80")

  function Row(name: Name, pool: seq<Backend>, opens: nat): Record {
    Record(name, "http", [], pool, pool != [], |pool|, None, opens, 0)
  }

  function After(recs: seq<Record>, byKey: map<Key, Name>, active: int, series: map<Name, nat>): Shared {
    Shared(map["a" := 0, "b" := 1], byKey, false, recs, active, series)
  }

  lemma TwoCalls() returns (states: seq<State>, labels: seq<Label>)
    ensures IsRun(states, labels)
    ensures states[|labels|] == State(EMPTY, [Thread(FOR_A, RegEnter), Thread(FOR_B, RegEnter)], None, None)
  {
    labels := [Invoke(FOR_A), Invoke(FOR_B)];
    var s1 := State(EMPTY, [Thread(FOR_A, RegEnter)], None, None);
    var s2 := State(EMPTY, [Thread(FOR_A, RegEnter), Thread(FOR_B, RegEnter)], None, None);
    states := [INIT, s1, s2];
    assert s2.threads == s1.threads + [Thread(FOR_B, RegEnter)];
    assert Step(INIT, labels[0], s1) && Step(s1, labels[1], s2);
  }

  /** Two registrations of one key for two services, both opening a listener at once. */
  lemma TwoClaims() returns (states: seq<State>, labels: seq<Label>)
    ensures IsRun(states, labels)
    ensures states[|labels|] == State(
      After([Row("a", [], 0), Row("b", [], 0)], map[], 0, map[]),
      [Thread(FOR_A, Listening(0)), Thread(FOR_B, Listening(1))], None, None)
  {
    states, labels := TwoCalls();
    NamesAB();
    var one := Claim(EMPTY, FOR_A.def);
    states, labels := Turn(states, labels, 0, one, Listening(0));
    assert states[|labels|].threads == [Thread(FOR_A, Listening(0)), Thread(FOR_B, RegEnter)];
    var two := Claim(one, FOR_B.def);
    states, labels := Turn(states, labels, 1, two, Listening(1));
    assert states[|labels|].threads == [Thread(FOR_A, Listening(0)), Thread(FOR_B, Listening(1))];
    assert two.recs == [Row("a", [], 0), Row("b", [], 0)];
    assert two.services == map["a" := 0, "b" := 1];
  }

  lemma NamesAB()
    ensures "a" != "b"
  {
    assert "a"[0] != "b"[0];
  }

  lemma TwoOpen() returns (states: seq<State>, labels: seq<Label>)
    ensures IsRun(states, labels)
    ensures states[|labels|] == State(
      After([Row("a", [], 1), Row("b", [], 1)], map[], 0, map[]),
      [Thread(FOR_A, Publishing(0)), Thread(FOR_B, Publishing(1))], None, None)
  {
    states, labels := TwoClaims();
    NamesAB();
    var one := Opened(states[|labels|].sh, 0);
    states, labels := Turn(states, labels, 0, one, Publishing(0));
    assert states[|labels|].threads == [Thread(FOR_A, Publishing(0)), Thread(FOR_B, Listening(1))];
    var two := Opened(one, 1);
    states, labels := Turn(states, labels, 1, two, Publishing(1));
    assert states[|labels|].threads == [Thread(FOR_A, Publishing(0)), Thread(FOR_B, Publishing(1))];
    assert two.recs == [Row("a", [], 1), Row("b", [], 1)];
  }

  lemma TwoServed() returns (states: seq<State>, labels: seq<Label>, j: nat)
    ensures IsRun(states, labels) && j < |states|
    ensures states[j].threads == [Thread(FOR_A, Publishing(0)), Thread(FOR_B, Publishing(1))]
    ensures states[|labels|].threads == [Thread(FOR_A, Done(Some(Registered))), Thread(FOR_B, Done(Some(Registered)))]
    ensures
      var open := After([Row("a", [], 1), Row("b", [], 1)], map[], 0, map[]);
      states[|labels|].sh == Publish(Publish(open, 0, BackendOf(FOR_A, 0)).0, 1, BackendOf(FOR_B, 1)).0
  {
    states, labels := TwoOpen();
    NamesAB();
    j := |labels|;
    var one := Publish(states[j].sh, 0, BackendOf(FOR_A, 0)).0;
    states, labels := Turn(states, labels, 0, one, Done(Some(Registered)));
    assert states[|labels|].threads == [Thread(FOR_A, Done(Some(Registered))), Thread(FOR_B, Publishing(1))];
    var two := Publish(one, 1, BackendOf(FOR_B, 1)).0;
    states, labels := Turn(states, labels, 1, two, Done(Some(Registered)));
  }

  /** Without the hypothesis the indexes come apart: both calls return nil, the key is in two
      pools, and the key index knows one of them. */
  lemma TwoServicesForOneKeyDisagree() returns (states: seq<State>, labels: seq<Label>)
    ensures IsRun(states, labels) && !Agree(states[|labels|].sh)
    ensures AllDone(states[|labels|].threads)
    ensures exists j :: 0 <= j < |states| && !OneServicePerKey(states[j].threads)
  {
    var j;
    states, labels, j := TwoServed();
    NamesAB();
    assert !OneServicePerKey(states[j].threads) by {
      assert InFlight(states[j].threads[0].pc) && InFlight(states[j].threads[1].pc);
      assert DefOf(states[j].threads[0].call).service != DefOf(states[j].threads[1].call).service;
    }
    var s := states[|labels|].sh;
    assert Serving(s.recs[0]) && s.recs[0].pool == [BackendOf(FOR_A, 0)] && s.byKey["k"] == "b";
    assert BackendOf(FOR_A, 0) in s.recs[0].pool && !PoolIndexed(s, s.recs[0]);
  }
}
