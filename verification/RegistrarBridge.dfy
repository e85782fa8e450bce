/**
 The manager keeps the contract that the watchers rely on (class Registrar): seen through one key,
 whatever every other thread does in between, a registration that returns nil has put exactly its
 own backend there unless the key was held already, one that returns an error has changed nothing,
 and a deregistration has emptied it. One watcher drives each key, so during a call no other call
 touches that key; Close ends the manager and is not part of the contract.
 */
module RegistrarBridge {
  import opened Options
  import opened ServiceIndex
  import opened Protocol
  import opened ProtocolInvariant
  import opened ProtocolRuns
  import opened ProtocolMembers
  import opened ProtocolAgreement
  import L = Ledger

  /** What a key looks like from outside. */
  datatype Holding = Nothing | Under(service: Name, members: set<Backend>)

  function MembersOf(pool: seq<Backend>, k: Key): set<Backend> {
    set b | b in pool && b.key == k
  }

  ghost function Seen(s: Shared, k: Key): Holding
    requires IndexTyped(s)
  {
    if k !in s.byKey then Nothing
    else if s.byKey[k] !in s.services then Under(s.byKey[k], {})
    else Under(s.byKey[k], MembersOf(At(s, s.byKey[k]).pool, k))
  }

  predicate Drives(c: Call, k: Key) {
    !c.Close? && c.key == k
  }

  // ------------------------------------------------------------------ steps of other threads

  /** An action that edits no key: the same keys, the same pools, no service renamed. */
  lemma UnkeyedStep(s: Shared, th: Thread, t: nat, o: Oracle, s': Shared, pc': Pc, k: Key)
    requires IndexInv(s) && IndexInv(s') && ThreadOk(s, th) && !th.pc.Done? && !th.pc.CloseEnter?
    requires !th.pc.RegEnter? && !th.pc.Publishing? && !th.pc.DeregEnter?
    requires (s', pc') == Act(s, th, t, o)
    ensures Seen(s', k) == Seen(s, k)
  {
    OtherActsKeepPools(s, th, t, o);
    UnkeyedIndex(s, th, t, o, s', pc');
    if k in s.byKey {
      assert KeyServed(s, k, s.byKey[k]) && KeyServed(s', k, s'.byKey[k]);
    }
  }

  lemma UnkeyedIndex(s: Shared, th: Thread, t: nat, o: Oracle, s': Shared, pc': Pc)
    requires IndexTyped(s) && PcTyped(s, th) && !th.pc.CloseEnter?
    requires !th.pc.RegEnter? && !th.pc.Publishing? && !th.pc.DeregEnter?
    requires (s', pc') == Act(s, th, t, o)
    ensures s'.byKey == s.byKey && Shrinks(s.services, s'.services)
  {
    if LockOf(th.pc) == ServeMu {
      EditIndex(s, th, t, o);
    }
  }

  /** No name is added, and none leads to another record. */
  predicate Shrinks(m: map<Name, nat>, m': map<Name, nat>) {
    forall n :: n in m' ==> n in m && m'[n] == m[n]
  }

  lemma EditIndex(s: Shared, th: Thread, t: nat, o: Oracle)
    requires IndexTyped(s) && PcTyped(s, th) && LockOf(th.pc) == ServeMu
    ensures Act(s, th, t, o).0.byKey == s.byKey && Act(s, th, t, o).0.services == s.services
  {
  }

  lemma JoinSeen(s: Shared, r: nat, b: Backend, k: Key)
    requires IndexTyped(s) && r < |s.recs| && b.key != k
    ensures IndexTyped(Join(s, r, b)) && Seen(Join(s, r, b), k) == Seen(s, k)
  {
    var s' := Join(s, r, b);
    assert MembersOf(s'.recs[r].pool, k) == MembersOf(s.recs[r].pool, k);
  }

  lemma ClaimSeen(s: Shared, def: Def, k: Key)
    requires IndexTyped(s) && KeysServed(s) && def.service !in s.services
    ensures IndexTyped(Claim(s, def)) && Seen(Claim(s, def), k) == Seen(s, k)
  {
    if k in s.byKey {
      assert KeyServed(s, k, s.byKey[k]);
    }
  }

  lemma PublishSeen(s: Shared, r: nat, b: Backend, k: Key)
    requires IndexInv(s) && r < |s.recs| && s.recs[r].advertised == 0 && b.key != k
    ensures IndexTyped(Publish(s, r, b).0) && Seen(Publish(s, r, b).0, k) == Seen(s, k)
  {
    assert RecordOk(s.recs[r]);
    if k in s.byKey {
      assert KeyServed(s, k, s.byKey[k]);
    }
  }

  lemma WithoutSeen(s: Shared, key: Key, k: Key)
    requires IndexTyped(s) && key != k
    ensures IndexTyped(ServiceIndex.Deregister(s, key).0)
    ensures Seen(ServiceIndex.Deregister(s, key).0, k) == Seen(s, k)
  {
    if key in s.byKey && s.byKey[key] in s.services {
      var pool := At(s, s.byKey[key]).pool;
      assert MembersOf(Without(pool, key), k) == MembersOf(pool, k);
    }
  }

  /** No action for another key shows through k. */
  lemma OtherKeyStep(s: Shared, th: Thread, t: nat, o: Oracle, s': Shared, pc': Pc, k: Key)
    requires IndexInv(s) && IndexInv(s') && ThreadOk(s, th) && !th.pc.Done? && !th.pc.CloseEnter?
    requires !Drives(th.call, k)
    requires (s', pc') == Act(s, th, t, o)
    ensures Seen(s', k) == Seen(s, k)
  {
    match th.pc
    case RegEnter => EnterSeen(s, th, t, o, s', pc', k);
    case Publishing(r) => PublishSeen(s, r, BackendOf(th.call, t), k);
    case DeregEnter => WithoutSeen(s, th.call.key, k);
    case _ => UnkeyedStep(s, th, t, o, s', pc', k);
  }

  lemma EnterSeen(s: Shared, th: Thread, t: nat, o: Oracle, s': Shared, pc': Pc, k: Key)
    requires IndexTyped(s) && KeysServed(s) && PcTyped(s, th) && th.pc.RegEnter?
    requires th.call.key != k || (pc' != Done(Some(Registered)))
    requires (s', pc') == Act(s, th, t, o)
    ensures IndexTyped(s') && Seen(s', k) == Seen(s, k)
  {
    var def, b := DefOf(th.call), BackendOf(th.call, t);
    if s.shutdown || b.key in s.byKey {
    } else if def.service !in s.services {
      ClaimSeen(s, def, k);
    } else if s' != s {
      JoinSeen(s, s.services[def.service], b, k);
    }
  }

  // ------------------------------------------------------------------ steps of the call itself

  /** Until it returns nil, a registration does not show either. */
  lemma OwnStep(s: Shared, th: Thread, t: nat, o: Oracle, s': Shared, pc': Pc)
    requires IndexInv(s) && IndexInv(s') && ThreadOk(s, th) && !th.pc.Done? && IsRegistration(th.call)
    requires (s', pc') == Act(s, th, t, o) && pc' != Done(Some(Registered))
    ensures Seen(s', th.call.key) == Seen(s, th.call.key)
  {
    var k := th.call.key;
    if th.pc.RegEnter? {
      EnterSeen(s, th, t, o, s', pc', k);
    } else if th.pc.Publishing? {
      ReleaseSeen(s, th.pc.rec, k);
    } else {
      UnkeyedStep(s, th, t, o, s', pc', k);
    }
  }

  lemma ReleaseSeen(s: Shared, r: nat, k: Key)
    requires IndexInv(s) && r < |s.recs| && s.shutdown
    ensures IndexTyped(Release(s, r)) && Seen(Release(s, r), k) == Seen(s, k)
  {
  }

  /** A registration of a held key returns nil at once and changes nothing. */
  lemma HeldReturnsNil(s: Shared, th: Thread, t: nat, o: Oracle)
    requires Structure(s) && ThreadOk(s, th) && th.pc.RegEnter? && th.call.key in s.byKey
    ensures Act(s, th, t, o) == (s, Done(Some(Registered)))
  {
  }

  /** The nil return for a key that was not held: the one member is this call's backend. */
  lemma NewKeyHeld(s: Shared, th: Thread, t: nat, o: Oracle, s': Shared)
    requires IndexInv(s) && Agree(s) && ThreadOk(s, th) && !th.pc.Done? && IsRegistration(th.call)
    requires Act(s, th, t, o) == (s', Done(Some(Registered))) && th.call.key !in s.byKey
    ensures IndexTyped(s')
    ensures Seen(s', th.call.key) == Under(DefOf(th.call).service, {BackendOf(th.call, t)})
  {
    var b := BackendOf(th.call, t);
    if th.pc.Publishing? {
      PublishedAlone(s, th.pc.rec, b);
    } else {
      var r := s.services[DefOf(th.call).service];
      JoinedAlone(s, r, b);
    }
  }

  lemma PublishedAlone(s: Shared, r: nat, b: Backend)
    requires Structure(s) && !s.shutdown && r < |s.recs| && s.recs[r].advertised == 0
    ensures IndexTyped(Publish(s, r, b).0)
    ensures Seen(Publish(s, r, b).0, b.key) == Under(s.recs[r].name, {b})
  {
    assert RecordOk(s.recs[r]) && Indexed(s, r);
    assert [] + [b] == [b];
    assert MembersOf([b], b.key) == {b};
  }

  lemma JoinedAlone(s: Shared, r: nat, b: Backend)
    requires Structure(s) && Agree(s) && !s.shutdown && r < |s.recs| && Serving(s.recs[r])
    requires Indexed(s, r) && b.key !in s.byKey
    ensures IndexTyped(Join(s, r, b)) && Seen(Join(s, r, b), b.key) == Under(s.recs[r].name, {b})
  {
    assert PoolIndexed(s, s.recs[r]);
    assert MembersOf(s.recs[r].pool + [b], b.key) == {b};
  }

  // ------------------------------------------------------------------ a call, from start to return

  /** From step i up to state j: t's is the only thread that drives key k, and nothing closes. */
  ghost predicate Alone(states: seq<State>, labels: seq<Label>, i: nat, j: nat, t: nat, k: Key) {
    forall m :: i <= m < j && m < |labels| && m < |states| && labels[m].Run? ==>
      var u := labels[m].thread;
      u < |states[m].threads| && !states[m].threads[u].pc.CloseEnter?
      && (u != t ==> !Drives(states[m].threads[u].call, k))
  }

  lemma RunTyped(states: seq<State>, labels: seq<Label>, i: nat)
    requires IsRun(states, labels) && i < |states|
    ensures IndexTyped(states[i].sh)
  {
    RunInv(states, labels, i);
  }

  /** What the contract says of a registration begun when the key looked like `before`. */
  ghost predicate RegistrationSoFar(before: Holding, now: Holding, th: Thread, t: nat)
    requires IsRegistration(th.call)
  {
    if th.pc == Done(Some(Registered)) then
      now == if before.Nothing? then Under(DefOf(th.call).service, {BackendOf(th.call, t)}) else before
    else now == before && (before.Nothing? || th.pc.RegEnter?)
  }

  /** The part of the invariant that the contract needs. */
  ghost predicate Sane(st: State) {
    IndexInv(st.sh) && ThreadsOk(st.sh, st.threads)
  }

  /** What a step does to the shared state and the threads, leaving the locks aside. */
  ghost predicate Effects(st: State, l: Label, st': State) {
    if l.Run? then
      && l.thread < |st.threads| && !st.threads[l.thread].pc.Done?
      && IndexTyped(st.sh) && PcTyped(st.sh, st.threads[l.thread])
      && var (s', pc') := Act(st.sh, st.threads[l.thread], l.thread, l.oracle);
         st'.sh == s' && st'.threads == st.threads[l.thread := Thread(st.threads[l.thread].call, pc')]
    else st'.sh == st.sh && st.threads <= st'.threads
  }

  lemma StepEffects(st: State, l: Label, st': State)
    requires Step(st, l, st')
    ensures Effects(st, l, st')
  {
  }

  lemma RegistrationStep(st: State, l: Label, st': State, t: nat, before: Holding)
    requires Effects(st, l, st') && Sane(st) && Sane(st') && Agree(st.sh)
    requires t < |st.threads| && IsRegistration(st.threads[t].call)
    requires l.Run? ==>
      l.thread < |st.threads| && !st.threads[l.thread].pc.CloseEnter?
      && (l.thread != t ==> !Drives(st.threads[l.thread].call, st.threads[t].call.key))
    requires RegistrationSoFar(before, Seen(st.sh, st.threads[t].call.key), st.threads[t], t)
    ensures t < |st'.threads| && st'.threads[t].call == st.threads[t].call
    ensures RegistrationSoFar(before, Seen(st'.sh, st.threads[t].call.key), st'.threads[t], t)
  {
    if l.Run? && l.thread == t {
      OwnProgress(st.sh, st.threads[t], t, l.oracle, st'.sh, st'.threads[t].pc, before);
    } else {
      StepSeen(st, l, st', st.threads[t].call.key);
    }
  }

  lemma OwnProgress(s: Shared, th: Thread, t: nat, o: Oracle, s': Shared, pc': Pc, before: Holding)
    requires IndexInv(s) && IndexInv(s') && Agree(s) && ThreadOk(s, th) && !th.pc.Done?
    requires IsRegistration(th.call) && (s', pc') == Act(s, th, t, o)
    requires RegistrationSoFar(before, Seen(s, th.call.key), th, t)
    ensures RegistrationSoFar(before, Seen(s', th.call.key), Thread(th.call, pc'), t)
  {
    if th.call.key in s.byKey {
      HeldReturnsNil(s, th, t, o);
    } else if pc' == Done(Some(Registered)) {
      NewKeyHeld(s, th, t, o, s');
    } else {
      OwnStep(s, th, t, o, s', pc');
    }
  }

  lemma RunSane(states: seq<State>, labels: seq<Label>, m: nat)
    requires IsRun(states, labels) && m < |labels|
    ensures Sane(states[m]) && Sane(states[m + 1]) && Effects(states[m], labels[m], states[m + 1])
  {
    RunInv(states, labels, m);
    RunInv(states, labels, m + 1);
    assert Step(states[m], labels[m], states[m + 1]);
    StepEffects(states[m], labels[m], states[m + 1]);
  }

  lemma RunRegistrationStep(states: seq<State>, labels: seq<Label>, m: nat, t: nat, k: Key, before: Holding)
    requires IsRun(states, labels) && m < |labels| && Alone(states, labels, m, m + 1, t, k)
    requires t < |states[m].threads| && IsRegistration(states[m].threads[t].call) && states[m].threads[t].call.key == k
    requires forall j :: 0 <= j < m ==> OneServicePerKey(states[j].threads)
    requires IndexTyped(states[m].sh) && RegistrationSoFar(before, Seen(states[m].sh, k), states[m].threads[t], t)
    ensures t < |states[m + 1].threads| && states[m + 1].threads[t].call == states[m].threads[t].call
    ensures IndexTyped(states[m + 1].sh)
    ensures RegistrationSoFar(before, Seen(states[m + 1].sh, k), states[m + 1].threads[t], t)
  {
    RunSane(states, labels, m);
    RunAgrees(states, labels, m);
    RegistrationStep(states[m], labels[m], states[m + 1], t, before);
  }

  /** The registrar contract of a registration, over every interleaving with other keys' calls: at
      any time from its start on, while no other call drives the key, the key looks as it did at
      the start, except that after a nil return a key that was free has this call's backend as its
      only member; and a call for a held key can only return nil. */
  lemma {:induction false} RegistrationContract(states: seq<State>, labels: seq<Label>, i: nat, j: nat, t: nat)
    requires IsRun(states, labels) && i <= j < |states|
    requires t < |states[i].threads| && IsRegistration(states[i].threads[t].call)
    requires states[i].threads[t].pc.RegEnter?
    requires Alone(states, labels, i, j, t, states[i].threads[t].call.key)
    requires forall m :: 0 <= m < j ==> OneServicePerKey(states[m].threads)
    ensures IndexTyped(states[i].sh) && IndexTyped(states[j].sh)
    ensures t < |states[j].threads| && states[j].threads[t].call == states[i].threads[t].call
    ensures
      var k := states[i].threads[t].call.key;
      RegistrationSoFar(Seen(states[i].sh, k), Seen(states[j].sh, k), states[j].threads[t], t)
    decreases j
  {
    RunTyped(states, labels, i);
    if i < j {
      RegistrationContract(states, labels, i, j - 1, t);
      var k := states[i].threads[t].call.key;
      RunRegistrationStep(states, labels, j - 1, t, k, Seen(states[i].sh, k));
    }
  }

  /** One step of a run in which nobody who drives k acts. */
  lemma StepSeen(st: State, l: Label, st': State, k: Key)
    requires Effects(st, l, st') && Sane(st) && Sane(st')
    requires l.Run? ==>
      l.thread < |st.threads| && !st.threads[l.thread].pc.CloseEnter?
      && !Drives(st.threads[l.thread].call, k)
    ensures Seen(st'.sh, k) == Seen(st.sh, k)
  {
    if l.Run? {
      var u := l.thread;
      OtherKeyStep(st.sh, st.threads[u], u, l.oracle, st'.sh, st'.threads[u].pc, k);
    }
  }

  lemma RunStepSeen(states: seq<State>, labels: seq<Label>, m: nat, k: Key)
    requires IsRun(states, labels) && m < |labels| && Idle(states, labels, m, k)
    ensures IndexTyped(states[m].sh) && IndexTyped(states[m + 1].sh)
    ensures Seen(states[m + 1].sh, k) == Seen(states[m].sh, k)
  {
    RunSane(states, labels, m);
    StepSeen(states[m], labels[m], states[m + 1], k);
  }

  /** Step m is not one of a call that drives k, nor of Close. */
  ghost predicate Idle(states: seq<State>, labels: seq<Label>, m: nat, k: Key) {
    m < |labels| && m < |states| && (labels[m].Run? ==>
      (var u := labels[m].thread;
       && u < |states[m].threads| && !states[m].threads[u].pc.CloseEnter?
       && !Drives(states[m].threads[u].call, k)))
  }

  /** While nobody drives the key, it looks the same: what a watcher registered stays. */
  lemma {:induction false} UntouchedBetweenCalls(states: seq<State>, labels: seq<Label>, i: nat, j: nat, k: Key)
    requires IsRun(states, labels) && i <= j < |states|
    requires forall m :: i <= m < j ==> Idle(states, labels, m, k)
    ensures IndexTyped(states[i].sh) && IndexTyped(states[j].sh)
    ensures Seen(states[j].sh, k) == Seen(states[i].sh, k)
    decreases j
  {
    RunTyped(states, labels, i);
    if i < j {
      UntouchedBetweenCalls(states, labels, i, j - 1, k);
      RunStepSeen(states, labels, j - 1, k);
    }
  }

  /** What the contract says of a deregistration begun when the key looked like `before`. */
  predicate DeregistrationSoFar(before: Holding, now: Holding, pc: Pc) {
    && (pc.DeregEnter? || pc.DeregTear? || pc.DeregFinish? || pc.Done?)
    && now == if pc.DeregEnter? then before else Nothing
  }

  lemma KeyLeaves(s: Shared, k: Key)
    requires IndexTyped(s)
    ensures k !in ServiceIndex.Deregister(s, k).0.byKey
  {
  }

  lemma LeaveCounters(s: Shared, th: Thread, t: nat, o: Oracle)
    requires IndexTyped(s) && PcTyped(s, th) && (th.pc.DeregTear? || th.pc.DeregFinish?)
    ensures Act(s, th, t, o).1.DeregFinish? || Act(s, th, t, o).1.Done?
  {
  }

  lemma OwnLeave(s: Shared, th: Thread, t: nat, o: Oracle, s': Shared, pc': Pc, before: Holding)
    requires IndexInv(s) && IndexInv(s') && ThreadOk(s, th) && th.call.Deregister? && !th.pc.Done?
    requires (s', pc') == Act(s, th, t, o)
    requires DeregistrationSoFar(before, Seen(s, th.call.key), th.pc)
    ensures DeregistrationSoFar(before, Seen(s', th.call.key), pc')
  {
    var k := th.call.key;
    if th.pc.DeregEnter? {
      KeyLeaves(s, k);
    } else {
      UnkeyedStep(s, th, t, o, s', pc', k);
      LeaveCounters(s, th, t, o);
    }
  }

  lemma DeregistrationStep(st: State, l: Label, st': State, t: nat, before: Holding)
    requires Effects(st, l, st') && Sane(st) && Sane(st')
    requires t < |st.threads| && st.threads[t].call.Deregister?
    requires l.Run? && l.thread != t ==>
      l.thread < |st.threads| && !st.threads[l.thread].pc.CloseEnter?
      && !Drives(st.threads[l.thread].call, st.threads[t].call.key)
    requires DeregistrationSoFar(before, Seen(st.sh, st.threads[t].call.key), st.threads[t].pc)
    ensures t < |st'.threads| && st'.threads[t].call == st.threads[t].call
    ensures DeregistrationSoFar(before, Seen(st'.sh, st.threads[t].call.key), st'.threads[t].pc)
  {
    if l.Run? && l.thread == t {
      OwnLeave(st.sh, st.threads[t], t, l.oracle, st'.sh, st'.threads[t].pc, before);
    } else {
      StepSeen(st, l, st', st.threads[t].call.key);
    }
  }

  lemma RunDeregistrationStep(states: seq<State>, labels: seq<Label>, m: nat, t: nat, k: Key, before: Holding)
    requires IsRun(states, labels) && m < |labels| && Alone(states, labels, m, m + 1, t, k)
    requires t < |states[m].threads| && states[m].threads[t].call == Call.Deregister(k)
    requires IndexTyped(states[m].sh) && DeregistrationSoFar(before, Seen(states[m].sh, k), states[m].threads[t].pc)
    ensures t < |states[m + 1].threads| && states[m + 1].threads[t].call == states[m].threads[t].call
    ensures IndexTyped(states[m + 1].sh)
    ensures DeregistrationSoFar(before, Seen(states[m + 1].sh, k), states[m + 1].threads[t].pc)
  {
    RunSane(states, labels, m);
    DeregistrationStep(states[m], labels[m], states[m + 1], t, before);
  }

  /** A deregistration empties the key at its first critical section, and it stays empty. */
  lemma {:induction false} DeregistrationContract(states: seq<State>, labels: seq<Label>, i: nat, j: nat, t: nat)
    requires IsRun(states, labels) && i <= j < |states|
    requires t < |states[i].threads| && states[i].threads[t].call.Deregister?
    requires states[i].threads[t].pc.DeregEnter?
    requires Alone(states, labels, i, j, t, states[i].threads[t].call.key)
    ensures IndexTyped(states[i].sh) && IndexTyped(states[j].sh)
    ensures t < |states[j].threads| && states[j].threads[t].call == states[i].threads[t].call
    ensures
      var k := states[i].threads[t].call.key;
      DeregistrationSoFar(Seen(states[i].sh, k), Seen(states[j].sh, k), states[j].threads[t].pc)
    decreases j
  {
    RunTyped(states, labels, i);
    if i < j {
      DeregistrationContract(states, labels, i, j - 1, t);
      RunTyped(states, labels, j);
      var k := states[i].threads[t].call.key;
      RunDeregistrationStep(states, labels, j - 1, t, k, Seen(states[i].sh, k));
    }
  }

  // ------------------------------------------------------------------ the watcher's registrar, simulated

  /** What was registered, as far as the manager's indexes show it. */
  datatype Given = Given(service: Name, target: Target)

  function GivenBy(c: Call): Given
    requires IsRegistration(c)
  {
    Given(DefOf(c).service, BackendOf(c, 0).target)
  }

  /** `give` says how what a watcher registers (R) reaches the manager. */
  ghost predicate Shows<R>(h: Holding, held: map<Key, R>, give: R -> Given, k: Key) {
    if h.Nothing? then k !in held
    else
      && k in held && give(held[k]).service == h.service
      && exists t: nat :: h.members == {Backend(k, give(held[k]).target, t)}
  }

  /** The registrar's map, on the keys of one watcher, is what the manager holds under them. */
  ghost predicate Represents<R>(s: Shared, keys: set<Key>, held: map<Key, R>, give: R -> Given)
    requires IndexTyped(s)
  {
    forall k :: k in keys ==> Shows(Seen(s, k), held, give, k)
  }

  /** During call t no other call drives any key of the watcher. */
  ghost predicate SoleDriver(states: seq<State>, labels: seq<Label>, i: nat, j: nat, t: nat, keys: set<Key>) {
    forall k :: k in keys ==> Alone(states, labels, i, j, t, k)
  }

  lemma {:induction false} CallsStay(states: seq<State>, labels: seq<Label>, i: nat, m: nat, t: nat)
    requires IsRun(states, labels) && i <= m < |states| && t < |states[i].threads|
    ensures t < |states[m].threads| && states[m].threads[t].call == states[i].threads[t].call
    decreases m
  {
    if i < m {
      CallsStay(states, labels, i, m - 1, t);
      assert Step(states[m - 1], labels[m - 1], states[m]);
    }
  }

  lemma OtherKeysKept(states: seq<State>, labels: seq<Label>, i: nat, j: nat, t: nat, q: Key)
    requires IsRun(states, labels) && i <= j < |states| && t < |states[i].threads|
    requires Alone(states, labels, i, j, t, q) && !Drives(states[i].threads[t].call, q)
    ensures IndexTyped(states[i].sh) && IndexTyped(states[j].sh)
    ensures Seen(states[j].sh, q) == Seen(states[i].sh, q)
  {
    forall m | i <= m < j
      ensures Idle(states, labels, m, q)
    {
      CallsStay(states, labels, i, m, t);
    }
    UntouchedBetweenCalls(states, labels, i, j, q);
  }

  /** A whole registration on the manager is `Register` on the watcher's registrar, with the
      verdict that the manager returned; and the verdict on a held key is always nil. */
  lemma RegisterSimulated<R>(states: seq<State>, labels: seq<Label>, i: nat, j: nat, t: nat, keys: set<Key>,
                             held: map<Key, R>, what: R, give: R -> Given)
    requires IsRun(states, labels) && i <= j < |states|
    requires t < |states[i].threads| && IsRegistration(states[i].threads[t].call)
    requires states[i].threads[t].pc.RegEnter? && states[i].threads[t].call.key in keys
    requires give(what) == GivenBy(states[i].threads[t].call)
    requires t < |states[j].threads| && states[j].threads[t].pc.Done?
    requires SoleDriver(states, labels, i, j, t, keys)
    requires forall m :: 0 <= m < j ==> OneServicePerKey(states[m].threads)
    requires IndexTyped(states[i].sh) && Represents(states[i].sh, keys, held, give)
    ensures IndexTyped(states[j].sh)
    ensures
      var (k, nil) := (states[i].threads[t].call.key, states[j].threads[t].pc.outcome == Some(Registered));
      && (k in held ==> nil)
      && Represents(states[j].sh, keys, if k in held || !nil then held else held[k := what], give)
  {
    var c := states[i].threads[t].call;
    var nil := states[j].threads[t].pc.outcome == Some(Registered);
    var after := if c.key in held || !nil then held else held[c.key := what];
    RegistrationContract(states, labels, i, j, t);
    assert Shows(Seen(states[i].sh, c.key), held, give, c.key);
    forall q | q in keys
      ensures Shows(Seen(states[j].sh, q), after, give, q)
    {
      assert Shows(Seen(states[i].sh, q), held, give, q);
      if q != c.key {
        OtherKeysKept(states, labels, i, j, t, q);
      }
    }
  }

  lemma DeregisterSimulated<R>(states: seq<State>, labels: seq<Label>, i: nat, j: nat, t: nat, keys: set<Key>,
                               held: map<Key, R>, give: R -> Given)
    requires IsRun(states, labels) && i <= j < |states|
    requires t < |states[i].threads| && states[i].threads[t].call.Deregister?
    requires states[i].threads[t].pc.DeregEnter? && states[i].threads[t].call.key in keys
    requires t < |states[j].threads| && states[j].threads[t].pc.Done?
    requires SoleDriver(states, labels, i, j, t, keys)
    requires IndexTyped(states[i].sh) && Represents(states[i].sh, keys, held, give)
    ensures IndexTyped(states[j].sh)
    ensures Represents(states[j].sh, keys, held - {states[i].threads[t].call.key}, give)
  {
    var c := states[i].threads[t].call;
    DeregistrationContract(states, labels, i, j, t);
    forall q | q in keys
      ensures Shows(Seen(states[j].sh, q), held - {c.key}, give, q)
    {
      assert Shows(Seen(states[i].sh, q), held, give, q);
      if q != c.key {
        OtherKeysKept(states, labels, i, j, t, q);
      }
    }
  }

  /** From step i up to state j nobody drives a key of the watcher, and nothing closes. */
  ghost predicate Undriven(states: seq<State>, labels: seq<Label>, i: nat, j: nat, keys: set<Key>) {
    forall m, k :: i <= m < j && k in keys ==> Idle(states, labels, m, k)
  }

  lemma IdleSimulated<R>(states: seq<State>, labels: seq<Label>, i: nat, j: nat, keys: set<Key>,
                         held: map<Key, R>, give: R -> Given)
    requires IsRun(states, labels) && i <= j < |states| && Undriven(states, labels, i, j, keys)
    requires IndexTyped(states[i].sh) && Represents(states[i].sh, keys, held, give)
    ensures IndexTyped(states[j].sh) && Represents(states[j].sh, keys, held, give)
  {
    RunTyped(states, labels, j);
    forall q | q in keys
      ensures Shows(Seen(states[j].sh, q), held, give, q)
    {
      assert Shows(Seen(states[i].sh, q), held, give, q);
      UntouchedBetweenCalls(states, labels, i, j, q);
    }
  }

  // ------------------------------------------------------------------ all calls of a watcher

  /** One call of a watcher in a run of the manager: its thread, and the states at which it starts
      and has returned. */
  datatype Turn = Turn(start: nat, end: nat, thread: nat)

  ghost predicate Performs<R>(states: seq<State>, labels: seq<Label>, keys: set<Key>, turn: Turn, op: L.Op<R>,
                              give: R -> Given) {
    var Turn(i, j, t) := turn;
    && i <= j < |states| && t < |states[i].threads| && t < |states[j].threads| && states[j].threads[t].pc.Done?
    && op.key in keys && SoleDriver(states, labels, i, j, t, keys)
    && var Thread(call, pc) := states[i].threads[t];
       match op
       case Registers(key, what) => IsRegistration(call) && pc.RegEnter? && call.key == key && give(what) == GivenBy(call)
       case Deregisters(key) => call == Call.Deregister(key) && pc.DeregEnter?
  }

  /** The call returned the verdict: nil exactly without an error. */
  ghost predicate Returned(states: seq<State>, turn: Turn, verdict: Option<string>) {
    && turn.end < |states| && turn.thread < |states[turn.end].threads| && states[turn.end].threads[turn.thread].pc.Done?
    && (verdict.None? <==> states[turn.end].threads[turn.thread].pc.outcome == Some(Registered))
  }

  /** By state m the run has performed these calls, one after the other, with these verdicts; the
      watcher's keys were driven by nothing else. The verdict on a held key is not the world's. */
  ghost predicate Performed<R>(states: seq<State>, labels: seq<Label>, keys: set<Key>, ops: seq<L.Op<R>>,
                               v: L.Verdicts, turns: seq<Turn>, give: R -> Given, m: nat)
    decreases |ops|
  {
    m < |states| && |turns| == |ops| &&
    if ops == [] then Undriven(states, labels, 0, m, keys)
    else
      var n := |ops| - 1;
      && Performs(states, labels, keys, turns[n], ops[n], give)
      && (ops[n].Registers? && ops[n].key !in L.Held(ops[..n], v) ==> Returned(states, turns[n], v(n)))
      && turns[n].end <= m && Undriven(states, labels, turns[n].end, m, keys)
      && Performed(states, labels, keys, ops[..n], v, turns[..n], give, turns[n].start)
  }

  lemma StartRepresents<R>(states: seq<State>, labels: seq<Label>, keys: set<Key>, give: R -> Given)
    requires IsRun(states, labels)
    ensures IndexTyped(states[0].sh) && Represents(states[0].sh, keys, map[], give)
  {
  }

  /** One turn takes what the registrar holds before the call to what it holds after it. */
  lemma TurnSimulated<R>(states: seq<State>, labels: seq<Label>, keys: set<Key>, ops: seq<L.Op<R>>, v: L.Verdicts,
                         turn: Turn, give: R -> Given)
    requires IsRun(states, labels) && ops != []
    requires Performs(states, labels, keys, turn, ops[|ops| - 1], give)
    requires
      var n := |ops| - 1;
      ops[n].Registers? && ops[n].key !in L.Held(ops[..n], v) ==> Returned(states, turn, v(n))
    requires forall h :: 0 <= h < turn.end ==> OneServicePerKey(states[h].threads)
    requires IndexTyped(states[turn.start].sh)
    requires Represents(states[turn.start].sh, keys, L.Held(ops[..|ops| - 1], v), give)
    ensures IndexTyped(states[turn.end].sh) && Represents(states[turn.end].sh, keys, L.Held(ops, v), give)
  {
    var n := |ops| - 1;
    var before := L.Held(ops[..n], v);
    match ops[n]
    case Registers(key, what) =>
      RegisterSimulated(states, labels, turn.start, turn.end, turn.thread, keys, before, what, give);
    case Deregisters(key) =>
      DeregisterSimulated(states, labels, turn.start, turn.end, turn.thread, keys, before, give);
  }

  /** The composition: whatever else the manager did meanwhile, after a watcher's calls its keys hold
      in the manager's pools exactly what its registrar holds. */
  lemma {:induction false} CallsSimulated<R>(states: seq<State>, labels: seq<Label>, keys: set<Key>, ops: seq<L.Op<R>>,
                                             v: L.Verdicts, turns: seq<Turn>, give: R -> Given, m: nat)
    requires IsRun(states, labels) && Performed(states, labels, keys, ops, v, turns, give, m)
    requires forall h :: 0 <= h < m ==> OneServicePerKey(states[h].threads)
    ensures IndexTyped(states[m].sh) && Represents(states[m].sh, keys, L.Held(ops, v), give)
    decreases |ops|
  {
    if ops == [] {
      StartRepresents(states, labels, keys, give);
      IdleSimulated(states, labels, 0, m, keys, map[], give);
    } else {
      var n := |ops| - 1;
      CallsSimulated(states, labels, keys, ops[..n], v, turns[..n], give, turns[n].start);
      TurnSimulated(states, labels, keys, ops, v, turns[n], give);
      IdleSimulated(states, labels, turns[n].end, m, keys, L.Held(ops, v), give);
    }
  }

  /** What the manager shows under k is what the watcher records there. */
  ghost predicate ServedAsRecorded<A(!new), R(!new)>(h: Holding, active: map<Key, A>, rec: R -> A, give: R -> Given, k: Key) {
    if h.Nothing? then k !in active
    else
      && k in active
      && exists what: R, t: nat ::
           active[k] == rec(what) && h == Under(give(what).service, {Backend(k, give(what).target, t)})
  }

  /** Between the calls of a watcher, `active` is exactly what the manager's pools hold under its
      keys, as recorded. */
  lemma ActiveIsServed<A(!new), R(!new)>(states: seq<State>, labels: seq<Label>, keys: set<Key>, bk: L.Book<A, R>, rec: R -> A,
                             v: L.Verdicts, turns: seq<Turn>, give: R -> Given, m: nat, k: Key)
    requires IsRun(states, labels) && Performed(states, labels, keys, bk.calls, v, turns, give, m)
    requires forall h :: 0 <= h < m ==> OneServicePerKey(states[h].threads)
    requires L.Agrees(bk, rec) && L.Traced(bk, v) && k in keys
    ensures IndexTyped(states[m].sh) && ServedAsRecorded(Seen(states[m].sh, k), bk.active, rec, give, k)
  {
    CallsSimulated(states, labels, keys, bk.calls, v, turns, give, m);
    var h := Seen(states[m].sh, k);
    assert Shows(h, bk.held, give, k);
    if h.Under? {
      var t: nat :| h.members == {Backend(k, give(bk.held[k]).target, t)};
      assert bk.active[k] == rec(bk.held[k]);
    }
  }
}
