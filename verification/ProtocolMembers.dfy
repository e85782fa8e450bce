/**
 Who is in the pools: every member was brought by a registration that has returned nil, the
 members of one service agree on scheme and caps, and a failed registration leaves nothing.
 */
module ProtocolMembers {
  import opened Options
  import opened ServiceIndex
  import opened Protocol
  import opened ProtocolInvariant
  import opened ProtocolRuns

  /** b is in a pool of a service with this name, scheme and caps, and the call that brought it
      has returned nil. */
  ghost predicate MemberOk(rec: Record, ths: seq<Thread>, b: Backend) {
    && b.call < |ths|
    && IsRegistration(ths[b.call].call)
    && ths[b.call].pc == Done(Some(Registered))
    && b == BackendOf(ths[b.call].call, b.call)
    && DefOf(ths[b.call].call).service == rec.name
    && DefOf(ths[b.call].call).scheme == rec.scheme
    && SameCaps(rec.caps, DefOf(ths[b.call].call).caps)
  }

  ghost predicate PoolOk(rec: Record, ths: seq<Thread>) {
    forall b :: b in rec.pool ==> MemberOk(rec, ths, b)
  }

  ghost predicate MembersOk(s: Shared, ths: seq<Thread>) {
    forall r :: 0 <= r < |s.recs| ==> PoolOk(s.recs[r], ths)
  }

  ghost predicate CallsAdmissible(ths: seq<Thread>) {
    forall t :: 0 <= t < |ths| ==> Admissible(ths[t].call)
  }

  ghost predicate MemberInv(st: State) {
    Inv(st) && MembersOk(st.sh, st.threads) && CallsAdmissible(st.threads)
  }

  /** A pool after one action of thread t: members stay or leave, and t's own backend may enter. */
  ghost predicate PoolMoves(rec: Record, rec': Record, th: Thread, t: nat, pc': Pc) {
    && rec'.name == rec.name && rec'.scheme == rec.scheme && rec'.caps == rec.caps
    && forall b :: b in rec'.pool ==>
         || b in rec.pool
         || (&& IsRegistration(th.call) && b == BackendOf(th.call, t) && pc' == Done(Some(Registered))
             && DefOf(th.call).service == rec.name && DefOf(th.call).scheme == rec.scheme
             && SameCaps(rec.caps, DefOf(th.call).caps))
  }

  ghost predicate PoolsMove(s: Shared, s': Shared, th: Thread, t: nat, pc': Pc) {
    && |s.recs| <= |s'.recs|
    && (forall r :: 0 <= r < |s.recs| ==> PoolMoves(s.recs[r], s'.recs[r], th, t, pc'))
    && (forall r :: |s.recs| <= r < |s'.recs| ==> s'.recs[r].pool == [])
  }

  lemma ActPools(s: Shared, th: Thread, t: nat, o: Oracle, s': Shared, pc': Pc)
    requires Structure(s) && ThreadOk(s, th) && !th.pc.Done?
    requires (s', pc') == Act(s, th, t, o)
    ensures PoolsMove(s, s', th, t, pc')
  {
    if th.pc.RegEnter? {
      EnterPools(s, th, t, o, s', pc');
    } else if th.pc.Publishing? {
      PublishPools(s, th, t, o, s', pc');
    } else if th.pc.DeregEnter? {
      LeavePools(s, th, t, o, s', pc');
    } else {
      OtherPools(s, th, t, o, s', pc');
    }
  }

  lemma EnterPools(s: Shared, th: Thread, t: nat, o: Oracle, s': Shared, pc': Pc)
    requires Structure(s) && ThreadOk(s, th) && th.pc.RegEnter?
    requires (s', pc') == Act(s, th, t, o)
    ensures PoolsMove(s, s', th, t, pc')
  {
  }

  lemma PublishPools(s: Shared, th: Thread, t: nat, o: Oracle, s': Shared, pc': Pc)
    requires Structure(s) && ThreadOk(s, th) && th.pc.Publishing?
    requires (s', pc') == Act(s, th, t, o)
    ensures PoolsMove(s, s', th, t, pc')
  {
  }

  lemma LeavePools(s: Shared, th: Thread, t: nat, o: Oracle, s': Shared, pc': Pc)
    requires Structure(s) && ThreadOk(s, th) && th.pc.DeregEnter?
    requires (s', pc') == Act(s, th, t, o)
    ensures PoolsMove(s, s', th, t, pc')
  {
  }

  /** The fixed part of a record and its pool. */
  ghost predicate SamePools(s: Shared, s': Shared) {
    && |s'.recs| == |s.recs|
    && forall r :: 0 <= r < |s.recs| ==>
         && s'.recs[r].pool == s.recs[r].pool && s'.recs[r].name == s.recs[r].name
         && s'.recs[r].scheme == s.recs[r].scheme && s'.recs[r].caps == s.recs[r].caps
  }

  lemma OtherPools(s: Shared, th: Thread, t: nat, o: Oracle, s': Shared, pc': Pc)
    requires Structure(s) && ThreadOk(s, th)
    requires !th.pc.RegEnter? && !th.pc.Publishing? && !th.pc.DeregEnter?
    requires (s', pc') == Act(s, th, t, o)
    ensures PoolsMove(s, s', th, t, pc')
  {
    OtherActsKeepPools(s, th, t, o);
    assert SamePools(s, s');
  }

  lemma OtherActsKeepPools(s: Shared, th: Thread, t: nat, o: Oracle)
    requires IndexTyped(s) && PcTyped(s, th)
    requires !th.pc.RegEnter? && !th.pc.Publishing? && !th.pc.DeregEnter?
    ensures SamePools(s, Act(s, th, t, o).0)
  {
    if LockOf(th.pc) == ServeMu {
      EditsKeepPools(s, th, t, o);
    }
  }

  lemma EditsKeepPools(s: Shared, th: Thread, t: nat, o: Oracle)
    requires IndexTyped(s) && PcTyped(s, th) && LockOf(th.pc) == ServeMu
    ensures SamePools(s, Act(s, th, t, o).0)
  {
    if th.pc.CloseTear? {
      ListenerChangeKeepsPools(s, th.pc.recs[0]);
    } else {
      ListenerChangeKeepsPools(s, th.pc.rec);
    }
  }

  lemma ListenerChangeKeepsPools(s: Shared, r: nat)
    requires r < |s.recs|
    ensures SamePools(s, Opened(s, r)) && SamePools(s, TornDown(s, r))
  {
  }

  lemma PoolStaysOk(rec: Record, rec': Record, ths: seq<Thread>, t: nat, pc': Pc)
    requires t < |ths| && !ths[t].pc.Done? && PoolOk(rec, ths)
    requires PoolMoves(rec, rec', ths[t], t, pc')
    ensures PoolOk(rec', ths[t := Thread(ths[t].call, pc')])
  {
    var ths' := ths[t := Thread(ths[t].call, pc')];
    forall b | b in rec'.pool
      ensures MemberOk(rec', ths', b)
    {
      if b in rec.pool {
        assert MemberOk(rec, ths, b);
      }
    }
  }

  lemma RunKeepsMembers(st: State, t: nat, o: Oracle)
    requires MemberInv(st) && Typed(st) && Enabled(st, Run(t, o))
    ensures MembersOk(Next(st, Run(t, o)).sh, Next(st, Run(t, o)).threads)
  {
    var th := st.threads[t];
    var (s', pc') := Act(st.sh, th, t, o);
    ActPools(st.sh, th, t, o, s', pc');
    var ths' := st.threads[t := Thread(th.call, pc')];
    forall r | 0 <= r < |s'.recs|
      ensures PoolOk(s'.recs[r], ths')
    {
      if r < |st.sh.recs| {
        PoolStaysOk(st.sh.recs[r], s'.recs[r], st.threads, t, pc');
      }
    }
  }

  lemma StepKeepsMembers(st: State, l: Label)
    requires MemberInv(st) && Typed(st) && Enabled(st, l)
    ensures MemberInv(Next(st, l))
  {
    StepKeepsInv(st, l);
    match l
    case Invoke(call) =>
      NewThreadKeepsMembers(st.sh, st.threads, Thread(call, Start(call)));
    case Acquire(_) =>
    case Run(t, o) =>
      RunKeepsMembers(st, t, o);
  }

  lemma NewThreadKeepsMembers(s: Shared, ths: seq<Thread>, th: Thread)
    requires MembersOk(s, ths)
    ensures MembersOk(s, ths + [th])
  {
    var ths' := ths + [th];
    forall r | 0 <= r < |s.recs|
      ensures PoolOk(s.recs[r], ths')
    {
      assert PoolOk(s.recs[r], ths);
      forall b | b in s.recs[r].pool
        ensures MemberOk(s.recs[r], ths', b)
      {
        assert MemberOk(s.recs[r], ths, b);
      }
    }
  }

  lemma {:induction false} RunMembers(states: seq<State>, labels: seq<Label>, i: nat)
    requires IsRun(states, labels) && i < |states|
    ensures MemberInv(states[i])
  {
    if i == 0 {
      InitInv();
    } else {
      RunMembers(states, labels, i - 1);
      assert Step(states[i - 1], labels[i - 1], states[i]);
      StepKeepsMembers(states[i - 1], labels[i - 1]);
    }
  }

  // ------------------------------------------------------------------ homogeneous pools

  /** Any two members of one service were offered with the same scheme and the same set of caps,
      and each is a function exactly when the service is function-backed. */
  lemma PoolsHomogeneous(states: seq<State>, labels: seq<Label>, i: nat, r: nat, b: Backend, c: Backend)
    requires IsRun(states, labels) && i < |states| && r < |states[i].sh.recs|
    requires b in states[i].sh.recs[r].pool && c in states[i].sh.recs[r].pool
    ensures b.call < |states[i].threads| && IsRegistration(states[i].threads[b.call].call)
    ensures c.call < |states[i].threads| && IsRegistration(states[i].threads[c.call].call)
    ensures
      var d, e := DefOf(states[i].threads[b.call].call), DefOf(states[i].threads[c.call].call);
      d.service == e.service && d.scheme == e.scheme && SameCaps(d.caps, e.caps)
    ensures b.target.Function? <==> states[i].sh.recs[r].scheme == SCHEME_LAMBDA
  {
    RunMembers(states, labels, i);
    var st := states[i];
    assert PoolOk(st.sh.recs[r], st.threads);
    assert MemberOk(st.sh.recs[r], st.threads, b) && MemberOk(st.sh.recs[r], st.threads, c);
    assert Admissible(st.threads[b.call].call);
    assert "http" != "lambda" && "https" != "lambda" by {
      assert |"http"| != |"lambda"| && |"https"| != |"lambda"|;
    }
  }

  /** The shared transport of a service's proxy; a function-backed service has none. */
  datatype Transport = NoTransport | Shared(scheme: string)

  function BaseTransport(scheme: string): Transport {
    if scheme == SCHEME_LAMBDA then NoTransport else Transport.Shared(scheme)
  }

  /** Dispatch never falls on the absent transport: a member without an invoker is only ever in
      the pool of a service that has a shared one. */
  lemma DispatchHasTransport(states: seq<State>, labels: seq<Label>, i: nat, r: nat, b: Backend)
    requires IsRun(states, labels) && i < |states| && r < |states[i].sh.recs|
    requires b in states[i].sh.recs[r].pool
    ensures b.target.Container? ==> BaseTransport(states[i].sh.recs[r].scheme) != NoTransport
  {
    PoolsHomogeneous(states, labels, i, r, b, b);
  }

  // ------------------------------------------------------------------ the registration contract

  /** A nil return: at that very step the key is in the pool of a serving service whose listener
      is open, and a key that was new is there as this call's backend under this call's name. */
  lemma NilMeansServing(states: seq<State>, labels: seq<Label>, i: nat, t: nat)
    requires IsRun(states, labels) && i < |labels| && labels[i].Run? && labels[i].thread == t
    requires t < |states[i + 1].threads| && states[i + 1].threads[t].pc == Done(Some(Registered))
    ensures IndexTyped(states[i + 1].sh) && IsRegistration(states[i + 1].threads[t].call)
    ensures
      var (s', k) := (states[i + 1].sh, states[i + 1].threads[t].call.key);
      k in s'.byKey && KeyServed(s', k, s'.byKey[k]) && ListenerOpen(At(s', s'.byKey[k]))
    ensures
      var (s', c) := (states[i + 1].sh, states[i + 1].threads[t].call);
      c.key !in states[i].sh.byKey ==>
        s'.byKey[c.key] == DefOf(c).service && BackendOf(c, t) in At(s', s'.byKey[c.key]).pool
  {
    RunInv(states, labels, i);
    assert Step(states[i], labels[i], states[i + 1]);
    NilPost(states[i], labels[i], states[i + 1], t);
    RunInv(states, labels, i + 1);
    ServedIsOpen(states[i + 1], states[i + 1].threads[t].call.key);
  }

  lemma NilPost(st: State, l: Label, st': State, t: nat)
    requires Inv(st) && Step(st, l, st') && l.Run? && l.thread == t
    requires t < |st'.threads| && st'.threads[t].pc == Done(Some(Registered))
    ensures IsRegistration(st'.threads[t].call) && !st'.sh.shutdown && st'.threads[t].call.key in st'.sh.byKey
    ensures
      var (s', c) := (st'.sh, st'.threads[t].call);
      c.key !in st.sh.byKey ==>
        && s'.byKey[c.key] == DefOf(c).service && s'.byKey[c.key] in s'.services
        && s'.services[s'.byKey[c.key]] < |s'.recs| && BackendOf(c, t) in s'.recs[s'.services[s'.byKey[c.key]]].pool
  {
    assert ThreadOk(st.sh, st.threads[t]);
    NilStep(st.sh, st.threads[t], t, l.oracle);
  }

  lemma ServedIsOpen(st: State, k: Key)
    requires Inv(st) && k in st.sh.byKey && !st.sh.shutdown
    ensures KeyServed(st.sh, k, st.sh.byKey[k]) && ListenerOpen(At(st.sh, st.sh.byKey[k]))
  {
    assert KeyServed(st.sh, k, st.sh.byKey[k]);
    assert RecordOwned(st.sh, st.threads, st.sh.services[st.sh.byKey[k]]);
  }

  lemma NilStep(s: Shared, th: Thread, t: nat, o: Oracle)
    requires Structure(s) && ThreadOk(s, th) && !th.pc.Done?
    requires Act(s, th, t, o).1 == Done(Some(Registered))
    ensures IsRegistration(th.call) && !Act(s, th, t, o).0.shutdown
    ensures th.call.key in Act(s, th, t, o).0.byKey
    ensures
      var s' := Act(s, th, t, o).0;
      th.call.key !in s.byKey ==>
        && s'.byKey[th.call.key] == DefOf(th.call).service
        && DefOf(th.call).service in s'.services
        && s'.services[DefOf(th.call).service] < |s'.recs|
        && BackendOf(th.call, t) in s'.recs[s'.services[DefOf(th.call).service]].pool
  {
  }

  /** A call that returned an error has no member in any pool, ever after. */
  lemma ErrorLeavesNoMember(states: seq<State>, labels: seq<Label>, i: nat, t: nat, r: nat, b: Backend)
    requires IsRun(states, labels) && i < |states| && t < |states[i].threads|
    requires states[i].threads[t].pc.Done? && states[i].threads[t].pc.outcome != Some(Registered)
    requires r < |states[i].sh.recs| && b in states[i].sh.recs[r].pool
    ensures b.call != t
  {
    RunMembers(states, labels, i);
    assert PoolOk(states[i].sh.recs[r], states[i].threads);
    assert MemberOk(states[i].sh.recs[r], states[i].threads, b);
  }

  /** The step at which a registration returns an error changes no pool and adds no key, and the
      record the call had claimed, if any, is out of the index with an empty pool. */
  lemma ErrorLeavesNoTrace(states: seq<State>, labels: seq<Label>, i: nat, t: nat)
    requires IsRun(states, labels) && i < |labels| && labels[i].Run? && labels[i].thread == t
    requires t < |states[i].threads| && t < |states[i + 1].threads|
    requires states[i + 1].threads[t].pc.Done? && states[i + 1].threads[t].pc.outcome.Some?
    requires states[i + 1].threads[t].pc.outcome != Some(Registered)
    ensures states[i + 1].sh.byKey == states[i].sh.byKey
    ensures |states[i + 1].sh.recs| == |states[i].sh.recs|
    ensures forall r :: 0 <= r < |states[i].sh.recs| ==>
      states[i + 1].sh.recs[r].pool == states[i].sh.recs[r].pool
    ensures forall r :: r in Held(states[i].threads[t].pc) ==>
      r < |states[i + 1].sh.recs| && !Indexed(states[i + 1].sh, r) && states[i + 1].sh.recs[r].pool == []
  {
    var st, st' := states[i], states[i + 1];
    assert Step(st, labels[i], st');
    RunInv(states, labels, i);
    assert ThreadOk(st.sh, st.threads[t]);
    ErrorStep(st.sh, st.threads[t], t, labels[i].oracle);
  }

  lemma ErrorStep(s: Shared, th: Thread, t: nat, o: Oracle)
    requires Structure(s) && ThreadOk(s, th) && !th.pc.Done?
    requires Act(s, th, t, o).1.Done? && Act(s, th, t, o).1.outcome.Some?
    requires Act(s, th, t, o).1.outcome != Some(Registered)
    ensures
      var s' := Act(s, th, t, o).0;
      && s'.byKey == s.byKey && |s'.recs| == |s.recs|
      && (forall r :: 0 <= r < |s.recs| ==> s'.recs[r].pool == s.recs[r].pool)
      && (forall r :: r in Held(th.pc) ==> r < |s'.recs| && !Indexed(s', r) && s'.recs[r].pool == [])
  {
    var s' := Act(s, th, t, o).0;
    forall r | r in Held(th.pc)
      ensures r < |s'.recs| && !Indexed(s', r) && s'.recs[r].pool == []
    {
      assert RecordOk(s.recs[r]);
    }
  }
}
