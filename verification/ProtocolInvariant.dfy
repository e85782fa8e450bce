/**
 The invariant of the protocol and the proof that every step of every thread keeps it.

 Each record a thread is busy with is held by that thread alone: the claim of an advertiser, the
 teardown of a withdrawal, the batch of Close. The proof follows that ownership. A step changes
 only records its own thread holds (or has just taken), so what is true of the other threads and
 of the other records carries over.
 */
module ProtocolInvariant {
  import opened Options
  import opened ServiceIndex
  import opened Protocol

  // ------------------------------------------------------------------ ownership

  /** The records a thread at this counter is responsible for. */
  function Held(pc: Pc): set<nat> {
    match pc
    case Listening(r) => {r}
    case Abandoning(r, _) => {r}
    case Publishing(r) => {r}
    case ShutTear(r) => {r}
    case DeregTear(r) => {r}
    case DeregFinish(r) => {r}
    case CloseTear(rs) => set r | r in rs
    case _ => {}
  }

  /** The thread will close the `advertised` channel of r. */
  predicate Claims(pc: Pc, r: nat) {
    pc == Listening(r) || (pc.Abandoning? && pc.rec == r) || pc == Publishing(r)
  }

  /** The thread will close the `withdrawing` channel of r. */
  predicate Withdraws(pc: Pc, r: nat) {
    pc == DeregTear(r) || pc == DeregFinish(r)
  }

  /** The thread will tear the open listener of r down (or hand it to the index). */
  predicate Owes(pc: Pc, r: nat) {
    pc == Publishing(r) || pc == ShutTear(r) || pc == DeregTear(r) || (pc.CloseTear? && r in pc.recs)
  }

  predicate ClaimOk(rec: Record, def: Def) {
    rec.advertised == 0 && !rec.ready && rec.tears == 0
    && rec.name == def.service && rec.scheme == def.scheme && rec.caps == def.caps
  }

  /** What a thread may rely on at its counter. */
  ghost predicate ThreadOk(s: Shared, th: Thread) {
    && PcTyped(s, th)
    && match th.pc
       case RegWait(ch) => ch.Withdrawing? ==> s.recs[ch.rec].withdrawing.Some?
       case Listening(r) => ClaimOk(s.recs[r], DefOf(th.call)) && s.recs[r].opens == 0
       case Abandoning(r, why) =>
         && ClaimOk(s.recs[r], DefOf(th.call)) && s.recs[r].opens == 0
         && (why == ListenFailed || why == ListenFatal)
       case Publishing(r) => ClaimOk(s.recs[r], DefOf(th.call)) && s.recs[r].opens == 1
       case ShutTear(r) =>
         s.shutdown && !s.recs[r].ready && s.recs[r].advertised == 1 && ListenerOpen(s.recs[r])
       case DeregTear(r) => s.recs[r].withdrawing == Some(0) && ListenerOpen(s.recs[r])
       case DeregFinish(r) => s.recs[r].withdrawing == Some(0) && !ListenerOpen(s.recs[r])
       case CloseTear(rs) =>
         && s.shutdown && Distinct(rs)
         && (forall i :: 0 <= i < |rs| ==> Serving(s.recs[rs[i]]) && ListenerOpen(s.recs[rs[i]]))
       case _ => true
  }

  ghost predicate ThreadsOk(s: Shared, ths: seq<Thread>) {
    forall t :: 0 <= t < |ths| ==> ThreadOk(s, ths[t])
  }

  /** No record is held by two threads. */
  ghost predicate HeldApart(ths: seq<Thread>) {
    forall t, u :: 0 <= t < u < |ths| ==> Held(ths[t].pc) !! Held(ths[u].pc)
  }

  ghost predicate Claimed(ths: seq<Thread>, r: nat) {
    exists t :: 0 <= t < |ths| && Claims(ths[t].pc, r)
  }

  ghost predicate Withdrawn(ths: seq<Thread>, r: nat) {
    exists t :: 0 <= t < |ths| && Withdraws(ths[t].pc, r)
  }

  ghost predicate Owed(ths: seq<Thread>, r: nat) {
    exists t :: 0 <= t < |ths| && Owes(ths[t].pc, r)
  }

  /** Every open channel of r has a thread that will close it, and an open listener of r has an
      owner: the index while r serves, otherwise one thread. */
  ghost predicate RecordOwned(s: Shared, ths: seq<Thread>, r: nat)
    requires r < |s.recs|
  {
    var rec := s.recs[r];
    && (rec.advertised == 0 ==> Claimed(ths, r))
    && (rec.withdrawing == Some(0) ==> Withdrawn(ths, r))
    && (ListenerOpen(rec) ==> (!s.shutdown && Serving(rec)) || Owed(ths, r))
    && (!s.shutdown && Serving(rec) ==> ListenerOpen(rec))
  }

  ghost predicate RecordsOwned(s: Shared, ths: seq<Thread>) {
    forall r :: 0 <= r < |s.recs| ==> RecordOwned(s, ths, r)
  }

  /** A name is taken by a record that is being advertised or whose listener is open. */
  predicate Takes(rec: Record) {
    rec.advertised == 0 || ListenerOpen(rec)
  }

  ghost predicate NamesApart(s: Shared) {
    forall q, r :: 0 <= q < r < |s.recs| && Takes(s.recs[q]) && Takes(s.recs[r]) ==>
      s.recs[q].name != s.recs[r].name
  }

  /** A lock is held only by a thread that is about to do something under that lock. */
  ghost predicate LocksOk(st: State) {
    && (st.mu.Some? ==> st.mu.value < |st.threads| && LockOf(st.threads[st.mu.value].pc) == Mu)
    && (st.serveMu.Some? ==>
          st.serveMu.value < |st.threads| && LockOf(st.threads[st.serveMu.value].pc) == ServeMu)
  }

  ghost predicate Inv(st: State) {
    && IndexInv(st.sh)
    && ThreadsOk(st.sh, st.threads)
    && HeldApart(st.threads)
    && RecordsOwned(st.sh, st.threads)
    && NamesApart(st.sh)
    && LocksOk(st)
  }

  lemma InvTyped(st: State)
    requires Inv(st)
    ensures Typed(st)
  {
  }

  // ------------------------------------------------------------------ what one action changes

  /** A record without its pool, which is all that ownership is about. */
  function Core(rec: Record): Record {
    rec.(pool := [])
  }

  /** Only the records in `touched` change, apart from their pools, and nothing is taken back. */
  ghost predicate Effect(s: Shared, s': Shared, touched: set<nat>) {
    && |s.recs| <= |s'.recs|
    && (s.shutdown ==> s'.shutdown)
    && (forall r :: 0 <= r < |s.recs| && r !in touched ==> Core(s'.recs[r]) == Core(s.recs[r]))
    && (forall r :: 0 <= r < |s.recs| && s.recs[r].withdrawing.Some? ==> s'.recs[r].withdrawing.Some?)
  }

  /** What a thread relies on survives a step that touches none of the records it holds. */
  lemma OtherThreadOk(s: Shared, s': Shared, touched: set<nat>, th: Thread)
    requires Effect(s, s', touched) && ThreadOk(s, th) && Held(th.pc) !! touched
    ensures ThreadOk(s', th)
  {
  }

  /** A record nobody holds yet: one that does not exist, or one the index is serving. */
  predicate Fresh(s: Shared, r: nat) {
    r >= |s.recs| || (!s.shutdown && Serving(s.recs[r]))
  }

  lemma HeldNotFresh(s: Shared, th: Thread)
    requires ThreadOk(s, th)
    ensures forall r :: r in Held(th.pc) ==> !Fresh(s, r)
  {
  }

  /** What RecordOwned asks of r, met by one thread alone. */
  predicate SelfOwned(s: Shared, pc: Pc, r: nat)
    requires r < |s.recs|
  {
    var rec := s.recs[r];
    && (rec.advertised == 0 ==> Claims(pc, r))
    && (rec.withdrawing == Some(0) ==> Withdraws(pc, r))
    && (ListenerOpen(rec) ==> (!s.shutdown && Serving(rec)) || Owes(pc, r))
    && (!s.shutdown && Serving(rec) ==> ListenerOpen(rec))
  }

  /** The names of old records stay, no name is newly taken by one, and a new record takes a name
      the index does not have. */
  ghost predicate NamesKept(s: Shared, s': Shared) {
    && |s.recs| <= |s'.recs| <= |s.recs| + 1
    && (forall r :: 0 <= r < |s.recs| ==>
          s'.recs[r].name == s.recs[r].name && (Takes(s'.recs[r]) ==> Takes(s.recs[r])))
    && (|s'.recs| > |s.recs| ==> !s.shutdown && s'.recs[|s.recs|].name !in s.services)
  }

  ghost predicate ActPost(s: Shared, th: Thread, s': Shared, pc': Pc) {
    && ThreadOk(s', Thread(th.call, pc'))
    && Effect(s, s', Held(th.pc) + Held(pc'))
    && (forall r :: r in Held(pc') ==> r in Held(th.pc) || Fresh(s, r))
    && (forall r :: r in Held(th.pc) + Held(pc') && r < |s'.recs| ==> SelfOwned(s', pc', r))
    && (forall r :: |s.recs| <= r < |s'.recs| ==> r in Held(pc'))
    && (!s.shutdown && s'.shutdown ==>
          forall r :: 0 <= r < |s.recs| && Serving(s.recs[r]) ==> r in Held(pc'))
    && NamesKept(s, s')
  }

  ghost predicate ServingOpen(s: Shared) {
    forall r :: 0 <= r < |s.recs| && !s.shutdown && Serving(s.recs[r]) ==> ListenerOpen(s.recs[r])
  }

  lemma RegEnterPost(s: Shared, th: Thread, t: nat, o: Oracle, s': Shared, pc': Pc)
    requires Structure(s) && ThreadOk(s, th) && ServingOpen(s) && th.pc.RegEnter?
    requires (s', pc') == Act(s, th, t, o)
    ensures ActPost(s, th, s', pc')
  {
    var def := DefOf(th.call);
    if s.shutdown || th.call.key in s.byKey {
    } else if def.service !in s.services {
      ClaimPost(s, th, s', pc');
    } else {
      FoundPost(s, th, t, s', pc');
    }
  }

  lemma ClaimPost(s: Shared, th: Thread, s': Shared, pc': Pc)
    requires Structure(s) && ThreadOk(s, th) && th.pc.RegEnter? && !s.shutdown
    requires DefOf(th.call).service !in s.services
    requires s' == Claim(s, DefOf(th.call)) && pc' == Listening(|s.recs|)
    ensures ActPost(s, th, s', pc')
  {
  }

  /** The service is in the index: wait for it, conflict with it, or join it. */
  lemma FoundPost(s: Shared, th: Thread, t: nat, s': Shared, pc': Pc)
    requires Structure(s) && ThreadOk(s, th) && ServingOpen(s) && th.pc.RegEnter? && !s.shutdown
    requires th.call.key !in s.byKey && DefOf(th.call).service in s.services
    requires (s', pc') == Act(s, th, t, Oracle(ListenOk, []))
    ensures ActPost(s, th, s', pc')
  {
    var r := s.services[DefOf(th.call).service];
    if Serving(s.recs[r]) && ConflictWith(s.recs[r], DefOf(th.call)).None? {
      JoinPost(s, th, r, BackendOf(th.call, t), s', pc');
    }
  }

  lemma JoinPost(s: Shared, th: Thread, r: nat, b: Backend, s': Shared, pc': Pc)
    requires ThreadOk(s, th) && th.pc.RegEnter? && r < |s.recs|
    requires s' == Join(s, r, b) && pc'.Done?
    ensures ActPost(s, th, s', pc')
  {
  }

  lemma RegWaitPost(s: Shared, th: Thread, t: nat, o: Oracle, s': Shared, pc': Pc)
    requires Structure(s) && ThreadOk(s, th) && th.pc.RegWait?
    requires (s', pc') == Act(s, th, t, o)
    ensures ActPost(s, th, s', pc')
  {
  }

  lemma ListeningPost(s: Shared, th: Thread, t: nat, o: Oracle, s': Shared, pc': Pc)
    requires Structure(s) && ThreadOk(s, th) && th.pc.Listening?
    requires (s', pc') == Act(s, th, t, o)
    ensures ActPost(s, th, s', pc')
  {
    if o.listen.ListenOk? {
      OpenedPost(s, th, s', pc');
    }
  }

  lemma OpenedPost(s: Shared, th: Thread, s': Shared, pc': Pc)
    requires Structure(s) && ThreadOk(s, th) && th.pc.Listening?
    requires s' == Opened(s, th.pc.rec) && pc' == Publishing(th.pc.rec)
    ensures ActPost(s, th, s', pc')
  {
  }

  lemma AbandoningPost(s: Shared, th: Thread, t: nat, o: Oracle, s': Shared, pc': Pc)
    requires Structure(s) && ThreadOk(s, th) && th.pc.Abandoning?
    requires (s', pc') == Act(s, th, t, o)
    ensures ActPost(s, th, s', pc')
  {
  }

  lemma PublishingPost(s: Shared, th: Thread, t: nat, o: Oracle, s': Shared, pc': Pc)
    requires Structure(s) && ThreadOk(s, th) && th.pc.Publishing?
    requires (s', pc') == Act(s, th, t, o)
    ensures ActPost(s, th, s', pc')
  {
  }

  lemma TearPost(s: Shared, th: Thread, t: nat, o: Oracle, s': Shared, pc': Pc)
    requires Structure(s) && ThreadOk(s, th) && (th.pc.ShutTear? || th.pc.DeregTear?)
    requires (s', pc') == Act(s, th, t, o)
    ensures ActPost(s, th, s', pc')
  {
  }

  lemma DeregEnterPost(s: Shared, th: Thread, t: nat, o: Oracle, s': Shared, pc': Pc)
    requires Structure(s) && KeysServed(s) && ThreadOk(s, th) && ServingOpen(s) && th.pc.DeregEnter?
    requires (s', pc') == Act(s, th, t, o)
    ensures ActPost(s, th, s', pc')
  {
    if th.call.key in s.byKey {
      assert KeyServed(s, th.call.key, s.byKey[th.call.key]);
      LeavePost(s, th, ServiceIndex.Deregister(s, th.call.key).1, s', pc');
    }
  }

  /** A member leaves the pool of a serving service, and with it perhaps the service. */
  lemma LeavePost(s: Shared, th: Thread, emptied: Option<nat>, s': Shared, pc': Pc)
    requires Structure(s) && ThreadOk(s, th) && ServingOpen(s) && th.pc.DeregEnter?
    requires th.call.key in s.byKey && KeyServed(s, th.call.key, s.byKey[th.call.key])
    requires (s', emptied) == ServiceIndex.Deregister(s, th.call.key)
    requires pc' == if emptied.Some? then DeregTear(emptied.value) else Done(None)
    ensures ActPost(s, th, s', pc')
  {
    var r := s.services[s.byKey[th.call.key]];
    if emptied.Some? {
      EmptiedPost(s, th, r, s', pc');
    } else {
      ShrunkPost(s, th, r, s', pc');
    }
  }

  lemma EmptiedPost(s: Shared, th: Thread, r: nat, s': Shared, pc': Pc)
    requires ThreadOk(s, th) && ServingOpen(s) && th.pc.DeregEnter? && !s.shutdown
    requires r < |s.recs| && RecordOk(s.recs[r]) && Serving(s.recs[r])
    requires s'.recs == s.recs[r := s.recs[r].(pool := [], withdrawing := Some(0))] && s'.shutdown == s.shutdown
    requires pc' == DeregTear(r)
    ensures ActPost(s, th, s', pc')
  {
  }

  lemma ShrunkPost(s: Shared, th: Thread, r: nat, s': Shared, pc': Pc)
    requires ThreadOk(s, th) && th.pc.DeregEnter? && r < |s.recs| && |s'.recs| == |s.recs|
    requires s'.recs == s.recs[r := s.recs[r].(pool := s'.recs[r].pool)] && s'.shutdown == s.shutdown && pc'.Done?
    ensures ActPost(s, th, s', pc')
  {
  }

  lemma DeregFinishPost(s: Shared, th: Thread, t: nat, o: Oracle, s': Shared, pc': Pc)
    requires Structure(s) && ThreadOk(s, th) && th.pc.DeregFinish?
    requires (s', pc') == Act(s, th, t, o)
    ensures ActPost(s, th, s', pc')
  {
  }

  lemma CloseEnterPost(s: Shared, th: Thread, t: nat, o: Oracle, s': Shared, pc': Pc)
    requires Structure(s) && ThreadOk(s, th) && ServingOpen(s) && th.pc.CloseEnter?
    requires Lists(o.order, ServingSet(s))
    requires (s', pc') == Act(s, th, t, o)
    ensures ActPost(s, th, s', pc')
  {
    ServingListed(s, o.order);
  }

  lemma ServingListed(s: Shared, order: seq<nat>)
    requires Structure(s) && Lists(order, ServingSet(s))
    ensures forall r :: r in order ==> r < |s.recs| && Serving(s.recs[r]) && !s.shutdown
    ensures forall i :: 0 <= i < |order| ==> order[i] < |s.recs| && Serving(s.recs[order[i]])
    ensures forall r :: 0 <= r < |s.recs| && !s.shutdown && Serving(s.recs[r]) ==> r in order
  {
    forall r | r in order
      ensures r < |s.recs| && Serving(s.recs[r]) && !s.shutdown
    {
      assert r in ServingSet(s);
    }
    forall i | 0 <= i < |order|
      ensures order[i] < |s.recs| && Serving(s.recs[order[i]])
    {
      assert order[i] in order;
    }
    forall r | 0 <= r < |s.recs| && !s.shutdown && Serving(s.recs[r])
      ensures r in order
    {
      assert At(s, s.recs[r].name) == s.recs[r];
      assert r in ServingSet(s);
    }
  }

  lemma CloseTearPost(s: Shared, th: Thread, t: nat, o: Oracle, s': Shared, pc': Pc)
    requires Structure(s) && ThreadOk(s, th) && th.pc.CloseTear?
    requires (s', pc') == Act(s, th, t, o)
    ensures ActPost(s, th, s', pc')
  {
    var rs := th.pc.recs;
    assert rs == [rs[0]] + rs[1..];
  }

  /** The world only offers what the step's guard allows. */
  ghost predicate Allowed(s: Shared, th: Thread, o: Oracle)
    requires IndexTyped(s)
  {
    && !th.pc.Done?
    && (th.pc.CloseEnter? ==> Lists(o.order, ServingSet(s)))
  }

  lemma EveryActPost(s: Shared, th: Thread, t: nat, o: Oracle, s': Shared, pc': Pc)
    requires Structure(s) && KeysServed(s) && ThreadOk(s, th) && ServingOpen(s) && Allowed(s, th, o)
    requires (s', pc') == Act(s, th, t, o)
    ensures ActPost(s, th, s', pc')
  {
    match th.pc
    case RegEnter => RegEnterPost(s, th, t, o, s', pc');
    case RegWait(_) => RegWaitPost(s, th, t, o, s', pc');
    case Listening(_) => ListeningPost(s, th, t, o, s', pc');
    case Abandoning(_, _) => AbandoningPost(s, th, t, o, s', pc');
    case Publishing(_) => PublishingPost(s, th, t, o, s', pc');
    case ShutTear(_) => TearPost(s, th, t, o, s', pc');
    case DeregEnter => DeregEnterPost(s, th, t, o, s', pc');
    case DeregTear(_) => TearPost(s, th, t, o, s', pc');
    case DeregFinish(_) => DeregFinishPost(s, th, t, o, s', pc');
    case CloseEnter => CloseEnterPost(s, th, t, o, s', pc');
    case CloseTear(_) => CloseTearPost(s, th, t, o, s', pc');
  }

  lemma EveryActKeepsIndex(s: Shared, th: Thread, t: nat, o: Oracle, s': Shared, pc': Pc)
    requires IndexInv(s) && ThreadOk(s, th) && Allowed(s, th, o)
    requires (s', pc') == Act(s, th, t, o)
    ensures IndexInv(s')
  {
    if IsRegistration(th.call) {
      RegistrationKeepsIndex(s, th, t, o, s', pc');
    } else {
      TeardownKeepsIndex(s, th, t, o, s', pc');
    }
  }

  lemma RegistrationKeepsIndex(s: Shared, th: Thread, t: nat, o: Oracle, s': Shared, pc': Pc)
    requires IndexInv(s) && ThreadOk(s, th) && Allowed(s, th, o) && IsRegistration(th.call)
    requires (s', pc') == Act(s, th, t, o)
    ensures IndexInv(s')
  {
    match th.pc
    case RegEnter => RegisterKeeps(s, DefOf(th.call), BackendOf(th.call, t));
    case RegWait(_) =>
    case Listening(r) => OpenedKeeps(s, r);
    case Abandoning(r, _) => ReleaseKeeps(s, r);
    case Publishing(r) => PublishKeeps(s, r, BackendOf(th.call, t));
    case ShutTear(r) => TornDownKeeps(s, r);
  }

  lemma TeardownKeepsIndex(s: Shared, th: Thread, t: nat, o: Oracle, s': Shared, pc': Pc)
    requires IndexInv(s) && ThreadOk(s, th) && Allowed(s, th, o) && !IsRegistration(th.call)
    requires (s', pc') == Act(s, th, t, o)
    ensures IndexInv(s')
  {
    match th.pc
    case DeregEnter => DeregisterKeeps(s, th.call.key);
    case DeregTear(r) => TornDownKeeps(s, r);
    case DeregFinish(r) => FinishKeeps(s, r);
    case CloseEnter => ShutKeeps(s);
    case CloseTear(rs) => TornDownKeeps(s, rs[0]);
  }

  // ------------------------------------------------------------------ from one action to the state

  lemma HeldStayApart(s: Shared, ths: seq<Thread>, t: nat, th': Thread)
    requires t < |ths| && HeldApart(ths)
    requires ThreadsOk(s, ths)
    requires forall r :: r in Held(th'.pc) ==> r in Held(ths[t].pc) || Fresh(s, r)
    ensures HeldApart(ths[t := th'])
  {
    forall u | 0 <= u < |ths| && u != t
      ensures Held(th'.pc) !! Held(ths[u].pc)
    {
      HeldNotFresh(s, ths[u]);
      assert Held(ths[t].pc) !! Held(ths[u].pc);
    }
  }

  lemma ThreadsStayOk(s: Shared, s': Shared, ths: seq<Thread>, t: nat, th': Thread)
    requires t < |ths| && HeldApart(ths[t := th']) && HeldApart(ths)
    requires ThreadsOk(s, ths)
    requires ThreadOk(s', th') && Effect(s, s', Held(ths[t].pc) + Held(th'.pc))
    ensures ThreadsOk(s', ths[t := th'])
  {
    var ths' := ths[t := th'];
    forall u | 0 <= u < |ths| && u != t
      ensures ThreadOk(s', ths'[u])
    {
      assert Held(ths[t].pc) !! Held(ths[u].pc);
      assert Held(ths'[t].pc) !! Held(ths'[u].pc);
      OtherThreadOk(s, s', Held(ths[t].pc) + Held(th'.pc), ths[u]);
    }
  }

  /** A record the acting thread neither held nor took keeps its owner. */
  lemma OtherRecordOwned(s: Shared, s': Shared, ths: seq<Thread>, t: nat, th': Thread, r: nat)
    requires t < |ths| && r < |s.recs| && r < |s'.recs| && RecordOwned(s, ths, r)
    requires r !in Held(ths[t].pc) && r !in Held(th'.pc)
    requires Core(s'.recs[r]) == Core(s.recs[r])
    requires !s.shutdown && s'.shutdown ==> !Serving(s.recs[r])
    requires s.shutdown ==> s'.shutdown
    ensures RecordOwned(s', ths[t := th'], r)
  {
    var ths' := ths[t := th'];
    var rec := s.recs[r];
    if rec.advertised == 0 {
      var u :| 0 <= u < |ths| && Claims(ths[u].pc, r);
      assert Claims(ths'[u].pc, r);
    }
    if rec.withdrawing == Some(0) {
      var u :| 0 <= u < |ths| && Withdraws(ths[u].pc, r);
      assert Withdraws(ths'[u].pc, r);
    }
    if ListenerOpen(rec) && !(!s.shutdown && Serving(rec)) {
      var u :| 0 <= u < |ths| && Owes(ths[u].pc, r);
      assert Owes(ths'[u].pc, r);
    }
  }

  lemma SelfRecordOwned(s: Shared, ths: seq<Thread>, t: nat, r: nat)
    requires t < |ths| && r < |s.recs| && SelfOwned(s, ths[t].pc, r)
    ensures RecordOwned(s, ths, r)
  {
  }

  lemma RecordsStayOwned(s: Shared, s': Shared, ths: seq<Thread>, t: nat, th': Thread)
    requires t < |ths| && ActPost(s, ths[t], s', th'.pc)
    requires RecordsOwned(s, ths)
    ensures RecordsOwned(s', ths[t := th'])
  {
    var ths' := ths[t := th'];
    forall r | 0 <= r < |s'.recs|
      ensures RecordOwned(s', ths', r)
    {
      if r in Held(ths[t].pc) + Held(th'.pc) {
        SelfRecordOwned(s', ths', t, r);
      } else {
        assert r < |s.recs|;
        OtherRecordOwned(s, s', ths, t, th', r);
      }
    }
  }

  /** Until shutdown, a taken name is in the index. */
  lemma TakesLive(st: State, r: nat)
    requires ThreadsOk(st.sh, st.threads) && RecordsOwned(st.sh, st.threads)
    requires RecordsOk(st.sh) && !st.sh.shutdown
    requires r < |st.sh.recs| && Takes(st.sh.recs[r])
    ensures Live(st.sh.recs[r])
  {
    assert RecordOwned(st.sh, st.threads, r);
    assert RecordOk(st.sh.recs[r]);
    if st.sh.recs[r].advertised != 0 && !Serving(st.sh.recs[r]) {
      var u :| 0 <= u < |st.threads| && Owes(st.threads[u].pc, r);
      assert ThreadOk(st.sh, st.threads[u]);
    }
  }

  lemma NamesStayApart(st: State, s': Shared)
    requires Structure(st.sh) && ThreadsOk(st.sh, st.threads) && RecordsOwned(st.sh, st.threads)
    requires NamesApart(st.sh) && NamesKept(st.sh, s')
    ensures NamesApart(s')
  {
    var s := st.sh;
    forall q, r | 0 <= q < r < |s'.recs| && Takes(s'.recs[q]) && Takes(s'.recs[r])
      ensures s'.recs[q].name != s'.recs[r].name
    {
      assert Takes(s.recs[q]);
      if r == |s.recs| {
        TakesLive(st, q);
        assert Indexed(s, q);
      }
    }
  }

  lemma RunKeepsInv(st: State, t: nat, o: Oracle)
    requires Inv(st) && Typed(st) && Enabled(st, Run(t, o))
    ensures Inv(Next(st, Run(t, o)))
  {
    var th := st.threads[t];
    var (s', pc') := Act(st.sh, th, t, o);
    assert ServingOpen(st.sh) by {
      forall r | 0 <= r < |st.sh.recs| && !st.sh.shutdown && Serving(st.sh.recs[r])
        ensures ListenerOpen(st.sh.recs[r])
      {
        assert RecordOwned(st.sh, st.threads, r);
      }
    }
    EveryActKeepsIndex(st.sh, th, t, o, s', pc');
    EveryActPost(st.sh, th, t, o, s', pc');
    var th' := Thread(th.call, pc');
    HeldStayApart(st.sh, st.threads, t, th');
    ThreadsStayOk(st.sh, s', st.threads, t, th');
    RecordsStayOwned(st.sh, s', st.threads, t, th');
    NamesStayApart(st, s');
    RunKeepsLocks(st, t, o);
  }

  lemma RunKeepsLocks(st: State, t: nat, o: Oracle)
    requires LocksOk(st) && Typed(st) && Enabled(st, Run(t, o))
    ensures LocksOk(Next(st, Run(t, o)))
  {
  }

  lemma InvokeKeepsInv(st: State, call: Call)
    requires Inv(st) && Typed(st) && Enabled(st, Invoke(call))
    ensures Inv(Next(st, Invoke(call)))
  {
    NewThread(st.sh, st.threads, Thread(call, Start(call)));
  }

  /** A call that has just begun holds nothing. */
  lemma NewThread(s: Shared, ths: seq<Thread>, th: Thread)
    requires ThreadsOk(s, ths) && HeldApart(ths) && RecordsOwned(s, ths)
    requires ThreadOk(s, th) && Held(th.pc) == {}
    ensures ThreadsOk(s, ths + [th]) && HeldApart(ths + [th]) && RecordsOwned(s, ths + [th])
  {
    var ths' := ths + [th];
    forall r | 0 <= r < |s.recs|
      ensures RecordOwned(s, ths', r)
    {
      OwnedByMore(s, ths, th, r);
    }
  }

  lemma OwnedByMore(s: Shared, ths: seq<Thread>, th: Thread, r: nat)
    requires r < |s.recs| && RecordOwned(s, ths, r)
    ensures RecordOwned(s, ths + [th], r)
  {
    var ths' := ths + [th];
    assert forall u :: 0 <= u < |ths| ==> ths'[u] == ths[u];
  }

  lemma AcquireKeepsInv(st: State, t: nat)
    requires Inv(st) && Typed(st) && Enabled(st, Acquire(t))
    ensures Inv(Next(st, Acquire(t)))
  {
  }

  lemma StepKeepsInv(st: State, l: Label)
    requires Inv(st) && Typed(st) && Enabled(st, l)
    ensures Inv(Next(st, l))
  {
    match l
    case Invoke(call) => InvokeKeepsInv(st, call);
    case Acquire(t) => AcquireKeepsInv(st, t);
    case Run(t, o) => RunKeepsInv(st, t, o);
  }

  lemma InitInv()
    ensures Inv(INIT)
  {
    assert ReadyNames(INIT.sh) == {};
  }
}
