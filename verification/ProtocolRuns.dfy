/**
 Runs of the protocol, and what holds in every state of every run: one listener per name, one
 teardown per listener, one close per channel, exact gauges, no deadlock.
 */
module ProtocolRuns {
  import opened Options
  import opened ServiceIndex
  import opened Protocol
  import opened ProtocolInvariant

  ghost predicate Step(st: State, l: Label, st': State) {
    Typed(st) && Enabled(st, l) && st' == Next(st, l)
  }

  /** A run: the manager starts empty, and each state is followed by a step of the protocol. */
  ghost predicate IsRun(states: seq<State>, labels: seq<Label>) {
    && |states| == |labels| + 1
    && states[0] == INIT
    && (forall i :: 0 <= i < |labels| ==> Step(states[i], labels[i], states[i + 1]))
  }

  lemma {:induction false} RunInv(states: seq<State>, labels: seq<Label>, i: nat)
    requires IsRun(states, labels) && i < |states|
    ensures Inv(states[i])
  {
    if i == 0 {
      InitInv();
    } else {
      RunInv(states, labels, i - 1);
      assert Step(states[i - 1], labels[i - 1], states[i]);
      StepKeepsInv(states[i - 1], labels[i - 1]);
    }
  }

  // ------------------------------------------------------------------ listeners

  /** While a listen call for a name is pending or in flight, no listener for that name is open. */
  lemma ListenNeverOverlaps(states: seq<State>, labels: seq<Label>, i: nat, t: nat, q: nat)
    requires IsRun(states, labels) && i < |states|
    requires t < |states[i].threads| && states[i].threads[t].pc.Listening?
    requires q < |states[i].sh.recs| && ListenerOpen(states[i].sh.recs[q])
    ensures states[i].threads[t].pc.rec < |states[i].sh.recs|
    ensures states[i].sh.recs[q].name != states[i].sh.recs[states[i].threads[t].pc.rec].name
  {
    RunInv(states, labels, i);
    var st := states[i];
    var r := st.threads[t].pc.rec;
    assert ThreadOk(st.sh, st.threads[t]);
    NamesDiffer(st.sh, q, r);
  }

  lemma NamesDiffer(s: Shared, q: nat, r: nat)
    requires NamesApart(s) && q < |s.recs| && r < |s.recs| && q != r
    requires Takes(s.recs[q]) && Takes(s.recs[r])
    ensures s.recs[q].name != s.recs[r].name
  {
  }

  lemma OneListenerPerName(states: seq<State>, labels: seq<Label>, i: nat, q: nat, r: nat)
    requires IsRun(states, labels) && i < |states|
    requires q < |states[i].sh.recs| && ListenerOpen(states[i].sh.recs[q])
    requires r < |states[i].sh.recs| && ListenerOpen(states[i].sh.recs[r])
    requires states[i].sh.recs[q].name == states[i].sh.recs[r].name
    ensures q == r
  {
    RunInv(states, labels, i);
    if q != r {
      NamesDiffer(states[i].sh, q, r);
    }
  }

  predicate AllDone(ths: seq<Thread>) {
    forall t :: 0 <= t < |ths| ==> ths[t].pc.Done?
  }

  /** Each listener is opened at most once and torn down at most once, each channel is closed at
      most once, and a teardown in progress is the only one that listener will have. */
  lemma TornDownOnce(states: seq<State>, labels: seq<Label>, i: nat, r: nat)
    requires IsRun(states, labels) && i < |states| && r < |states[i].sh.recs|
    ensures
      var rec := states[i].sh.recs[r];
      && rec.tears <= rec.opens <= 1
      && rec.advertised <= 1
      && (rec.withdrawing.Some? ==> rec.withdrawing.value <= 1)
    ensures forall t, u | 0 <= t < |states[i].threads| && 0 <= u < |states[i].threads| ::
      Owes(states[i].threads[t].pc, r) && Owes(states[i].threads[u].pc, r) ==> t == u
  {
    RunInv(states, labels, i);
    var st := states[i];
    assert RecordOk(st.sh.recs[r]);
    OneOwes(st.threads, r);
  }

  lemma OneOwes(ths: seq<Thread>, r: nat)
    requires HeldApart(ths)
    ensures forall t, u | 0 <= t < |ths| && 0 <= u < |ths| :: Owes(ths[t].pc, r) && Owes(ths[u].pc, r) ==> t == u
  {
    forall t, u | 0 <= t < |ths| && 0 <= u < |ths| && Owes(ths[t].pc, r) && Owes(ths[u].pc, r)
      ensures t == u
    {
      SameHolder(ths, t, u, r);
    }
  }

  lemma SameHolder(ths: seq<Thread>, t: nat, u: nat, r: nat)
    requires HeldApart(ths) && t < |ths| && u < |ths|
    requires r in Held(ths[t].pc) && r in Held(ths[u].pc)
    ensures t == u
  {
  }

  /** A teardown is made by the emptying Deregister, by Close, or by the shutdown branch of
      advertise, and it is the first one of a listener that was open. */
  lemma TearHasOneCause(states: seq<State>, labels: seq<Label>, i: nat, r: nat)
    requires IsRun(states, labels) && i < |labels|
    requires r < |states[i].sh.recs| && r < |states[i + 1].sh.recs|
    requires states[i + 1].sh.recs[r].tears != states[i].sh.recs[r].tears
    ensures labels[i].Run? && labels[i].thread < |states[i].threads|
    ensures
      var pc := states[i].threads[labels[i].thread].pc;
      pc == ShutTear(r) || pc == DeregTear(r) || (pc.CloseTear? && pc.recs != [] && pc.recs[0] == r)
    ensures states[i].sh.recs[r].opens == 1 && states[i].sh.recs[r].tears == 0
    ensures states[i + 1].sh.recs[r].tears == 1
  {
    assert Step(states[i], labels[i], states[i + 1]);
    RunInv(states, labels, i);
    RunInv(states, labels, i + 1);
    var st := states[i];
    var t := labels[i].thread;
    TearCause(st.sh, st.threads[t], t, labels[i].oracle, states[i + 1].sh, r);
    assert RecordOk(states[i].sh.recs[r]) && RecordOk(states[i + 1].sh.recs[r]);
  }

  lemma TearCause(s: Shared, th: Thread, t: nat, o: Oracle, s': Shared, r: nat)
    requires IndexTyped(s) && PcTyped(s, th) && s' == Act(s, th, t, o).0
    requires r < |s.recs| && r < |s'.recs| && s'.recs[r].tears != s.recs[r].tears
    ensures th.pc == ShutTear(r) || th.pc == DeregTear(r) || (th.pc.CloseTear? && th.pc.recs[0] == r)
    ensures s'.recs[r].tears == s.recs[r].tears + 1
  {
    if LockOf(th.pc) != ServeMu {
      MuKeepsListeners(s, th, t, o, r);
    }
  }

  /** Once every call has returned, an open listener belongs to a service in the index; after
      Close there is none, so every listener that was opened has been torn down exactly once. */
  lemma NothingLeftOpen(states: seq<State>, labels: seq<Label>, i: nat, r: nat)
    requires IsRun(states, labels) && i < |states| && r < |states[i].sh.recs|
    requires AllDone(states[i].threads)
    ensures states[i].sh.shutdown ==> states[i].sh.recs[r].tears == states[i].sh.recs[r].opens
    ensures states[i].sh.recs[r].advertised == 1 && states[i].sh.recs[r].withdrawing != Some(0)
    ensures !states[i].sh.shutdown && ListenerOpen(states[i].sh.recs[r]) ==>
      Indexed(states[i].sh, r) && Serving(states[i].sh.recs[r])
  {
    RunInv(states, labels, i);
    assert RecordOwned(states[i].sh, states[i].threads, r);
    assert RecordOk(states[i].sh.recs[r]);
  }

  // ------------------------------------------------------------------ gauges

  /** The active gauge counts the ready records of the index, is never negative, and is 0 once
      Close has run, whatever it raced with; the pool-size series follow the index. */
  lemma GaugesInEveryState(states: seq<State>, labels: seq<Label>, i: nat)
    requires IsRun(states, labels) && i < |states|
    ensures IndexTyped(states[i].sh)
    ensures states[i].sh.active == |ReadyNames(states[i].sh)|
    ensures states[i].sh.active >= 0
    ensures states[i].sh.shutdown ==> states[i].sh.active == 0 && states[i].sh.series == map[]
    ensures forall n :: n in states[i].sh.series <==> n in ReadyNames(states[i].sh)
    ensures forall n :: n in states[i].sh.services && Serving(At(states[i].sh, n)) ==>
      n in states[i].sh.series && states[i].sh.series[n] == |At(states[i].sh, n).pool|
  {
    RunInv(states, labels, i);
    if states[i].sh.shutdown {
      assert ReadyNames(states[i].sh) == {};
      assert states[i].sh.series.Keys == {};
    }
  }

  // ------------------------------------------------------------------ locks and waiting

  /** No thread holds both locks, and a lock holder is neither waiting on a channel nor returned. */
  lemma LocksNeverNest(states: seq<State>, labels: seq<Label>, i: nat, t: nat)
    requires IsRun(states, labels) && i < |states| && t < |states[i].threads|
    ensures !(states[i].mu == Some(t) && states[i].serveMu == Some(t))
    ensures states[i].mu == Some(t) || states[i].serveMu == Some(t) ==>
      !states[i].threads[t].pc.RegWait? && !states[i].threads[t].pc.Done?
  {
    RunInv(states, labels, i);
  }

  /** An edit of the serve config is in flight: a listen call or a listener close, lock held. */
  predicate Editing(st: State, t: nat)
    requires t < |st.threads|
  {
    LockOf(st.threads[t].pc) == ServeMu && Holds(st, t, ServeMu)
  }

  /** Every listen call and every listener close is made while editing, and only one thread is. */
  lemma OneEditAtATime(states: seq<State>, labels: seq<Label>, i: nat, t: nat, r: nat)
    requires IsRun(states, labels) && i < |labels| && labels[i].Run? && labels[i].thread == t
    requires r < |states[i].sh.recs| && r < |states[i + 1].sh.recs|
    requires states[i + 1].sh.recs[r].opens != states[i].sh.recs[r].opens
          || states[i + 1].sh.recs[r].tears != states[i].sh.recs[r].tears
    ensures t < |states[i].threads| && Editing(states[i], t)
    ensures forall u :: 0 <= u < |states[i].threads| && u != t ==> !Editing(states[i], u)
  {
    assert Step(states[i], labels[i], states[i + 1]);
    RunInv(states, labels, i);
    var st := states[i];
    if LockOf(st.threads[t].pc) != ServeMu {
      MuKeepsListeners(st.sh, st.threads[t], t, labels[i].oracle, r);
    }
  }

  lemma MuKeepsListeners(s: Shared, th: Thread, t: nat, o: Oracle, r: nat)
    requires IndexTyped(s) && PcTyped(s, th) && LockOf(th.pc) != ServeMu && r < |s.recs|
    ensures |s.recs| <= |Act(s, th, t, o).0.recs|
    ensures Act(s, th, t, o).0.recs[r].opens == s.recs[r].opens
    ensures Act(s, th, t, o).0.recs[r].tears == s.recs[r].tears
  {
  }

  /** The owner of a channel: the thread that will close it. */
  predicate OwnsChannel(pc: Pc, ch: Chan) {
    match ch
    case Advertised(r) => Claims(pc, r)
    case Withdrawing(r) => Withdraws(pc, r)
  }

  /** No lost wake-up: a registration that waits on a channel nobody has closed yet waits for one
      thread that will close it, and that thread is not itself waiting on a channel. */
  lemma WaiterHasOwner(st: State, t: nat) returns (u: nat)
    requires Inv(st) && t < |st.threads| && st.threads[t].pc.RegWait?
    requires !Signalled(st.sh, st.threads[t].pc.ch)
    ensures u < |st.threads| && OwnsChannel(st.threads[u].pc, st.threads[t].pc.ch)
    ensures LockOf(st.threads[u].pc) != Neither
    ensures forall v :: 0 <= v < |st.threads| && OwnsChannel(st.threads[v].pc, st.threads[t].pc.ch) ==> v == u
  {
    var ch := st.threads[t].pc.ch;
    assert ThreadOk(st.sh, st.threads[t]);
    u := OwnerOf(st.sh, st.threads, ch);
    OneOwner(st.threads, u, ch);
  }

  lemma OwnerOf(s: Shared, ths: seq<Thread>, ch: Chan) returns (u: nat)
    requires RecordsOwned(s, ths) && ch.rec < |s.recs| && !Signalled(s, ch)
    requires ch.Withdrawing? ==> s.recs[ch.rec].withdrawing.Some?
    ensures u < |ths| && OwnsChannel(ths[u].pc, ch) && LockOf(ths[u].pc) != Neither
  {
    assert RecordOwned(s, ths, ch.rec);
    if ch.Advertised? {
      u :| 0 <= u < |ths| && Claims(ths[u].pc, ch.rec);
    } else {
      u :| 0 <= u < |ths| && Withdraws(ths[u].pc, ch.rec);
    }
  }

  lemma OneOwner(ths: seq<Thread>, u: nat, ch: Chan)
    requires HeldApart(ths) && u < |ths| && OwnsChannel(ths[u].pc, ch)
    ensures forall v :: 0 <= v < |ths| && OwnsChannel(ths[v].pc, ch) ==> v == u
  {
    forall v | 0 <= v < |ths| && OwnsChannel(ths[v].pc, ch)
      ensures v == u
    {
      SameHolder(ths, u, v, ch.rec);
    }
  }

  predicate Internal(l: Label) {
    !l.Invoke?
  }

  /** No deadlock: until every call has returned, some thread can take a lock or run. */
  lemma NoDeadlock(states: seq<State>, labels: seq<Label>, i: nat) returns (l: Label)
    requires IsRun(states, labels) && i < |states| && !AllDone(states[i].threads)
    ensures Typed(states[i]) && Internal(l) && Enabled(states[i], l)
  {
    RunInv(states, labels, i);
    var st := states[i];
    InvTyped(st);
    var t :| 0 <= t < |st.threads| && !st.threads[t].pc.Done?;
    var pc := st.threads[t].pc;
    if pc.RegWait? && Signalled(st.sh, pc.ch) {
      l := Run(t, Oracle(ListenOk, []));
    } else if pc.RegWait? {
      var u := WaiterHasOwner(st, t);
      l := LockMoves(st, u);
    } else {
      l := LockMoves(st, t);
    }
  }

  /** A thread that needs a lock can take it, or the thread that has it can run. */
  lemma LockMoves(st: State, t: nat) returns (l: Label)
    requires Inv(st) && Typed(st) && t < |st.threads| && LockOf(st.threads[t].pc) != Neither
    ensures Internal(l) && Enabled(st, l)
  {
    var lock := LockOf(st.threads[t].pc);
    if Free(st, lock) {
      l := Acquire(t);
    } else {
      var u := if lock == Mu then st.mu.value else st.serveMu.value;
      var order := Enumerate(ServingSet(st.sh));
      l := Run(u, Oracle(ListenOk, order));
    }
  }

  lemma Enumerate(rs: set<nat>) returns (order: seq<nat>)
    ensures Lists(order, rs)
    decreases rs
  {
    if rs == {} {
      order := [];
    } else {
      var r :| r in rs;
      var rest := Enumerate(rs - {r});
      order := [r] + rest;
      assert forall q :: q in order <==> q == r || q in rest;
      assert forall q :: q in rest <==> q in rs - {r};
      assert Distinct(order) by {
        assert forall i :: 0 <= i < |rest| ==> rest[i] in rest;
      }
    }
  }
}
