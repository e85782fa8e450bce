/**
 Every call returns. Between two new calls no schedule of the threads can go on for ever: each
 step lowers a measure made of the Close calls still to enter, the channels still to be closed,
 and how far each thread is from its return.
 */
module ProtocolTermination {
  import opened Options
  import opened ServiceIndex
  import opened Protocol
  import opened ProtocolInvariant
  import opened ProtocolRuns

  function Total(xs: seq<nat>): nat {
    if xs == [] then 0 else xs[0] + Total(xs[1..])
  }

  lemma {:induction false} TotalMonotone(xs: seq<nat>, ys: seq<nat>)
    requires |xs| == |ys| && forall i :: 0 <= i < |xs| ==> ys[i] <= xs[i]
    ensures Total(ys) <= Total(xs)
  {
    if xs != [] {
      TotalMonotone(xs[1..], ys[1..]);
    }
  }

  lemma {:induction false} TotalDrops(xs: seq<nat>, ys: seq<nat>, t: nat)
    requires |xs| == |ys| && t < |xs| && ys[t] < xs[t]
    requires forall i :: 0 <= i < |xs| ==> ys[i] <= xs[i]
    ensures Total(ys) < Total(xs)
  {
    if t == 0 {
      TotalMonotone(xs[1..], ys[1..]);
    } else {
      TotalDrops(xs[1..], ys[1..], t - 1);
    }
  }

  /** Close calls that have not entered their critical section. */
  function Entries(pc: Pc): nat {
    if pc.CloseEnter? then 1 else 0
  }

  /** Channels this thread has still to close, or may still make and close. */
  function Channels(pc: Pc): nat {
    match pc
    case RegEnter => 1
    case RegWait(_) => 1
    case Listening(_) => 1
    case Abandoning(_, _) => 1
    case Publishing(_) => 1
    case DeregEnter => 1
    case DeregTear(_) => 1
    case DeregFinish(_) => 1
    case _ => 0
  }

  /** Distance to the next close of a channel or to the return, in steps of this thread. */
  function Distance(s: Shared, pc: Pc): nat {
    match pc
    case RegWait(ch) => if Signalled(s, ch) then 8 else 4
    case RegEnter => 7
    case Listening(_) => 4
    case Abandoning(_, _) => 2
    case Publishing(_) => 2
    case ShutTear(_) => 2
    case DeregEnter => 6
    case DeregTear(_) => 4
    case DeregFinish(_) => 2
    case CloseEnter => 2
    case CloseTear(rs) => 2 * |rs| + 1
    case Done(_) => 0
  }

  /** Holding the lock it needs brings a thread one step closer. */
  function Rank(st: State, t: nat): nat
    requires t < |st.threads|
  {
    var d := Distance(st.sh, st.threads[t].pc);
    if d > 0 && LockOf(st.threads[t].pc) != Neither && Holds(st, t, LockOf(st.threads[t].pc)) then d - 1 else d
  }

  function EntriesOf(st: State): seq<nat> {
    seq(|st.threads|, t requires 0 <= t < |st.threads| => Entries(st.threads[t].pc))
  }

  function ChannelsOf(st: State): seq<nat> {
    seq(|st.threads|, t requires 0 <= t < |st.threads| => Channels(st.threads[t].pc))
  }

  function RanksOf(st: State): seq<nat> {
    seq(|st.threads|, t requires 0 <= t < |st.threads| => Rank(st, t))
  }

  /** The measure of st' is below that of st. */
  ghost predicate Lower(st: State, st': State) {
    || Total(EntriesOf(st')) < Total(EntriesOf(st))
    || (Total(EntriesOf(st')) == Total(EntriesOf(st)) && Total(ChannelsOf(st')) < Total(ChannelsOf(st)))
    || (Total(EntriesOf(st')) == Total(EntriesOf(st)) && Total(ChannelsOf(st')) == Total(ChannelsOf(st))
        && Total(RanksOf(st')) < Total(RanksOf(st)))
  }

  lemma AcquireLowers(st: State, t: nat)
    requires Typed(st) && Enabled(st, Acquire(t))
    ensures Lower(st, Next(st, Acquire(t)))
  {
    var st' := Next(st, Acquire(t));
    assert EntriesOf(st') == EntriesOf(st);
    assert ChannelsOf(st') == ChannelsOf(st);
    TotalDrops(RanksOf(st), RanksOf(st'), t);
  }

  /** No channel that exists in s is closed on the way to s'. */
  ghost predicate SameSignals(s: Shared, s': Shared) {
    && |s.recs| <= |s'.recs|
    && (forall r :: 0 <= r < |s.recs| ==> s'.recs[r].advertised == s.recs[r].advertised)
    && (forall r :: 0 <= r < |s.recs| && s.recs[r].withdrawing.Some? ==>
          s'.recs[r].withdrawing == s.recs[r].withdrawing)
  }

  /** An action closes a channel only by giving up one of the thread's own. */
  lemma ActChannels(s: Shared, th: Thread, t: nat, o: Oracle, s': Shared, pc': Pc)
    requires IndexTyped(s) && PcTyped(s, th) && !th.pc.Done?
    requires (s', pc') == Act(s, th, t, o)
    ensures Entries(pc') <= Entries(th.pc) && Channels(pc') <= Channels(th.pc)
  {
  }

  lemma ActSignals(s: Shared, th: Thread, t: nat, o: Oracle, s': Shared, pc': Pc)
    requires Structure(s) && KeysServed(s) && PcTyped(s, th) && !th.pc.Done?
    requires (s', pc') == Act(s, th, t, o) && Channels(pc') == Channels(th.pc)
    ensures SameSignals(s, s')
  {
    if th.pc.DeregEnter? {
      LeaveSignals(s, th.call.key);
    } else if th.pc.RegEnter? {
      EnterSignals(s, DefOf(th.call), BackendOf(th.call, t));
    } else if LockOf(th.pc) == ServeMu {
      EditSignals(s, th, t, o);
    }
  }

  lemma LeaveSignals(s: Shared, key: Key)
    requires IndexTyped(s) && KeysServed(s)
    ensures SameSignals(s, ServiceIndex.Deregister(s, key).0)
  {
    if key in s.byKey {
      assert KeyServed(s, key, s.byKey[key]);
    }
  }

  lemma EnterSignals(s: Shared, def: Def, b: Backend)
    requires IndexTyped(s)
    ensures SameSignals(s, ServiceIndex.Register(s, def, b).0)
  {
  }

  lemma EditSignals(s: Shared, th: Thread, t: nat, o: Oracle)
    requires IndexTyped(s) && PcTyped(s, th) && LockOf(th.pc) == ServeMu
    ensures SameSignals(s, Act(s, th, t, o).0)
  {
  }

  /** A registration that goes to wait finds the channel open. */
  lemma WaitsUnsignalled(s: Shared, th: Thread, t: nat, o: Oracle)
    requires Structure(s) && ThreadOk(s, th) && th.pc.RegEnter?
    requires Act(s, th, t, o).1.RegWait?
    ensures !Signalled(Act(s, th, t, o).0, Act(s, th, t, o).1.ch)
  {
  }

  lemma ActDistance(s: Shared, th: Thread, t: nat, o: Oracle, s': Shared, pc': Pc)
    requires Structure(s) && ThreadOk(s, th) && Allowed(s, th, o)
    requires th.pc.RegWait? ==> Signalled(s, th.pc.ch)
    requires (s', pc') == Act(s, th, t, o)
    requires Entries(pc') == Entries(th.pc) && Channels(pc') == Channels(th.pc)
    ensures Distance(s', pc') + (if th.pc.RegWait? then 0 else 1) < Distance(s, th.pc)
  {
    if th.pc.RegEnter? && pc'.RegWait? {
      WaitsUnsignalled(s, th, t, o);
    }
  }

  lemma RunLowers(st: State, t: nat, o: Oracle)
    requires Inv(st) && Typed(st) && Enabled(st, Run(t, o))
    ensures Lower(st, Next(st, Run(t, o)))
  {
    var th := st.threads[t];
    var (s', pc') := Act(st.sh, th, t, o);
    ActChannels(st.sh, th, t, o, s', pc');
    if Entries(pc') == Entries(th.pc) && Channels(pc') == Channels(th.pc) {
      ActDistance(st.sh, th, t, o, s', pc');
      ActSignals(st.sh, th, t, o, s', pc');
    }
    MoveLowers(st, t, s', pc');
  }

  /** The state after thread t has left its counter for pc' and returned its lock. */
  function Moved(st: State, t: nat, s': Shared, pc': Pc): State
    requires t < |st.threads|
  {
    Return(st.(sh := s', threads := st.threads[t := Thread(st.threads[t].call, pc')]), LockOf(st.threads[t].pc))
  }

  lemma MoveLowers(st: State, t: nat, s': Shared, pc': Pc)
    requires t < |st.threads| && LocksOk(st) && ThreadsOk(st.sh, st.threads)
    requires Holds(st, t, LockOf(st.threads[t].pc))
    requires Entries(pc') <= Entries(st.threads[t].pc) && Channels(pc') <= Channels(st.threads[t].pc)
    requires Entries(pc') == Entries(st.threads[t].pc) && Channels(pc') == Channels(st.threads[t].pc) ==>
      && SameSignals(st.sh, s')
      && Distance(s', pc') + (if st.threads[t].pc.RegWait? then 0 else 1) < Distance(st.sh, st.threads[t].pc)
    ensures Lower(st, Moved(st, t, s', pc'))
  {
    var st' := Moved(st, t, s', pc');
    var pc := st.threads[t].pc;
    if Entries(pc') < Entries(pc) {
      TotalDrops(EntriesOf(st), EntriesOf(st'), t);
    } else {
      assert EntriesOf(st') == EntriesOf(st);
      if Channels(pc') < Channels(pc) {
        TotalDrops(ChannelsOf(st), ChannelsOf(st'), t);
      } else {
        assert ChannelsOf(st') == ChannelsOf(st);
        OthersKeepRank(st, t, s', pc');
        TotalDrops(RanksOf(st), RanksOf(st'), t);
      }
    }
  }

  lemma OthersKeepRank(st: State, t: nat, s': Shared, pc': Pc)
    requires t < |st.threads| && LocksOk(st) && ThreadsOk(st.sh, st.threads) && SameSignals(st.sh, s')
    requires Holds(st, t, LockOf(st.threads[t].pc))
    ensures forall u :: 0 <= u < |st.threads| && u != t ==> Rank(Moved(st, t, s', pc'), u) <= Rank(st, u)
  {
    var st' := Moved(st, t, s', pc');
    forall u | 0 <= u < |st.threads| && u != t
      ensures Rank(st', u) <= Rank(st, u)
    {
      assert ThreadOk(st.sh, st.threads[u]);
      SameDistance(st.sh, s', st.threads[u]);
      assert Holds(st', u, LockOf(st.threads[u].pc)) == Holds(st, u, LockOf(st.threads[u].pc));
    }
  }

  lemma SameDistance(s: Shared, s': Shared, th: Thread)
    requires SameSignals(s, s') && ThreadOk(s, th)
    ensures Distance(s', th.pc) == Distance(s, th.pc)
  {
  }

  /** What the threads do when left alone: any enabled step until all calls have returned. */
  ghost predicate Schedule(f: nat -> State, ls: nat -> Label) {
    forall i: nat :: if AllDone(f(i).threads) then f(i + 1) == f(i)
                     else Step(f(i), ls(i), f(i + 1)) && Internal(ls(i))
  }

  /** Every schedule comes to a state in which every call has returned. */
  lemma {:induction false} EveryCallReturns(f: nat -> State, ls: nat -> Label, i: nat) returns (n: nat)
    requires Schedule(f, ls) && Inv(f(i))
    ensures i <= n && AllDone(f(n).threads) && Inv(f(n))
    decreases Total(EntriesOf(f(i))), Total(ChannelsOf(f(i))), Total(RanksOf(f(i)))
  {
    if AllDone(f(i).threads) {
      n := i;
    } else {
      assert Step(f(i), ls(i), f(i + 1)) && Internal(ls(i));
      StepKeepsInv(f(i), ls(i));
      if ls(i).Acquire? {
        AcquireLowers(f(i), ls(i).thread);
      } else {
        RunLowers(f(i), ls(i).thread, ls(i).oracle);
      }
      n := EveryCallReturns(f, ls, i + 1);
    }
  }
}
