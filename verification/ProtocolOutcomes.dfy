/**
 Which outcome a call gets: what each step of a call leads to, as a condition on the call, the state
 it finds and the answer of the listen call, in every run. A registration returns nil, a conflict, a
 listen error or the shutdown error exactly under the condition stated for it.
 */
module ProtocolOutcomes {
  import opened Options
  import opened ServiceIndex
  import opened Protocol
  import opened ProtocolInvariant
  import opened ProtocolRuns

  // ------------------------------------------------------------------ conditions

  /** The name is in the index, and its record can be joined. */
  ghost predicate FindsServing(s: Shared, name: Name)
    requires IndexTyped(s)
  {
    name in s.services && At(s, name).ready && At(s, name).withdrawing.None?
  }

  ghost predicate SameScheme(s: Shared, def: Def)
    requires IndexTyped(s) && def.service in s.services
  {
    def.scheme == At(s, def.service).scheme
  }

  ghost predicate SameCapSet(s: Shared, def: Def)
    requires IndexTyped(s) && def.service in s.services
  {
    forall c :: c in def.caps <==> c in At(s, def.service).caps
  }

  /** At the top of the loop, with nothing that ends the call before the name is looked at. */
  predicate LooksAtName(s: Shared, th: Thread)
    requires IsRegistration(th.call)
  {
    th.pc.RegEnter? && !s.shutdown && th.call.key !in s.byKey
  }

  /** The condition under which the next action of a registration is to return `out`. */
  ghost predicate Due(s: Shared, th: Thread, out: Outcome)
    requires IndexTyped(s) && IsRegistration(th.call)
  {
    var def := DefOf(th.call);
    match out
    case Registered =>
      && !s.shutdown
      && (|| th.pc.Publishing?
          || (th.pc.RegEnter? && th.call.key in s.byKey)
          || (LooksAtName(s, th) && FindsServing(s, def.service) && SameScheme(s, def) && SameCapSet(s, def)))
    case SchemeConflict => LooksAtName(s, th) && FindsServing(s, def.service) && !SameScheme(s, def)
    case CapsConflict =>
      LooksAtName(s, th) && FindsServing(s, def.service) && SameScheme(s, def) && !SameCapSet(s, def)
    case ListenFailed => th.pc.Abandoning? && th.pc.why == ListenFailed
    case ListenFatal => th.pc.Abandoning? && th.pc.why == ListenFatal
    case ShuttingDown => th.pc.ShutTear? || (th.pc.RegEnter? && s.shutdown)
    case NoInvoker => false
  }

  // ------------------------------------------------------------------ one action

  lemma CapSetsAgree(s: Shared, def: Def)
    requires IndexTyped(s) && def.service in s.services
    ensures SameCaps(At(s, def.service).caps, def.caps) <==> SameCapSet(s, def)
  {
    var a, b := At(s, def.service).caps, def.caps;
    assert forall c :: c in CapSet(a) <==> c in a;
    assert forall c :: c in CapSet(b) <==> c in b;
  }

  lemma EnterReturnsIff(s: Shared, th: Thread, t: nat, o: Oracle, out: Outcome)
    requires IndexTyped(s) && PcTyped(s, th) && th.pc.RegEnter?
    ensures Act(s, th, t, o).1 == Done(Some(out)) <==> Due(s, th, out)
  {
    if DefOf(th.call).service in s.services {
      CapSetsAgree(s, DefOf(th.call));
    }
  }

  lemma LaterReturnsIff(s: Shared, th: Thread, t: nat, o: Oracle, out: Outcome)
    requires IndexTyped(s) && ThreadOk(s, th) && IsRegistration(th.call) && !th.pc.RegEnter? && !th.pc.Done?
    ensures Act(s, th, t, o).1 == Done(Some(out)) <==> Due(s, th, out)
  {
  }

  // ------------------------------------------------------------------ in every run

  /** A registration returns an outcome exactly when it is due. */
  lemma ReturnsIff(states: seq<State>, labels: seq<Label>, i: nat, t: nat, out: Outcome)
    requires IsRun(states, labels) && i < |labels| && labels[i].Run? && labels[i].thread == t
    requires t < |states[i].threads| && IsRegistration(states[i].threads[t].call)
    ensures t < |states[i + 1].threads| && IndexTyped(states[i].sh)
    ensures states[i + 1].threads[t].pc == Done(Some(out)) <==> Due(states[i].sh, states[i].threads[t], out)
  {
    var st := states[i];
    assert Step(st, labels[i], states[i + 1]);
    RunInv(states, labels, i);
    assert ThreadOk(st.sh, st.threads[t]);
    if st.threads[t].pc.RegEnter? {
      EnterReturnsIff(st.sh, st.threads[t], t, labels[i].oracle, out);
    } else {
      LaterReturnsIff(st.sh, st.threads[t], t, labels[i].oracle, out);
    }
  }

  /** What an action of thread t turned its counter and the shared state into. */
  ghost predicate Became(states: seq<State>, i: nat, t: nat, pc: Pc, s: Shared) {
    i + 1 < |states| && t < |states[i + 1].threads| && states[i + 1].threads[t].pc == pc && states[i + 1].sh == s
  }

  ghost predicate Runs(states: seq<State>, labels: seq<Label>, i: nat, t: nat) {
    IsRun(states, labels) && i < |labels| && labels[i].Run? && labels[i].thread == t && t < |states[i].threads|
  }

  lemma RunIsAct(states: seq<State>, labels: seq<Label>, i: nat, t: nat)
    requires Runs(states, labels, i, t)
    ensures Structure(states[i].sh) && ThreadOk(states[i].sh, states[i].threads[t]) && !states[i].threads[t].pc.Done?
    ensures
      var (s', pc') := Act(states[i].sh, states[i].threads[t], t, labels[i].oracle);
      Became(states, i, t, pc', s')
  {
    assert Step(states[i], labels[i], states[i + 1]);
    RunInv(states, labels, i);
    assert ThreadOk(states[i].sh, states[i].threads[t]);
  }

  /** A compatible registration joins: the pool is the old one and this call's backend behind it, the
      key leads to the service, and nothing else but the pool's series has changed. */
  lemma CompatibleJoins(states: seq<State>, labels: seq<Label>, i: nat, t: nat)
    requires Runs(states, labels, i, t) && IsRegistration(states[i].threads[t].call) && IndexTyped(states[i].sh)
    requires
      var (s, th) := (states[i].sh, states[i].threads[t]);
      && LooksAtName(s, th) && FindsServing(s, DefOf(th.call).service)
      && SameScheme(s, DefOf(th.call)) && SameCapSet(s, DefOf(th.call))
    ensures
      var (s, s', c) := (states[i].sh, states[i + 1].sh, states[i].threads[t].call);
      var (name, r) := (DefOf(c).service, s.services[DefOf(c).service]);
      && s'.services == s.services && s'.byKey == s.byKey[c.key := name] && s'.active == s.active
      && s'.recs == s.recs[r := s.recs[r].(pool := s.recs[r].pool + [BackendOf(c, t)])]
  {
    RunIsAct(states, labels, i, t);
    CapSetsAgree(states[i].sh, DefOf(states[i].threads[t].call));
  }

  /** A free name is claimed with the call's scheme and caps; one in transition is waited for on the
      channel of that transition, and nothing changes. */
  lemma OccupiedOrClaimed(states: seq<State>, labels: seq<Label>, i: nat, t: nat)
    requires Runs(states, labels, i, t) && IsRegistration(states[i].threads[t].call) && IndexTyped(states[i].sh)
    requires LooksAtName(states[i].sh, states[i].threads[t])
    requires !FindsServing(states[i].sh, DefOf(states[i].threads[t].call).service)
    ensures
      var (s, s', def) := (states[i].sh, states[i + 1].sh, DefOf(states[i].threads[t].call));
      if def.service in s.services then
        var r := s.services[def.service];
        Became(states, i, t, RegWait(if s.recs[r].withdrawing.Some? then Withdrawing(r) else Advertised(r)), s)
      else
        && t < |states[i + 1].threads| && states[i + 1].threads[t].pc == Listening(|s.recs|)
        && s'.services == s.services[def.service := |s.recs|] && s'.byKey == s.byKey
        && s'.recs == s.recs + [Record(def.service, def.scheme, def.caps, [], false, 0, None, 0, 0)]
  {
    RunIsAct(states, labels, i, t);
  }

  /** A registration of a key that is held already changes nothing. */
  lemma HeldKeyUntouched(states: seq<State>, labels: seq<Label>, i: nat, t: nat)
    requires Runs(states, labels, i, t) && IsRegistration(states[i].threads[t].call)
    requires states[i].threads[t].pc.RegEnter? && states[i].threads[t].call.key in states[i].sh.byKey
    ensures Became(states, i, t, Done(Some(Registered)), states[i].sh)
  {
    RunIsAct(states, labels, i, t);
  }

  /** The answer of the listen call decides: on success the listener is open and the service is
      published next, otherwise the claim is given up for that reason. */
  lemma ListenAnswered(states: seq<State>, labels: seq<Label>, i: nat, t: nat)
    requires Runs(states, labels, i, t) && states[i].threads[t].pc.Listening?
    ensures
      var (s, s', r) := (states[i].sh, states[i + 1].sh, states[i].threads[t].pc.rec);
      match labels[i].oracle.listen
      case ListenOk =>
        && t < |states[i + 1].threads| && states[i + 1].threads[t].pc == Publishing(r)
        && r < |s'.recs| && ListenerOpen(s'.recs[r])
      case ListenErr => Became(states, i, t, Abandoning(r, ListenFailed), s)
      case ListenMagicDNS => Became(states, i, t, Abandoning(r, ListenFatal), s)
  {
    RunIsAct(states, labels, i, t);
  }

  /** The answer that a claim given up for this reason was given. */
  function AnswerFor(why: Outcome): ListenResult
    requires why == ListenFailed || why == ListenFatal
  {
    if why == ListenFailed then ListenErr else ListenMagicDNS
  }

  /** Thread t's listen call was answered so at step i. */
  ghost predicate AnsweredAt(states: seq<State>, labels: seq<Label>, i: nat, t: nat, answer: ListenResult) {
    && i < |labels| && i < |states| && t < |states[i].threads|
    && labels[i].Run? && labels[i].thread == t && states[i].threads[t].pc.Listening?
    && labels[i].oracle.listen == answer
  }

  lemma GivesUp(s: Shared, th: Thread, t: nat, o: Oracle)
    requires IndexTyped(s) && PcTyped(s, th) && !th.pc.Done? && Act(s, th, t, o).1.Abandoning?
    ensures
      var why := Act(s, th, t, o).1.why;
      th.pc.Listening? && (why == ListenFailed || why == ListenFatal) && o.listen == AnswerFor(why)
  {
  }

  /** A claim is given up only after a listen call that failed in that way. */
  lemma {:induction false} GivenUpAfterAnswer(states: seq<State>, labels: seq<Label>, j: nat, t: nat) returns (i: nat)
    requires IsRun(states, labels) && j < |states| && t < |states[j].threads| && states[j].threads[t].pc.Abandoning?
    ensures
      var why := states[j].threads[t].pc.why;
      (why == ListenFailed || why == ListenFatal) && i < j && AnsweredAt(states, labels, i, t, AnswerFor(why))
  {
    CounterMoved(states, labels, j, t);
    if t < |states[j - 1].threads| && states[j - 1].threads[t].pc == states[j].threads[t].pc {
      i := GivenUpAfterAnswer(states, labels, j - 1, t);
    } else {
      i := j - 1;
      RunIsAct(states, labels, i, t);
      GivesUp(states[i].sh, states[i].threads[t], t, labels[i].oracle);
    }
  }

  /** A counter that changes does so by an action of its own thread, or is a new thread's. */
  lemma CounterMoved(states: seq<State>, labels: seq<Label>, j: nat, t: nat)
    requires IsRun(states, labels) && j < |states| && t < |states[j].threads|
    ensures j > 0
    ensures
      || (t < |states[j - 1].threads| && states[j - 1].threads[t] == states[j].threads[t])
      || (t < |states[j - 1].threads| && Runs(states, labels, j - 1, t) && states[j - 1].threads[t].call == states[j].threads[t].call)
      || (t == |states[j - 1].threads| && labels[j - 1] == Invoke(states[j].threads[t].call)
          && states[j].threads[t].pc == Start(states[j].threads[t].call))
  {
    if j > 0 {
      assert Step(states[j - 1], labels[j - 1], states[j]);
    }
  }

  /** How each kind of call begins: a registration without an invoker has returned already. */
  lemma CallBegins(states: seq<State>, labels: seq<Label>, i: nat)
    requires IsRun(states, labels) && i < |labels| && labels[i].Invoke?
    ensures |states[i + 1].threads| == |states[i].threads| + 1
    ensures
      var th := states[i + 1].threads[|states[i].threads|];
      th.call == labels[i].call &&
      match th.call
      case HostPort(_, _, _) => th.pc == RegEnter
      case RegisterFunction(_, _, _, None) => th.pc == Done(Some(NoInvoker))
      case RegisterFunction(_, _, _, Some(_)) => th.pc == RegEnter
      case Deregister(_) => th.pc == DeregEnter
      case Close => th.pc == CloseEnter
  {
    assert Step(states[i], labels[i], states[i + 1]);
  }

  /** Close has run at step i. */
  ghost predicate ClosedAt(states: seq<State>, labels: seq<Label>, i: nat) {
    && i < |labels| && i < |states| && labels[i].Run? && labels[i].thread < |states[i].threads|
    && states[i].threads[labels[i].thread].pc.CloseEnter?
  }

  lemma {:induction false} ShutdownAfterClose(states: seq<State>, labels: seq<Label>, j: nat) returns (i: nat)
    requires IsRun(states, labels) && j < |states| && states[j].sh.shutdown
    ensures i < j && ClosedAt(states, labels, i)
  {
    assert Step(states[j - 1], labels[j - 1], states[j]);
    if states[j - 1].sh.shutdown {
      i := ShutdownAfterClose(states, labels, j - 1);
    } else {
      i := j - 1;
      var t := labels[i].thread;
      OnlyCloseShuts(states[i].sh, states[i].threads[t], t, labels[i].oracle);
    }
  }

  lemma OnlyCloseShuts(s: Shared, th: Thread, t: nat, o: Oracle)
    requires IndexTyped(s) && PcTyped(s, th)
    ensures Act(s, th, t, o).0.shutdown <==> s.shutdown || th.pc.CloseEnter?
  {
  }

  /** Every outcome of a registration has its cause in the run: it was due when the call returned; a
      listen error was the answer of this call's listen call; the shutdown error comes after Close. */
  lemma {:induction false} OutcomeHasCause(states: seq<State>, labels: seq<Label>, j: nat, t: nat, out: Outcome) returns (i: nat)
    requires IsRun(states, labels) && j < |states| && t < |states[j].threads|
    requires IsRegistration(states[j].threads[t].call) && states[j].threads[t].pc == Done(Some(out))
    ensures i < j && t < |states[i].threads| && states[i].threads[t].call == states[j].threads[t].call
    ensures IndexTyped(states[i].sh) && Due(states[i].sh, states[i].threads[t], out)
    ensures out == ListenFailed || out == ListenFatal ==>
      exists h :: 0 <= h < j && AnsweredAt(states, labels, h, t, AnswerFor(out))
    ensures out == ShuttingDown ==> exists h :: 0 <= h < j && ClosedAt(states, labels, h)
  {
    CounterMoved(states, labels, j, t);
    if t < |states[j - 1].threads| && states[j - 1].threads[t] == states[j].threads[t] {
      i := OutcomeHasCause(states, labels, j - 1, t, out);
    } else {
      i := j - 1;
      ReturnsIff(states, labels, i, t, out);
      if out == ListenFailed || out == ListenFatal {
        var h := GivenUpAfterAnswer(states, labels, i, t);
      } else if out == ShuttingDown {
        RunIsAct(states, labels, i, t);
        var h := ShutdownAfterClose(states, labels, i);
      }
    }
  }

  // ------------------------------------------------------------------ deregistration

  /** An unknown key is a no-op. A known one leaves the pool of its service, and nothing else does;
      the service goes on serving if anyone is left, and is withdrawn by this call if not. */
  lemma DeregistrationOutcome(states: seq<State>, labels: seq<Label>, i: nat, t: nat)
    requires Runs(states, labels, i, t) && states[i].threads[t].pc.DeregEnter?
    ensures states[i].threads[t].call.Deregister? && IndexTyped(states[i].sh)
    ensures
      var (s, s', k) := (states[i].sh, states[i + 1].sh, states[i].threads[t].call.key);
      if k !in s.byKey then Became(states, i, t, Done(None), s)
      else
        && s.byKey[k] in s.services && s'.services == s.services && s'.byKey == s.byKey - {k}
        && t < |states[i + 1].threads|
        && var r := s.services[s.byKey[k]];
           var rest := Without(s.recs[r].pool, k);
           if rest != [] then
             && states[i + 1].threads[t].pc == Done(None)
             && s'.recs == s.recs[r := s.recs[r].(pool := rest)]
           else
             && states[i + 1].threads[t].pc == DeregTear(r)
             && s'.recs == s.recs[r := s.recs[r].(pool := [], withdrawing := Some(0))]
  {
    RunIsAct(states, labels, i, t);
    RunInv(states, labels, i);
    var s, k := states[i].sh, states[i].threads[t].call.key;
    if k in s.byKey {
      assert KeyServed(s, k, s.byKey[k]);
    }
  }
}
