/**
 The manager as a concurrent protocol (proxy/manager.go): any number of calls, each on its own
 thread, interleaved at every lock.

 A thread is a call and a program counter. Each counter names the one thing the thread does next
 and the lock that thing needs: `mu` for a critical section, `serveMu` for an edit of the serve
 config (a listen call or a listener close), neither for a receive from a channel. Taking the lock
 and doing the thing are two steps, so other threads run while one holds a lock.
 */
module Protocol {
  import opened Options
  import opened ServiceIndex

  /** The calls other goroutines make. A nil invoker is None. */
  datatype Call =
    | HostPort(key: Key, def: Def, addr: string)
    | RegisterFunction(key: Key, service: Name, caps: seq<string>, invoker: Option<string>)
    | Deregister(key: Key)
    | Close

  const SCHEME_LAMBDA := "lambda"

  predicate IsRegistration(c: Call) {
    c.HostPort? || (c.RegisterFunction? && c.invoker.Some?)
  }

  function DefOf(c: Call): Def
    requires IsRegistration(c)
  {
    if c.HostPort? then c.def else Def(c.service, SCHEME_LAMBDA, c.caps)
  }

  function BackendOf(c: Call, t: nat): Backend
    requires IsRegistration(c)
  {
    Backend(c.key, if c.HostPort? then Container(c.addr) else Function(c.invoker.value), t)
  }

  /** Labels admit only http and https, so a container never offers the lambda scheme. */
  predicate Admissible(c: Call) {
    c.HostPort? ==> c.def.scheme == "http" || c.def.scheme == "https"
  }

  datatype Pc =
    | RegEnter                              // top of the loop in register
    | RegWait(ch: Chan)                     // receiving from a transition channel
    | Listening(rec: nat)                   // listenSvc
    | Abandoning(rec: nat, why: Outcome)    // abandon
    | Publishing(rec: nat)                  // second region of advertise
    | ShutTear(rec: nat)                    // closeFn in the shutdown branch of advertise
    | DeregEnter                            // first region of Deregister
    | DeregTear(rec: nat)                   // closeFn in Deregister
    | DeregFinish(rec: nat)                 // last region of Deregister
    | CloseEnter                            // region of Close
    | CloseTear(recs: seq<nat>)             // closeFn of each record Close took
    | Done(outcome: Option<Outcome>)        // returned; the outcome of a registration

  datatype Thread = Thread(call: Call, pc: Pc)

  datatype Lock = Neither | Mu | ServeMu

  datatype State = State(sh: Shared, threads: seq<Thread>, mu: Option<nat>, serveMu: Option<nat>)

  const INIT := State(EMPTY, [], None, None)

  function LockOf(pc: Pc): Lock {
    match pc
    case RegEnter => Mu
    case Abandoning(_, _) => Mu
    case Publishing(_) => Mu
    case DeregEnter => Mu
    case DeregFinish(_) => Mu
    case CloseEnter => Mu
    case Listening(_) => ServeMu
    case ShutTear(_) => ServeMu
    case DeregTear(_) => ServeMu
    case CloseTear(_) => ServeMu
    case RegWait(_) => Neither
    case Done(_) => Neither
  }

  function Start(c: Call): Pc {
    match c
    case HostPort(_, _, _) => RegEnter
    case RegisterFunction(_, _, _, invoker) => if invoker.Some? then RegEnter else Done(Some(NoInvoker))
    case Deregister(_) => DeregEnter
    case Close => CloseEnter
  }

  /** A channel receive goes through once the channel has been closed. */
  predicate Signalled(s: Shared, ch: Chan) {
    && ch.rec < |s.recs|
    && match ch
       case Advertised(r) => s.recs[r].advertised > 0
       case Withdrawing(r) => s.recs[r].withdrawing.Some? && s.recs[r].withdrawing.value > 0
  }

  datatype ListenResult = ListenOk | ListenErr | ListenMagicDNS

  /** What the world decides at a step: how a listen call ends, and the order of a map range. */
  datatype Oracle = Oracle(listen: ListenResult, order: seq<nat>)

  /** Every record a counter mentions exists; part of what a step needs to make sense. */
  ghost predicate PcTyped(s: Shared, th: Thread) {
    match th.pc
    case RegEnter => IsRegistration(th.call)
    case RegWait(ch) => IsRegistration(th.call) && ch.rec < |s.recs|
    case Listening(r) => IsRegistration(th.call) && r < |s.recs|
    case Abandoning(r, _) => IsRegistration(th.call) && r < |s.recs|
    case Publishing(r) => IsRegistration(th.call) && r < |s.recs|
    case ShutTear(r) => IsRegistration(th.call) && r < |s.recs|
    case DeregEnter => th.call.Deregister?
    case DeregTear(r) => th.call.Deregister? && r < |s.recs|
    case DeregFinish(r) => th.call.Deregister? && r < |s.recs| && s.recs[r].withdrawing.Some?
    case CloseEnter => th.call.Close?
    case CloseTear(rs) => th.call.Close? && rs != [] && forall i :: 0 <= i < |rs| ==> rs[i] < |s.recs|
    case Done(_) => true
  }

  ghost predicate Typed(st: State) {
    && IndexTyped(st.sh)
    && (forall t :: 0 <= t < |st.threads| ==> PcTyped(st.sh, st.threads[t]))
  }

  /** The effect of one action: the new shared state and the thread's next counter. */
  ghost function Act(s: Shared, th: Thread, t: nat, o: Oracle): (Shared, Pc)
    requires IndexTyped(s) && PcTyped(s, th)
  {
    match th.pc
    case RegEnter =>
      var (s', next) := ServiceIndex.Register(s, DefOf(th.call), BackendOf(th.call, t));
      (s', match next
           case Returns(out) => Done(Some(out))
           case Advertises(r) => Listening(r)
           case Waits(ch) => RegWait(ch))
    case RegWait(_) => (s, RegEnter)
    case Listening(r) =>
      (match o.listen
       case ListenOk => (Opened(s, r), Publishing(r))
       case ListenErr => (s, Abandoning(r, ListenFailed))
       case ListenMagicDNS => (s, Abandoning(r, ListenFatal)))
    case Abandoning(r, why) => (Release(s, r), Done(Some(why)))
    case Publishing(r) =>
      var (s', up) := Publish(s, r, BackendOf(th.call, t));
      (s', if up then Done(Some(Registered)) else ShutTear(r))
    case ShutTear(r) => (TornDown(s, r), Done(Some(ShuttingDown)))
    case DeregEnter =>
      var (s', emptied) := ServiceIndex.Deregister(s, th.call.key);
      (s', if emptied.Some? then DeregTear(emptied.value) else Done(None))
    case DeregTear(r) => (TornDown(s, r), DeregFinish(r))
    case DeregFinish(r) => (FinishWithdrawal(s, r), Done(None))
    case CloseEnter => (Shut(s), if o.order == [] then Done(None) else CloseTear(o.order))
    case CloseTear(rs) => (TornDown(s, rs[0]), if |rs| == 1 then Done(None) else CloseTear(rs[1..]))
    case Done(_) => (s, th.pc)
  }

  datatype Label = Invoke(call: Call) | Acquire(thread: nat) | Run(thread: nat, oracle: Oracle)

  predicate Free(st: State, l: Lock) {
    match l
    case Neither => false
    case Mu => st.mu.None?
    case ServeMu => st.serveMu.None?
  }

  predicate Holds(st: State, t: nat, l: Lock) {
    match l
    case Neither => true
    case Mu => st.mu == Some(t)
    case ServeMu => st.serveMu == Some(t)
  }

  ghost predicate Enabled(st: State, l: Label)
    requires Typed(st)
  {
    match l
    case Invoke(call) => Admissible(call)
    case Acquire(t) => t < |st.threads| && Free(st, LockOf(st.threads[t].pc))
    case Run(t, o) =>
      && t < |st.threads|
      && !st.threads[t].pc.Done?
      && Holds(st, t, LockOf(st.threads[t].pc))
      && (st.threads[t].pc.RegWait? ==> Signalled(st.sh, st.threads[t].pc.ch))
      && (st.threads[t].pc.CloseEnter? ==> Lists(o.order, ServingSet(st.sh)))
  }

  function Lend(st: State, t: nat, l: Lock): State {
    match l
    case Neither => st
    case Mu => st.(mu := Some(t))
    case ServeMu => st.(serveMu := Some(t))
  }

  function Return(st: State, l: Lock): State {
    match l
    case Neither => st
    case Mu => st.(mu := None)
    case ServeMu => st.(serveMu := None)
  }

  ghost function Next(st: State, l: Label): State
    requires Typed(st) && Enabled(st, l)
  {
    match l
    case Invoke(call) => st.(threads := st.threads + [Thread(call, Start(call))])
    case Acquire(t) => Lend(st, t, LockOf(st.threads[t].pc))
    case Run(t, o) =>
      var th := st.threads[t];
      var (sh', pc') := Act(st.sh, th, t, o);
      Return(st.(sh := sh', threads := st.threads[t := Thread(th.call, pc')]), LockOf(th.pc))
  }
}
