/**
 The watchers on the manager (main.go, `registrarAdapter`): in a run of the manager that carries out
 a watcher's calls one after the other, interleaved with anything else, what the watcher believes
 to be active is what the manager serves under its keys.
 */
module WatcherBridge {
  import opened Options
  import opened ServiceIndex
  import opened Protocol
  import opened ProtocolInvariant
  import opened ProtocolRuns
  import opened ProtocolMembers
  import opened ProtocolAgreement
  import opened RegistrarBridge
  import Ledger
  import Labels
  import EcsWatcher
  import EcsConvergence
  import LambdaWatcher
  import DockerWatcher

  // ------------------------------------------------------------------ the adapter

  /** `net.JoinHostPort`. */
  function JoinHostPort(host: string, port: nat): string {
    (if ':' in host then "[" + host + "]" else host) + ":" + Labels.Itoa(port)
  }

  lemma {:induction false} ItoaDigits(n: nat)
    ensures ':' !in Labels.Itoa(n)
  {
    if n >= 10 {
      ItoaDigits(n / 10);
    }
  }

  /** The part of an address text before the port. */
  function HostText(host: string): string {
    if ':' in host then "[" + host + "]" else host
  }

  lemma ColonStays(host: string)
    ensures ':' in HostText(host) <==> ':' in host
  {
    if ':' in host {
      var i :| 0 <= i < |host| && host[i] == ':';
      assert HostText(host)[i + 1] == ':';
    }
  }

  lemma HostTextInjective(h1: string, h2: string)
    requires HostText(h1) == HostText(h2)
    ensures h1 == h2
  {
    ColonStays(h1);
    ColonStays(h2);
    if ':' in h1 {
      assert h1 == HostText(h1)[1..|HostText(h1)| - 1] && h2 == HostText(h2)[1..|HostText(h2)| - 1];
    }
  }

  /** What follows the last colon has none. */
  lemma LastColon(a: string, p: string, i: nat)
    requires ':' !in p && i < |a + ":" + p| && (a + ":" + p)[i] == ':'
    ensures i <= |a|
  {
    var t := a + ":" + p;
    assert forall h :: |a| < h < |t| ==> t[h] == p[h - |a| - 1];
  }

  /** An address text says one host and one port. */
  lemma JoinHostPortInjective(h1: string, p1: nat, h2: string, p2: nat)
    ensures JoinHostPort(h1, p1) == JoinHostPort(h2, p2) <==> h1 == h2 && p1 == p2
  {
    if JoinHostPort(h1, p1) == JoinHostPort(h2, p2) {
      var a, b, t := HostText(h1), HostText(h2), JoinHostPort(h1, p1);
      var s1, s2 := Labels.Itoa(p1), Labels.Itoa(p2);
      ItoaDigits(p1);
      ItoaDigits(p2);
      assert t == a + ":" + s1 && t == b + ":" + s2;
      LastColon(a, s1, |b|);
      LastColon(b, s2, |a|);
      assert a == t[..|a|] && b == t[..|b|];
      assert s1 == t[|a| + 1..] && s2 == t[|b| + 1..];
      HostTextInjective(h1, h2);
      Labels.DecimalItoa(p1);
      Labels.DecimalItoa(p2);
    }
  }

  function RegisterCall(key: Key, def: Labels.ServiceDef, ip: string): Call {
    HostPort(key, Def(def.service, def.scheme, def.caps), JoinHostPort(ip, def.port))
  }

  /** `FunctionInvoker.Target`. */
  function InvokerTarget(arn: string, qualifier: string): string {
    SCHEME_LAMBDA + "://" + arn + (if qualifier == "" then "" else ":" + qualifier)
  }

  function FunctionCall(key: Key, fn: LambdaWatcher.Function): Call {
    RegisterFunction(key, fn.service, fn.caps, Some(InvokerTarget(fn.arn, fn.qualifier)))
  }

  /** What each watcher's registrations come to at the manager, whatever their key. */
  function FromEcs(b: EcsWatcher.Backend): Given {
    GivenBy(RegisterCall("", b.def, b.host))
  }

  function FromDocker(b: DockerWatcher.Backend): Given {
    GivenBy(RegisterCall("", b.def, b.ip))
  }

  function FromLambda(fn: LambdaWatcher.Function): Given {
    GivenBy(FunctionCall("", fn))
  }

  // ------------------------------------------------------------------ what is served

  /** The key is served: by a service whose listener is open, whose one member of that key has this
      target. */
  ghost predicate Serves(s: Shared, k: Key, target: Target)
    requires IndexTyped(s)
  {
    && k in s.byKey && KeyServed(s, k, s.byKey[k]) && ListenerOpen(At(s, s.byKey[k]))
    && exists t: nat :: Seen(s, k) == Under(s.byKey[k], {Backend(k, target, t)})
  }

  /** In a state of a run, a key that shows is served. */
  lemma ShownIsServed(st: State, k: Key, service: Name, target: Target, t: nat)
    requires Inv(st) && IndexTyped(st.sh) && Seen(st.sh, k) == Under(service, {Backend(k, target, t)})
    ensures Serves(st.sh, k, target) && st.sh.byKey[k] == service
  {
    ServedIsOpen(st, k);
  }

  // ------------------------------------------------------------------ the three watchers

  /** ECS: after any sequence of cycles a key is active exactly if the manager holds it, and then it
      is served at the recorded address. */
  lemma EcsActiveIsServed(ws: seq<EcsConvergence.Watch>, rounds: seq<EcsConvergence.Round>, v: Ledger.Verdicts, i: nat,
                          states: seq<State>, labels: seq<Label>, keys: set<Key>, turns: seq<Turn>, m: nat, k: Key)
    requires EcsConvergence.History(ws, rounds, v) && i < |ws| && k in keys && IsRun(states, labels)
    requires Performed(states, labels, keys, ws[i].book.calls, v, turns, FromEcs, m)
    requires forall h :: 0 <= h < m ==> OneServicePerKey(states[h].threads)
    ensures m < |states| && IndexTyped(states[m].sh)
    ensures k in ws[i].book.active <==> k in states[m].sh.byKey
    ensures k in ws[i].book.active ==>
      var addr := ws[i].book.active[k];
      Serves(states[m].sh, k, Container(JoinHostPort(addr.host, addr.port)))
  {
    EcsConvergence.EveryHistorySound(ws, rounds, v, i);
    var bk := ws[i].book;
    ActiveIsServed(states, labels, keys, bk, EcsWatcher.AddrOf, v, turns, FromEcs, m, k);
    RunInv(states, labels, m);
    var h := Seen(states[m].sh, k);
    if h.Under? {
      var what, t: nat :| bk.active[k] == EcsWatcher.AddrOf(what)
        && h == Under(FromEcs(what).service, {Backend(k, FromEcs(what).target, t)});
      ShownIsServed(states[m], k, FromEcs(what).service, FromEcs(what).target, t);
    }
  }

  /** Docker: likewise after any sequence of events and sweeps. */
  lemma DockerActiveIsServed(bks: seq<DockerWatcher.DockerBook>, moves: seq<DockerWatcher.Move>, v: Ledger.Verdicts, i: nat,
                             states: seq<State>, labels: seq<Label>, keys: set<Key>, turns: seq<Turn>, m: nat, k: Key)
    requires DockerWatcher.History(bks, moves, v) && i < |bks| && k in keys && IsRun(states, labels)
    requires Performed(states, labels, keys, bks[i].calls, v, turns, FromDocker, m)
    requires forall h :: 0 <= h < m ==> OneServicePerKey(states[h].threads)
    ensures m < |states| && IndexTyped(states[m].sh)
    ensures k in bks[i].active <==> k in states[m].sh.byKey
    ensures k in bks[i].active ==>
      var addr := bks[i].active[k];
      Serves(states[m].sh, k, Container(JoinHostPort(addr.ip, addr.port)))
  {
    DockerWatcher.EveryHistoryAgrees(bks, moves, v, i);
    var bk := bks[i];
    ActiveIsServed(states, labels, keys, bk, DockerWatcher.AddrOf, v, turns, FromDocker, m, k);
    RunInv(states, labels, m);
    var h := Seen(states[m].sh, k);
    if h.Under? {
      var what, t: nat :| bk.active[k] == DockerWatcher.AddrOf(what)
        && h == Under(FromDocker(what).service, {Backend(k, FromDocker(what).target, t)});
      ShownIsServed(states[m], k, FromDocker(what).service, FromDocker(what).target, t);
    }
  }

  /** Lambda: after any sequence of cycles a function is active exactly if the manager holds it, and
      then it is served under the recorded service, invoked with the recorded qualifier. */
  lemma LambdaActiveIsServed(bks: seq<LambdaWatcher.LambdaBook>, rounds: seq<LambdaWatcher.Round>, v: Ledger.Verdicts, i: nat,
                             states: seq<State>, labels: seq<Label>, keys: set<Key>, turns: seq<Turn>, m: nat, k: Key)
    requires LambdaWatcher.History(bks, rounds, v) && i < |bks| && k in keys && IsRun(states, labels)
    requires Performed(states, labels, keys, bks[i].calls, v, turns, FromLambda, m)
    requires forall h :: 0 <= h < m ==> OneServicePerKey(states[h].threads)
    ensures m < |states| && IndexTyped(states[m].sh)
    ensures k in bks[i].active <==> k in states[m].sh.byKey
    ensures k in bks[i].active ==>
      var r := bks[i].active[k];
      Serves(states[m].sh, k, Function(InvokerTarget(k, r.qualifier))) && states[m].sh.byKey[k] == r.service
  {
    LambdaWatcher.EveryHistoryAgrees(bks, rounds, v, i);
    var bk := bks[i];
    CallsSimulated(states, labels, keys, bk.calls, v, turns, FromLambda, m);
    RunInv(states, labels, m);
    var h := Seen(states[m].sh, k);
    assert Shows(h, bk.held, FromLambda, k);
    if h.Under? {
      var fn := bk.held[k];
      var t: nat :| h.members == {Backend(k, FromLambda(fn).target, t)};
      assert bk.active[k] == LambdaWatcher.RegistrationOf(fn) && fn.arn == k;
      ShownIsServed(states[m], k, FromLambda(fn).service, FromLambda(fn).target, t);
    }
  }
}
