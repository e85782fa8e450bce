/**
 The Docker watcher (docker/watcher.go): an event stream with a reconciling sweep behind it.
 */
module DockerWatcher {
  import opened Options
  import opened Ledger
  import opened Registrars
  import L = Labels

  datatype Addr = Addr(ip: string, port: nat)

  datatype Backend = Backend(def: L.ServiceDef, ip: string)

  function AddrOf(b: Backend): Addr {
    Addr(b.ip, b.def.port)
  }

  datatype Container = Container(id: Key, labels: map<string, string>)

  /** Looking a container's address up may fail, with a text. */
  datatype Resolution = Ip(ip: string) | Unresolved(text: string)

  type DockerBook = Book<Addr, Backend>

  function RegisterNote(err: string): string {
    "register: " + err
  }

  /** `register`. */
  function Registered(bk: DockerBook, id: Key, def: L.ServiceDef, r: Resolution, v: Verdicts): DockerBook {
    match r
    case Unresolved(text) => bk.(failed := bk.failed[id := "resolve-ip: " + text])
    case Ip(ip) => Offer(bk, id, Addr(ip, def.port), Backend(def, ip), v, RegisterNote)
  }

  /** `deregister`. */
  function Deregistered(bk: DockerBook, id: Key): DockerBook {
    var bk1 := Drop(bk, id);
    bk1.(failed := bk1.failed - {id})
  }

  /** One listed container in a sweep: one that is serving is left alone. */
  function Swept(bk: DockerBook, c: Container, r: Resolution, v: Verdicts): DockerBook {
    match L.Parse(c.labels)
    case Err(_) => bk
    case Ok(def) => if c.id in bk.active then bk else Registered(bk, c.id, def, r, v)
  }

  function SweptAll(bk: DockerBook, cs: seq<Container>, r: nat -> Resolution, v: Verdicts): DockerBook {
    if cs == [] then bk
    else Swept(SweptAll(bk, cs[..|cs| - 1], r, v), cs[|cs| - 1], r(|cs| - 1), v)
  }

  function Listed(cs: seq<Container>): set<Key> {
    set i | 0 <= i < |cs| :: cs[i].id
  }

  /** `inspect` and the event: None when the container cannot be inspected. */
  datatype Event =
    | Start(id: Key, labels: Option<map<string, string>>, resolution: Resolution)
    | Gone(id: Key)         // die, stop, kill, destroy
    | Other

  function Handled(bk: DockerBook, e: Event, v: Verdicts): DockerBook {
    match e
    case Start(id, labels, r) =>
      if labels.None? then bk
      else (match L.Parse(labels.value)
            case Err(_) => bk
            case Ok(def) => Registered(bk, id, def, r, v))
    case Gone(id) => Deregistered(bk, id)
    case Other => bk
  }

  lemma RegisteredAgrees(bk: DockerBook, id: Key, def: L.ServiceDef, r: Resolution, v: Verdicts)
    requires Agrees(bk, AddrOf)
    ensures Agrees(Registered(bk, id, def, r, v), AddrOf)
  {
    if r.Ip? {
      OfferAgrees(bk, id, Addr(r.ip, def.port), Backend(def, r.ip), v, RegisterNote, AddrOf);
    }
  }

  lemma HandledAgrees(bk: DockerBook, e: Event, v: Verdicts)
    requires Agrees(bk, AddrOf)
    ensures Agrees(Handled(bk, e, v), AddrOf)
  {
    if e.Start? && e.labels.Some? && L.Parse(e.labels.value).Ok? {
      RegisteredAgrees(bk, e.id, L.Parse(e.labels.value).def, e.resolution, v);
    } else if e.Gone? {
      DropAgrees(bk, e.id, AddrOf);
    }
  }

  /** What an event does. A container reported gone is neither held, active nor failing. One that
      started with valid labels and an address is active there, unless the registrar refused just
      that, and then it is failing; without an address it is noted as failing and otherwise as it
      was. Any other event changes nothing, and none touches another container. */
  lemma EventSettles(bk: DockerBook, e: Event, v: Verdicts, k: Key)
    requires Agrees(bk, AddrOf)
    ensures
      var bk' := Handled(bk, e, v);
      match e
      case Other => bk' == bk
      case Gone(id) => (if k == id then k !in bk'.held && k !in bk'.active && k !in bk'.failed else SameAt(bk, bk', k))
      case Start(id, labels, resolution) =>
        if labels.None? || L.Parse(labels.value).Err? then bk' == bk
        else if k != id then SameAt(bk, bk', k)
        else
          var def := L.Parse(labels.value).def;
          match resolution
          case Unresolved(text) => bk' == bk.(failed := bk.failed[k := "resolve-ip: " + text])
          case Ip(ip) => Settles(bk', |bk.calls|, k, Addr(ip, def.port), Backend(def, ip), v)
  {
    if e.Start? && e.labels.Some? && e.resolution.Ip? && L.Parse(e.labels.value).Ok? {
      var def := L.Parse(e.labels.value).def;
      StartSettles(bk, e.id, def, e.resolution.ip, v, k);
    }
  }

  lemma StartSettles(bk: DockerBook, id: Key, def: L.ServiceDef, ip: string, v: Verdicts, k: Key)
    requires Agrees(bk, AddrOf)
    ensures
      var bk' := Registered(bk, id, def, Ip(ip), v);
      if k == id then Settles(bk', |bk.calls|, k, Addr(ip, def.port), Backend(def, ip), v) else SameAt(bk, bk', k)
  {
    OfferSettles(bk, id, Addr(ip, def.port), Backend(def, ip), v, RegisterNote);
    OfferSettlesSince(bk, |bk.calls|, id, Addr(ip, def.port), Backend(def, ip), v, RegisterNote, AddrOf);
  }

  class Watcher {
    const reg: Registrar<Backend>
    var active: map<Key, Addr>
    var failed: map<Key, string>

    constructor (reg: Registrar<Backend>)
      requires reg.held == map[]
      ensures this.reg == reg && Valid() && active == map[] && failed == map[]
    {
      this.reg := reg;
      active, failed := map[], map[];
    }

    ghost function View(): DockerBook
      reads this, reg
    {
      Book(active, failed, reg.held, reg.calls)
    }

    /** Agreement with the registrar. */
    ghost predicate Valid()
      reads this, reg
    {
      Agrees(View(), AddrOf)
    }

    method NoteFailure(id: Key, reason: string)
      modifies this`failed
      ensures failed == old(failed)[id := reason]
    {
      failed := failed[id := reason];
    }

    method Register(id: Key, def: L.ServiceDef, r: Resolution)
      modifies this`active, this`failed, reg
      ensures View() == Registered(old(View()), id, def, r, reg.verdicts)
    {
      if r.Unresolved? {
        NoteFailure(id, "resolve-ip: " + r.text);
        return;
      }
      var addr := Addr(r.ip, def.port);
      if id in active {
        if active[id] == addr {
          return;
        }
        reg.Deregister(id);
        active := active - {id};
      }
      var err := reg.Register(id, Backend(def, r.ip));
      if err.Some? {
        NoteFailure(id, RegisterNote(err.value));
        return;
      }
      failed := failed - {id};
      active := active[id := addr];
    }

    method Deregister(id: Key)
      modifies this`active, this`failed, reg
      ensures View() == Deregistered(old(View()), id)
    {
      reg.Deregister(id);
      active := active - {id};
      failed := failed - {id};
    }

    method HandleEvent(e: Event)
      requires Valid()
      modifies this`active, this`failed, reg
      ensures Valid() && View() == Handled(old(View()), e, reg.verdicts)
    {
      HandledAgrees(View(), e, reg.verdicts);
      match e
      case Start(id, labels, r) =>
        if labels.None? {
          return;
        }
        var parsed := L.Parse(labels.value);
        if parsed.Err? {
          return;
        }
        Register(id, parsed.def, r);
      case Gone(id) =>
        Deregister(id);
      case Other =>
    }

    method RemoveMissing(seen: set<Key>) returns (ghost order: seq<Key>)
      modifies this`active, this`failed, reg
      ensures ListsUnseen(old(View()), seen, order)
      ensures View() == Sweep(old(View()), seen, order)
    {
      order := [];
      var left := active.Keys;
      while left != {}
        invariant left <= old(active).Keys && failed == old(failed)
        invariant forall k :: k in order <==> k in old(active) && k !in seen && k !in left
        invariant forall i, j :: 0 <= i < j < |order| ==> order[i] != order[j]
        invariant View() == DropAll(old(View()), order)
        decreases left
      {
        var id :| id in left;
        left := left - {id};
        if id !in seen {
          assert (order + [id])[..|order|] == order;
          order := order + [id];
          reg.Deregister(id);
          active := active - {id};
        }
      }
      ghost var dropped := View();
      var rest := failed.Keys;
      while rest != {}
        invariant rest <= old(failed).Keys
        invariant View() == dropped.(failed := failed)
        invariant forall k :: k in failed <==> k in old(failed) && (k in seen || k in rest)
        invariant forall k :: k in failed ==> failed[k] == old(failed)[k]
        decreases rest
      {
        var id :| id in rest;
        rest := rest - {id};
        if id !in seen {
          failed := failed - {id};
        }
      }
      assert failed == ForgetUnseen(dropped, seen).failed;
    }

    /** The loop of `reconcile` over the listed containers. */
    method SweepContainers(cs: seq<Container>, r: nat -> Resolution) returns (seen: set<Key>)
      requires Valid()
      modifies this`active, this`failed, reg
      ensures Valid() && View() == SweptAll(old(View()), cs, r, reg.verdicts) && seen == Listed(cs)
    {
      seen := {};
      for i := 0 to |cs|
        invariant Valid() && View() == SweptAll(old(View()), cs[..i], r, reg.verdicts)
        invariant seen == Listed(cs[..i])
      {
        assert cs[..i + 1] == cs[..i] + [cs[i]] && cs[..i + 1][..i] == cs[..i];
        ListedMore(cs[..i], cs[i]);
        var c := cs[i];
        seen := seen + {c.id};
        var parsed := L.Parse(c.labels);
        if parsed.Err? {
          continue;
        }
        if c.id in active {
          continue;
        }
        RegisteredAgrees(View(), c.id, parsed.def, r(i), reg.verdicts);
        Register(c.id, parsed.def, r(i));
      }
      assert cs[..|cs|] == cs;
    }

    /** `reconcile`: a sweep whose list fails does nothing. */
    method Reconcile(listed: Option<seq<Container>>, r: nat -> Resolution) returns (ok: bool, ghost order: seq<Key>)
      requires Valid()
      modifies this`active, this`failed, reg
      ensures Valid() && (ok <==> listed.Some?)
      ensures !ok ==> View() == old(View())
      ensures ok ==>
        var bk := SweptAll(old(View()), listed.value, r, reg.verdicts);
        ListsUnseen(bk, Listed(listed.value), order) && View() == Sweep(bk, Listed(listed.value), order)
    {
      ok, order := false, [];
      if listed.None? {
        return;
      }
      var seen := SweepContainers(listed.value, r);
      ghost var swept := View();
      order := RemoveMissing(seen);
      SweepAgrees(swept, seen, order, AddrOf);
      ok := true;
    }
  }

  lemma ListedMore(cs: seq<Container>, c: Container)
    ensures Listed(cs + [c]) == Listed(cs) + {c.id}
  {
    var all := cs + [c];
    forall k | k in Listed(cs)
      ensures k in Listed(all)
    {
      var i :| 0 <= i < |cs| && cs[i].id == k;
      assert all[i] == cs[i];
    }
    assert all[|cs|] == c;
  }

  // ------------------------------------------------------------------ what a sweep achieves

  /** What a listed, eligible container comes to: serving, or noted as failing. */
  predicate Accounted(bk: DockerBook, k: Key) {
    k in bk.active || k in bk.failed
  }

  ghost predicate Eligible(cs: seq<Container>, k: Key) {
    exists i :: 0 <= i < |cs| && cs[i].id == k && L.Parse(cs[i].labels).Ok?
  }

  lemma RegisteredFrame(bk: DockerBook, id: Key, def: L.ServiceDef, r: Resolution, v: Verdicts)
    ensures forall k :: k != id ==> SameAt(bk, Registered(bk, id, def, r, v), k)
    ensures Accounted(Registered(bk, id, def, r, v), id)
  {
    if r.Ip? {
      OfferSettles(bk, id, Addr(r.ip, def.port), Backend(def, r.ip), v, RegisterNote);
    }
  }

  lemma SweptFrame(bk: DockerBook, c: Container, r: Resolution, v: Verdicts, k: Key)
    ensures k in bk.active ==> k in Swept(bk, c, r, v).active && Swept(bk, c, r, v).active[k] == bk.active[k]
    ensures Accounted(bk, k) ==> Accounted(Swept(bk, c, r, v), k)
    ensures c.id == k && L.Parse(c.labels).Ok? ==> Accounted(Swept(bk, c, r, v), k)
  {
    if L.Parse(c.labels).Ok? && c.id !in bk.active {
      RegisteredFrame(bk, c.id, L.Parse(c.labels).def, r, v);
      assert k != c.id ==> SameAt(bk, Swept(bk, c, r, v), k);
    }
  }

  /** A container that is serving stays at its address through the sweep, whatever its listed
      labels now say. */
  lemma {:induction false} ServingStays(bk: DockerBook, cs: seq<Container>, r: nat -> Resolution, v: Verdicts, k: Key)
    requires k in bk.active
    ensures k in SweptAll(bk, cs, r, v).active && SweptAll(bk, cs, r, v).active[k] == bk.active[k]
  {
    if cs != [] {
      var last := |cs| - 1;
      ServingStays(bk, cs[..last], r, v, k);
      SweptFrame(SweptAll(bk, cs[..last], r, v), cs[last], r(last), v, k);
    }
  }

  /** A listed container with valid labels ends up serving or noted as failing. */
  lemma {:induction false} EligibleAccounted(bk: DockerBook, cs: seq<Container>, r: nat -> Resolution, v: Verdicts,
                                             k: Key, i: nat)
    requires i < |cs| && cs[i].id == k && L.Parse(cs[i].labels).Ok?
    ensures Accounted(SweptAll(bk, cs, r, v), k)
  {
    var last := |cs| - 1;
    if i < last {
      EligibleAccounted(bk, cs[..last], r, v, k, i);
    }
    SweptFrame(SweptAll(bk, cs[..last], r, v), cs[last], r(last), v, k);
  }

  /** After a sweep that could list: nothing unlisted is left, what was serving and is still listed
      serves as before, and every eligible listed container is serving or noted as failing. */
  lemma ReconcileConverges(bk: DockerBook, cs: seq<Container>, r: nat -> Resolution, v: Verdicts,
                           order: seq<Key>, k: Key)
    requires ListsUnseen(SweptAll(bk, cs, r, v), Listed(cs), order)
    ensures
      var bk' := Sweep(SweptAll(bk, cs, r, v), Listed(cs), order);
      && (Accounted(bk', k) ==> k in Listed(cs))
      && (k in bk.active && k in Listed(cs) ==> k in bk'.active && bk'.active[k] == bk.active[k])
      && (Eligible(cs, k) ==> Accounted(bk', k))
  {
    if k in bk.active {
      ServingStays(bk, cs, r, v, k);
    }
    SweepIs(SweptAll(bk, cs, r, v), Listed(cs), order);
    if Eligible(cs, k) {
      var i :| 0 <= i < |cs| && cs[i].id == k && L.Parse(cs[i].labels).Ok?;
      EligibleAccounted(bk, cs, r, v, k, i);
      assert cs[i].id in Listed(cs);
    }
  }

  // ------------------------------------------------------------------ a container that is not serving yet

  predicate EligibleAt(cs: seq<Container>, i: nat, k: Key) {
    i < |cs| && cs[i].id == k && L.Parse(cs[i].labels).Ok?
  }

  /** The i-th listed container is active at the address it resolved to and its labelled port, held
      with the definition of its labels, and not failing. */
  ghost predicate ServesAsListed(bk: DockerBook, cs: seq<Container>, r: nat -> Resolution, i: nat, k: Key) {
    && EligibleAt(cs, i, k) && r(i).Ip?
    && var def := L.Parse(cs[i].labels).def;
       && k in bk.active && bk.active[k] == Addr(r(i).ip, def.port)
       && k in bk.held && bk.held[k] == Backend(def, r(i).ip)
       && k !in bk.failed
  }

  /** It did not resolve, or the registrar was asked to register it so, and refused. */
  ghost predicate Stopped(calls: seq<Op<Backend>>, from: nat, cs: seq<Container>, r: nat -> Resolution, v: Verdicts, i: nat, k: Key)
    requires EligibleAt(cs, i, k)
  {
    r(i).Unresolved? || Refuses(calls, from, k, Backend(L.Parse(cs[i].labels).def, r(i).ip), v)
  }

  /** What a pass has made of a container that was not serving: it serves as listed; or, each time it
      was listed, it did not resolve or was refused, and then it is failing. */
  ghost predicate Outcome(bk: DockerBook, from: nat, cs: seq<Container>, r: nat -> Resolution, v: Verdicts, k: Key) {
    if k in bk.active then exists i :: 0 <= i < |cs| && ServesAsListed(bk, cs, r, i, k)
    else forall i :: 0 <= i < |cs| && EligibleAt(cs, i, k) ==> k in bk.failed && Stopped(bk.calls, from, cs, r, v, i, k)
  }

  /** The pass over the listed containers, one more of them. */
  lemma SweptOutcomeStep(bk: DockerBook, from: nat, cs: seq<Container>, r: nat -> Resolution, v: Verdicts, k: Key)
    requires cs != [] && Agrees(bk, AddrOf) && from <= |bk.calls|
    requires Outcome(bk, from, cs[..|cs| - 1], r, v, k)
    ensures Outcome(Swept(bk, cs[|cs| - 1], r(|cs| - 1), v), from, cs, r, v, k)
  {
    var last := |cs| - 1;
    if k in bk.active {
      ActiveSkipped(bk, cs, r, v, from, k);
    } else if EligibleAt(cs, last, k) {
      NewOutcome(bk, cs, r, v, from, k);
    } else {
      OtherSwept(bk, cs, r, v, from, k);
    }
  }

  lemma ActiveSkipped(bk: DockerBook, cs: seq<Container>, r: nat -> Resolution, v: Verdicts, from: nat, k: Key)
    requires cs != [] && Agrees(bk, AddrOf) && k in bk.active
    requires Outcome(bk, from, cs[..|cs| - 1], r, v, k)
    ensures Outcome(Swept(bk, cs[|cs| - 1], r(|cs| - 1), v), from, cs, r, v, k)
  {
    var last := |cs| - 1;
    var bk' := Swept(bk, cs[last], r(last), v);
    var i :| 0 <= i < last && ServesAsListed(bk, cs[..last], r, i, k);
    SweptElsewhere(bk, cs[last], r(last), v, k);
    assert ServesAsListed(bk', cs, r, i, k);
  }

  /** A container of another id, or one that is serving, does not touch k. */
  lemma SweptElsewhere(bk: DockerBook, c: Container, r: Resolution, v: Verdicts, k: Key)
    requires Agrees(bk, AddrOf) && (c.id != k || k in bk.active || L.Parse(c.labels).Err?)
    ensures
      var bk' := Swept(bk, c, r, v);
      && SameAt(bk, bk', k) && (k in bk'.held <==> k in bk.held) && (k in bk.held ==> bk'.held[k] == bk.held[k])
      && bk.calls <= bk'.calls
  {
    if L.Parse(c.labels).Ok? && c.id !in bk.active && r.Ip? {
      var def := L.Parse(c.labels).def;
      OfferSettles(bk, c.id, Addr(r.ip, def.port), Backend(def, r.ip), v, RegisterNote);
      OfferCalls(bk, c.id, Addr(r.ip, def.port), Backend(def, r.ip), v, RegisterNote);
    }
  }

  lemma StoppedStays(calls: seq<Op<Backend>>, more: seq<Op<Backend>>, from: nat, cs: seq<Container>,
                     r: nat -> Resolution, v: Verdicts, i: nat, k: Key)
    requires calls <= more && i < |cs| - 1 && EligibleAt(cs[..|cs| - 1], i, k) && Stopped(calls, from, cs[..|cs| - 1], r, v, i, k)
    ensures EligibleAt(cs, i, k) && Stopped(more, from, cs, r, v, i, k)
  {
    if r(i).Ip? {
      RefusesStays(calls, more, from, k, Backend(L.Parse(cs[i].labels).def, r(i).ip), v);
    }
  }

  lemma OtherSwept(bk: DockerBook, cs: seq<Container>, r: nat -> Resolution, v: Verdicts, from: nat, k: Key)
    requires cs != [] && Agrees(bk, AddrOf) && k !in bk.active && !EligibleAt(cs, |cs| - 1, k)
    requires Outcome(bk, from, cs[..|cs| - 1], r, v, k)
    ensures Outcome(Swept(bk, cs[|cs| - 1], r(|cs| - 1), v), from, cs, r, v, k)
  {
    var last := |cs| - 1;
    var bk' := Swept(bk, cs[last], r(last), v);
    SweptElsewhere(bk, cs[last], r(last), v, k);
    forall i | 0 <= i < |cs| && EligibleAt(cs, i, k)
      ensures k in bk'.failed && Stopped(bk'.calls, from, cs, r, v, i, k)
    {
      assert EligibleAt(cs[..last], i, k);
      StoppedStays(bk.calls, bk'.calls, from, cs, r, v, i, k);
    }
  }

  lemma NewOutcome(bk: DockerBook, cs: seq<Container>, r: nat -> Resolution, v: Verdicts, from: nat, k: Key)
    requires cs != [] && Agrees(bk, AddrOf) && k !in bk.active && EligibleAt(cs, |cs| - 1, k) && from <= |bk.calls|
    requires Outcome(bk, from, cs[..|cs| - 1], r, v, k)
    ensures Outcome(Swept(bk, cs[|cs| - 1], r(|cs| - 1), v), from, cs, r, v, k)
  {
    var last := |cs| - 1;
    var bk' := Swept(bk, cs[last], r(last), v);
    NewSwept(bk, cs, r, v, from, k);
    if k in bk'.active {
      assert ServesAsListed(bk', cs, r, last, k);
    } else {
      forall i | 0 <= i < |cs| && EligibleAt(cs, i, k)
        ensures k in bk'.failed && Stopped(bk'.calls, from, cs, r, v, i, k)
      {
        if i < last {
          assert EligibleAt(cs[..last], i, k);
          StoppedStays(bk.calls, bk'.calls, from, cs, r, v, i, k);
        }
      }
    }
  }

  lemma NewSwept(bk: DockerBook, cs: seq<Container>, r: nat -> Resolution, v: Verdicts, from: nat, k: Key)
    requires cs != [] && Agrees(bk, AddrOf) && k !in bk.active && EligibleAt(cs, |cs| - 1, k) && from <= |bk.calls|
    ensures
      var last := |cs| - 1;
      var bk' := Swept(bk, cs[last], r(last), v);
      && bk.calls <= bk'.calls
      && if k in bk'.active then ServesAsListed(bk', cs, r, last, k)
         else k in bk'.failed && Stopped(bk'.calls, from, cs, r, v, last, k)
  {
    var last := |cs| - 1;
    if r(last).Ip? {
      var def := L.Parse(cs[last].labels).def;
      OfferOutcome(bk, k, Addr(r(last).ip, def.port), Backend(def, r(last).ip), v, RegisterNote, AddrOf);
    }
  }

  lemma {:induction false} SweptOutcome(bk: DockerBook, cs: seq<Container>, r: nat -> Resolution, v: Verdicts, k: Key)
    requires Agrees(bk, AddrOf) && k !in bk.active
    ensures |bk.calls| <= |SweptAll(bk, cs, r, v).calls| && Outcome(SweptAll(bk, cs, r, v), |bk.calls|, cs, r, v, k)
  {
    if cs != [] {
      var last := |cs| - 1;
      var mid := SweptAll(bk, cs[..last], r, v);
      SweptOutcome(bk, cs[..last], r, v, k);
      SweptAllAgrees(bk, cs[..last], r, v);
      SweptOutcomeStep(mid, |bk.calls|, cs, r, v, k);
      SweptCalls(mid, cs[last], r(last), v);
    }
  }

  lemma SweptCalls(bk: DockerBook, c: Container, r: Resolution, v: Verdicts)
    ensures bk.calls <= Swept(bk, c, r, v).calls
  {
    if L.Parse(c.labels).Ok? && c.id !in bk.active && r.Ip? {
      var def := L.Parse(c.labels).def;
      OfferCalls(bk, c.id, Addr(r.ip, def.port), Backend(def, r.ip), v, RegisterNote);
    }
  }

  /** After a sweep that could list, a listed container with valid labels that was not serving serves
      as listed; it is failing exactly if, each time it was listed, it did not resolve or the
      registrar refused it. */
  lemma NewContainerOutcome(bk: DockerBook, cs: seq<Container>, r: nat -> Resolution, v: Verdicts, order: seq<Key>, k: Key)
    requires Agrees(bk, AddrOf) && k !in bk.active && k in Listed(cs)
    requires ListsUnseen(SweptAll(bk, cs, r, v), Listed(cs), order)
    ensures Outcome(Sweep(SweptAll(bk, cs, r, v), Listed(cs), order), |bk.calls|, cs, r, v, k)
  {
    var swept := SweptAll(bk, cs, r, v);
    var bk' := Sweep(swept, Listed(cs), order);
    SweptOutcome(bk, cs, r, v, k);
    SweepIs(swept, Listed(cs), order);
    SweepCalls(swept, Listed(cs), order, k);
    DropAllIs(swept, order);
    if k in swept.active {
      var i :| 0 <= i < |cs| && ServesAsListed(swept, cs, r, i, k);
      assert ServesAsListed(bk', cs, r, i, k);
    } else {
      forall i | 0 <= i < |cs| && EligibleAt(cs, i, k)
        ensures k in bk'.failed && Stopped(bk'.calls, |bk.calls|, cs, r, v, i, k)
      {
        if r(i).Ip? {
          RefusesStays(swept.calls, bk'.calls, |bk.calls|, k, Backend(L.Parse(cs[i].labels).def, r(i).ip), v);
        }
      }
    }
  }

  // ------------------------------------------------------------------ whole histories

  lemma {:induction false} SweptAllAgrees(bk: DockerBook, cs: seq<Container>, r: nat -> Resolution, v: Verdicts)
    requires Agrees(bk, AddrOf)
    ensures Agrees(SweptAll(bk, cs, r, v), AddrOf)
  {
    if cs != [] {
      var last := |cs| - 1;
      SweptAllAgrees(bk, cs[..last], r, v);
      if L.Parse(cs[last].labels).Ok? {
        RegisteredAgrees(SweptAll(bk, cs[..last], r, v), cs[last].id, L.Parse(cs[last].labels).def, r(last), v);
      }
    }
  }

  lemma RegisteredTraced(bk: DockerBook, id: Key, def: L.ServiceDef, r: Resolution, v: Verdicts)
    requires Traced(bk, v)
    ensures Traced(Registered(bk, id, def, r, v), v)
  {
    if r.Ip? {
      OfferTraced(bk, id, Addr(r.ip, def.port), Backend(def, r.ip), v, RegisterNote);
    }
  }

  lemma {:induction false} SweptAllTraced(bk: DockerBook, cs: seq<Container>, r: nat -> Resolution, v: Verdicts)
    requires Traced(bk, v)
    ensures Traced(SweptAll(bk, cs, r, v), v)
  {
    if cs != [] {
      var last := |cs| - 1;
      SweptAllTraced(bk, cs[..last], r, v);
      if L.Parse(cs[last].labels).Ok? {
        RegisteredTraced(SweptAll(bk, cs[..last], r, v), cs[last].id, L.Parse(cs[last].labels).def, r(last), v);
      }
    }
  }

  lemma HandledTraced(bk: DockerBook, e: Event, v: Verdicts)
    requires Traced(bk, v)
    ensures Traced(Handled(bk, e, v), v)
  {
    if e.Start? && e.labels.Some? && L.Parse(e.labels.value).Ok? {
      RegisteredTraced(bk, e.id, L.Parse(e.labels.value).def, e.resolution, v);
    } else if e.Gone? {
      DropTraced(bk, e.id, v);
    }
  }

  /** What happens to the watcher: an event, or a sweep, whose list may fail. */
  datatype Move =
    | Event(event: Event)
    | Reconcile(listed: Option<seq<Container>>, resolve: nat -> Resolution, order: seq<Key>)

  /** The effect of a move, as HandleEvent and Reconcile are proved to perform it. */
  ghost predicate Moves(bk: DockerBook, m: Move, v: Verdicts, bk': DockerBook) {
    match m
    case Event(e) => bk' == Handled(bk, e, v)
    case Reconcile(None, _, _) => bk' == bk
    case Reconcile(Some(cs), r, order) =>
      var swept := SweptAll(bk, cs, r, v);
      ListsUnseen(swept, Listed(cs), order) && bk' == Sweep(swept, Listed(cs), order)
  }

  lemma MoveAgrees(bk: DockerBook, m: Move, v: Verdicts, bk': DockerBook)
    requires Agrees(bk, AddrOf) && Traced(bk, v) && Moves(bk, m, v, bk')
    ensures Agrees(bk', AddrOf) && Traced(bk', v)
  {
    match m
    case Event(e) =>
      HandledAgrees(bk, e, v);
      HandledTraced(bk, e, v);
    case Reconcile(None, _, _) =>
    case Reconcile(Some(cs), r, order) =>
      SweptAllAgrees(bk, cs, r, v);
      SweptAllTraced(bk, cs, r, v);
      SweepTraced(SweptAll(bk, cs, r, v), Listed(cs), order, v);
      SweepAgrees(SweptAll(bk, cs, r, v), Listed(cs), order, AddrOf);
  }

  /** Any sequence of events and sweeps, failed ones included, from a new watcher on. */
  ghost predicate History(bks: seq<DockerBook>, moves: seq<Move>, v: Verdicts) {
    && |bks| == |moves| + 1 && bks[0] == Book(map[], map[], map[], [])
    && (forall j :: 0 <= j < |moves| ==> Moves(bks[j], moves[j], v, bks[j + 1]))
  }

  /** After any such sequence the registrar holds exactly the active containers, each at its recorded
      address, by the calls made to it. */
  lemma {:induction false} EveryHistoryAgrees(bks: seq<DockerBook>, moves: seq<Move>, v: Verdicts, i: nat)
    requires History(bks, moves, v) && i < |bks|
    ensures Agrees(bks[i], AddrOf) && Traced(bks[i], v)
  {
    if i > 0 {
      EveryHistoryAgrees(bks, moves, v, i - 1);
      MoveAgrees(bks[i - 1], moves[i - 1], v, bks[i]);
    }
  }
}
