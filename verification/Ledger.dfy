/**
 What a discovery watcher does to its registrar, as bookkeeping. All three watchers keep two maps:
 `active`, what the last successful registration of a key recorded, and `failed`, what the last
 unsuccessful one said; and drive a registrar that holds what is actually registered.

 R is what a watcher registers (a definition and an address, a function), A what it records of it
 (an address, a registration); `rec` is the recording.
 */
module Ledger {
  import opened Options

  type Key = string

  datatype Op<R> = Registers(key: Key, what: R) | Deregisters(key: Key)

  /** `calls` is the history of registrar calls. */
  datatype Book<A, R> = Book(active: map<Key, A>, failed: map<Key, string>, held: map<Key, R>, calls: seq<Op<R>>)

  /** The verdict of the registrar on its n-th call: an error text, or none. */
  type Verdicts = nat -> Option<string>

  // ------------------------------------------------------------------ the registrar

  /** Registering a key that is held already is a no-op that succeeds. */
  function Error<A, R>(bk: Book<A, R>, key: Key, v: Verdicts): Option<string> {
    if key in bk.held then None else v(|bk.calls|)
  }

  function Register<A, R>(bk: Book<A, R>, key: Key, what: R, v: Verdicts): Book<A, R> {
    bk.(calls := bk.calls + [Registers(key, what)],
        held := if key in bk.held || v(|bk.calls|).Some? then bk.held else bk.held[key := what])
  }

  function Deregister<A, R>(bk: Book<A, R>, key: Key): Book<A, R> {
    bk.(calls := bk.calls + [Deregisters(key)], held := bk.held - {key})
  }

  /** What the registrar holds after a sequence of calls, from those calls and their verdicts. */
  function Held<R>(ops: seq<Op<R>>, v: Verdicts): map<Key, R> {
    if ops == [] then map[]
    else
      var n := |ops| - 1;
      var before := Held(ops[..n], v);
      match ops[n]
      case Registers(key, what) => if key in before || v(n).Some? then before else before[key := what]
      case Deregisters(key) => before - {key}
  }

  /** The registrar holds what the calls made to it have left there. */
  ghost predicate Traced<A, R>(bk: Book<A, R>, v: Verdicts) {
    bk.held == Held(bk.calls, v)
  }

  // ------------------------------------------------------------------ one observation

  /** Drop a registration that has moved: out of the registrar and out of `active`. */
  function Drop<A, R>(bk: Book<A, R>, key: Key): Book<A, R> {
    var bk1 := Deregister(bk, key);
    bk1.(active := bk1.active - {key})
  }

  /** Register and record, or note the failure. `note` is how the watcher words an error. */
  function Enter<A, R>(bk: Book<A, R>, key: Key, want: A, what: R, v: Verdicts, note: string -> string): Book<A, R> {
    var err := Error(bk, key, v);
    var bk1 := Register(bk, key, what, v);
    if err.Some? then bk1.(failed := bk1.failed[key := note(err.value)])
    else bk1.(failed := bk1.failed - {key}, active := bk1.active[key := want])
  }

  /** A key is seen and should be registered as `what`, recorded as `want`. */
  function Offer<A(==), R>(bk: Book<A, R>, key: Key, want: A, what: R, v: Verdicts, note: string -> string): Book<A, R> {
    if key in bk.active && bk.active[key] == want then bk
    else if key in bk.active then Enter(Drop(bk, key), key, want, what, v, note)
    else Enter(bk, key, want, what, v, note)
  }

  // ------------------------------------------------------------------ agreement with the registrar

  /** `active` is exactly what the registrar holds, recorded. */
  ghost predicate Agrees<A, R>(bk: Book<A, R>, rec: R -> A) {
    && bk.active.Keys == bk.held.Keys
    && (forall k :: k in bk.active ==> bk.active[k] == rec(bk.held[k]))
  }

  lemma DropAgrees<A, R>(bk: Book<A, R>, key: Key, rec: R -> A)
    requires Agrees(bk, rec)
    ensures Agrees(Drop(bk, key), rec)
  {
  }

  lemma EnterAgrees<A, R>(bk: Book<A, R>, key: Key, want: A, what: R, v: Verdicts, note: string -> string, rec: R -> A)
    requires Agrees(bk, rec) && key !in bk.active && want == rec(what)
    ensures Agrees(Enter(bk, key, want, what, v, note), rec)
  {
  }

  lemma OfferAgrees<A, R>(bk: Book<A, R>, key: Key, want: A, what: R, v: Verdicts, note: string -> string, rec: R -> A)
    requires Agrees(bk, rec) && want == rec(what)
    ensures Agrees(Offer(bk, key, want, what, v, note), rec)
  {
    if key in bk.active && bk.active[key] != want {
      DropAgrees(bk, key, rec);
      EnterAgrees(Drop(bk, key), key, want, what, v, note, rec);
    } else if key !in bk.active {
      EnterAgrees(bk, key, want, what, v, note, rec);
    }
  }

  /** What an offer comes to, exactly. A key that is active as wanted is left alone. Otherwise it is
      deregistered if it was active, registered as offered, and the registrar's verdict decides: no
      error and it is active, held as offered and not failing; an error and it is neither active nor
      held, and noted as failing. */
  lemma OfferOutcome<A, R>(bk: Book<A, R>, key: Key, want: A, what: R, v: Verdicts, note: string -> string, rec: R -> A)
    requires Agrees(bk, rec)
    ensures
      var bk' := Offer(bk, key, want, what, v, note);
      var n := |bk.calls| + (if key in bk.active then 1 else 0);
      if key in bk.active && bk.active[key] == want then bk' == bk
      else
        && |bk'.calls| == n + 1 && bk.calls <= bk'.calls
        && bk'.calls[n] == Registers(key, what) && (key in bk.active ==> bk'.calls[n - 1] == Deregisters(key))
        && if v(n).None? then
             && key in bk'.active && bk'.active[key] == want && key !in bk'.failed
             && key in bk'.held && bk'.held[key] == what
           else
             && key !in bk'.active && key !in bk'.held
             && key in bk'.failed && bk'.failed[key] == note(v(n).value)
  {
  }

  /** After an offer the key is active as wanted, or it failed and is not active; and no other key
      is affected. */
  lemma OfferSettles<A, R>(bk: Book<A, R>, key: Key, want: A, what: R, v: Verdicts, note: string -> string)
    ensures
      var bk' := Offer(bk, key, want, what, v, note);
      && ((key in bk'.active && bk'.active[key] == want) || (key !in bk'.active && key in bk'.failed))
      && (forall k :: k != key ==> SameAt(bk, bk', k))
  {
  }

  // ------------------------------------------------------------------ over a pass

  /** Only `bk.calls[from..]` count: the last call about k was a registration, which was refused. */
  ghost predicate LastRefused<R>(calls: seq<Op<R>>, from: nat, k: Key, v: Verdicts) {
    exists n :: from <= n < |calls| && RefusedAt(calls, n, k, v)
  }

  ghost predicate RefusedAt<R>(calls: seq<Op<R>>, n: nat, k: Key, v: Verdicts)
    requires n < |calls|
  {
    && calls[n].Registers? && calls[n].key == k && v(n).Some?
    && (forall m :: n < m < |calls| ==> calls[m].key != k)
  }

  /** Since `from` the registrar refused to register this under k. */
  ghost predicate Refuses<R>(calls: seq<Op<R>>, from: nat, k: Key, what: R, v: Verdicts) {
    exists n :: from <= n < |calls| && calls[n] == Registers(k, what) && v(n).Some?
  }

  /** The key is active as wanted; or, exactly if the registrar refused the last registration tried
      since `from`, and that was this one, it is failing and not active. */
  ghost predicate Settles<A, R>(bk: Book<A, R>, from: nat, k: Key, want: A, what: R, v: Verdicts) {
    if LastRefused(bk.calls, from, k, v) then
      k !in bk.active && k in bk.failed && Refuses(bk.calls, from, k, what, v)
    else k in bk.active && bk.active[k] == want
  }

  /** What is active was not refused since. */
  ghost predicate Unrefused<A, R>(bk: Book<A, R>, from: nat, k: Key, v: Verdicts) {
    k in bk.active ==> !LastRefused(bk.calls, from, k, v)
  }

  /** Calls about other keys do not matter. */
  lemma RefusalStays<R>(calls: seq<Op<R>>, more: seq<Op<R>>, from: nat, k: Key, v: Verdicts)
    requires calls <= more && from <= |calls| && forall m :: |calls| <= m < |more| ==> more[m].key != k
    ensures LastRefused(more, from, k, v) <==> LastRefused(calls, from, k, v)
  {
    if n :| from <= n < |calls| && RefusedAt(calls, n, k, v) {
      assert RefusedAt(more, n, k, v);
    }
    if n :| from <= n < |more| && RefusedAt(more, n, k, v) {
      assert RefusedAt(calls, n, k, v);
    }
  }

  /** The calls an offer makes are about its key. */
  lemma OfferCalls<A, R>(bk: Book<A, R>, key: Key, want: A, what: R, v: Verdicts, note: string -> string)
    ensures
      var calls := Offer(bk, key, want, what, v, note).calls;
      bk.calls <= calls && forall m :: |bk.calls| <= m < |calls| ==> calls[m].key == key
  {
  }

  lemma OfferSettlesSince<A, R>(bk: Book<A, R>, from: nat, key: Key, want: A, what: R, v: Verdicts,
                                note: string -> string, rec: R -> A)
    requires Agrees(bk, rec) && from <= |bk.calls| && Unrefused(bk, from, key, v)
    ensures Settles(Offer(bk, key, want, what, v, note), from, key, want, what, v)
  {
    OfferOutcome(bk, key, want, what, v, note, rec);
    var bk' := Offer(bk, key, want, what, v, note);
    if !(key in bk.active && bk.active[key] == want) {
      var n := |bk'.calls| - 1;
      assert bk'.calls[n] == Registers(key, what);
      if v(n).Some? {
        assert RefusedAt(bk'.calls, n, key, v);
      } else {
        LastAccepted(bk'.calls, from, key, v);
      }
    }
  }

  lemma LastAccepted<R>(calls: seq<Op<R>>, from: nat, k: Key, v: Verdicts)
    requires calls != [] && calls[|calls| - 1].key == k && v(|calls| - 1).None?
    ensures !LastRefused(calls, from, k, v)
  {
    forall n | from <= n < |calls|
      ensures !RefusedAt(calls, n, k, v)
    {
      assert n < |calls| - 1 ==> calls[|calls| - 1].key == k;
    }
  }

  lemma OtherOfferKeeps<A, R>(bk: Book<A, R>, from: nat, key: Key, want: A, what: R, v: Verdicts,
                              note: string -> string, k: Key)
    requires k != key && from <= |bk.calls|
    ensures
      var bk' := Offer(bk, key, want, what, v, note);
      && SameAt(bk, bk', k)
      && (LastRefused(bk'.calls, from, k, v) <==> LastRefused(bk.calls, from, k, v))
      && (forall h :: Refuses(bk.calls, from, k, h, v) ==> Refuses(bk'.calls, from, k, h, v))
  {
    var bk' := Offer(bk, key, want, what, v, note);
    OfferSettles(bk, key, want, what, v, note);
    OfferCalls(bk, key, want, what, v, note);
    RefusalStays(bk.calls, bk'.calls, from, k, v);
    forall h | Refuses(bk.calls, from, k, h, v)
      ensures Refuses(bk'.calls, from, k, h, v)
    {
      RefusesStays(bk.calls, bk'.calls, from, k, h, v);
    }
  }

  lemma RefusesStays<R>(calls: seq<Op<R>>, more: seq<Op<R>>, from: nat, k: Key, what: R, v: Verdicts)
    requires calls <= more && Refuses(calls, from, k, what, v)
    ensures Refuses(more, from, k, what, v)
  {
    var n :| from <= n < |calls| && calls[n] == Registers(k, what) && v(n).Some?;
    assert more[n] == calls[n];
  }

  predicate SameAt<A(==), R>(bk: Book<A, R>, bk': Book<A, R>, k: Key) {
    && (k in bk'.active <==> k in bk.active) && (k in bk.active ==> bk'.active[k] == bk.active[k])
    && (k in bk'.failed <==> k in bk.failed) && (k in bk.failed ==> bk'.failed[k] == bk.failed[k])
  }

  /** An offer puts nothing in the registrar but what was offered, under its key. */
  lemma OfferHolds<A, R>(bk: Book<A, R>, key: Key, want: A, what: R, v: Verdicts, note: string -> string, k: Key)
    requires k in Offer(bk, key, want, what, v, note).held
    ensures
      var r := Offer(bk, key, want, what, v, note).held[k];
      (k in bk.held && r == bk.held[k]) || (k == key && r == what)
  {
  }

  /** An offer makes no registrar call exactly when the key is active as wanted. */
  lemma OfferQuietIff<A, R>(bk: Book<A, R>, key: Key, want: A, what: R, v: Verdicts, note: string -> string)
    ensures |Offer(bk, key, want, what, v, note).calls| == |bk.calls| <==>
      key in bk.active && bk.active[key] == want
    ensures |Offer(bk, key, want, what, v, note).calls| >= |bk.calls|
    ensures key in bk.active && bk.active[key] == want ==> Offer(bk, key, want, what, v, note) == bk
  {
  }

  // ------------------------------------------------------------------ the sweep

  /** `removeMissing`, on the keys it finds unseen, in whatever order the map gives them. */
  function DropAll<A, R>(bk: Book<A, R>, order: seq<Key>): Book<A, R> {
    if order == [] then bk else Drop(DropAll(bk, order[..|order| - 1]), order[|order| - 1])
  }

  function ForgetUnseen<A, R>(bk: Book<A, R>, seen: set<Key>): Book<A, R> {
    bk.(failed := map k | k in bk.failed && k in seen :: bk.failed[k])
  }

  function Sweep<A, R>(bk: Book<A, R>, seen: set<Key>, order: seq<Key>): Book<A, R> {
    ForgetUnseen(DropAll(bk, order), seen)
  }

  /** The order of a range over `active` restricted to the unseen keys. */
  ghost predicate ListsUnseen<A, R>(bk: Book<A, R>, seen: set<Key>, order: seq<Key>) {
    && (forall k :: k in order <==> k in bk.active && k !in seen)
    && (forall i, j :: 0 <= i < j < |order| ==> order[i] != order[j])
  }

  lemma {:induction false} DropAllIs<A, R>(bk: Book<A, R>, order: seq<Key>)
    ensures DropAll(bk, order).active == bk.active - (set k | k in order)
    ensures DropAll(bk, order).held == bk.held - (set k | k in order)
    ensures DropAll(bk, order).failed == bk.failed
    ensures |DropAll(bk, order).calls| == |bk.calls| + |order|
  {
    if order != [] {
      var last := |order| - 1;
      DropAllIs(bk, order[..last]);
      assert order == order[..last] + [order[last]];
      assert (set k | k in order) == (set k | k in order[..last]) + {order[last]};
    }
  }

  /** A sweep leaves exactly the seen part of both maps, whatever the order. */
  lemma SweepIs<A, R>(bk: Book<A, R>, seen: set<Key>, order: seq<Key>)
    requires ListsUnseen(bk, seen, order)
    ensures
      var bk' := Sweep(bk, seen, order);
      && (forall k :: k in bk'.active <==> k in bk.active && k in seen)
      && (forall k :: k in bk'.active ==> bk'.active[k] == bk.active[k])
      && (forall k :: k in bk'.failed <==> k in bk.failed && k in seen)
      && (forall k :: k in bk'.failed ==> bk'.failed[k] == bk.failed[k])
      && |bk'.calls| == |bk.calls| + |order|
  {
    DropAllIs(bk, order);
  }

  /** The calls of a sweep are about the keys it drops. */
  lemma {:induction false} SweepCalls<A, R>(bk: Book<A, R>, seen: set<Key>, order: seq<Key>, k: Key)
    requires k !in order
    ensures
      var calls := Sweep(bk, seen, order).calls;
      bk.calls <= calls && forall m :: |bk.calls| <= m < |calls| ==> calls[m].key != k
  {
    if order != [] {
      var last := |order| - 1;
      SweepCalls(bk, seen, order[..last], k);
      assert order[last] in order;
    }
  }

  /** A key that is seen comes through the sweep as the pass has left it. */
  lemma SweepSettles<A, R>(bk: Book<A, R>, from: nat, seen: set<Key>, order: seq<Key>, k: Key, want: A, what: R, v: Verdicts)
    requires ListsUnseen(bk, seen, order) && k in seen && from <= |bk.calls|
    requires Settles(bk, from, k, want, what, v)
    ensures Settles(Sweep(bk, seen, order), from, k, want, what, v)
  {
    var bk' := Sweep(bk, seen, order);
    SweepIs(bk, seen, order);
    SweepCalls(bk, seen, order, k);
    RefusalStays(bk.calls, bk'.calls, from, k, v);
    if LastRefused(bk.calls, from, k, v) {
      RefusesStays(bk.calls, bk'.calls, from, k, what, v);
    }
  }

  lemma SweepAgrees<A, R>(bk: Book<A, R>, seen: set<Key>, order: seq<Key>, rec: R -> A)
    requires Agrees(bk, rec)
    ensures Agrees(Sweep(bk, seen, order), rec)
  {
    DropAllIs(bk, order);
  }

  // ------------------------------------------------------------------ nothing but calls changes the registrar

  lemma RegisterTraced<A, R>(bk: Book<A, R>, key: Key, what: R, v: Verdicts)
    requires Traced(bk, v)
    ensures Traced(Register(bk, key, what, v), v)
  {
    assert (bk.calls + [Registers(key, what)])[..|bk.calls|] == bk.calls;
  }

  lemma DropTraced<A, R>(bk: Book<A, R>, key: Key, v: Verdicts)
    requires Traced(bk, v)
    ensures Traced(Drop(bk, key), v)
  {
    var op: Op<R> := Deregisters(key);
    assert (bk.calls + [op])[..|bk.calls|] == bk.calls;
  }

  lemma OfferTraced<A, R>(bk: Book<A, R>, key: Key, want: A, what: R, v: Verdicts, note: string -> string)
    requires Traced(bk, v)
    ensures Traced(Offer(bk, key, want, what, v, note), v)
  {
    if key in bk.active && bk.active[key] != want {
      DropTraced(bk, key, v);
      RegisterTraced(Drop(bk, key), key, what, v);
    } else if key !in bk.active {
      RegisterTraced(bk, key, what, v);
    }
  }

  lemma {:induction false} SweepTraced<A, R>(bk: Book<A, R>, seen: set<Key>, order: seq<Key>, v: Verdicts)
    requires Traced(bk, v)
    ensures Traced(DropAll(bk, order), v) && Traced(Sweep(bk, seen, order), v)
  {
    if order != [] {
      SweepTraced(bk, seen, order[..|order| - 1], v);
      DropTraced(DropAll(bk, order[..|order| - 1]), order[|order| - 1], v);
    }
  }

  /** What is held was registered by one of the calls. */
  lemma {:induction false} HeldWasCalled<R>(ops: seq<Op<R>>, v: Verdicts, k: Key) returns (n: nat)
    requires k in Held(ops, v)
    ensures n < |ops| && ops[n] == Registers(k, Held(ops, v)[k])
  {
    var last := |ops| - 1;
    if k in Held(ops[..last], v) && Held(ops[..last], v)[k] == Held(ops, v)[k] {
      n := HeldWasCalled(ops[..last], v, k);
    } else {
      n := last;
    }
  }
}
