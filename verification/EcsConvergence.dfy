/**
 What the ECS watcher achieves over any sequence of cycles, on the functions its methods are
 proved to compute: agreement, convergence, survival of what is still running, and quiet repeats.
 */
module EcsConvergence {
  import opened Options
  import opened Ledger
  import opened EcsWatcher
  import L = Labels

  // ------------------------------------------------------------------ what one pass settles

  /** The last backend offered for k in this pass, if any container of that key resolved. */
  function LastOffer(obs: seq<Obs>, k: Key): Option<Backend> {
    if obs == [] then None
    else
      var o := obs[|obs| - 1];
      if o.key == k && o.offer.Some? then o.offer else LastOffer(obs[..|obs| - 1], k)
  }

  predicate Settled(bk: EcsBook, k: Key, b: Backend) {
    || (k in bk.active && bk.active[k] == AddrOf(b))
    || (k !in bk.active && k in bk.failed)
  }

  lemma {:induction false} LastOfferSettles(bk: EcsBook, obs: seq<Obs>, v: Verdicts, k: Key)
    ensures LastOffer(obs, k).Some? ==> Settled(ApplyAll(bk, obs, v), k, LastOffer(obs, k).value)
    ensures LastOffer(obs, k).None? ==> SameAt(bk, ApplyAll(bk, obs, v), k)
  {
    if obs != [] {
      var last := |obs| - 1;
      LastOfferSettles(bk, obs[..last], v, k);
      if obs[last].offer.Some? {
        var b := obs[last].offer.value;
        OfferSettles(ApplyAll(bk, obs[..last], v), obs[last].key, AddrOf(b), b, v, (msg: string) => msg);
        assert k != obs[last].key ==> SameAt(ApplyAll(bk, obs[..last], v), ApplyAll(bk, obs, v), k);
      }
    }
  }

  predicate Apart(bk: EcsBook) {
    forall k :: k in bk.active ==> k !in bk.failed
  }

  lemma {:induction false} ApplyKeepsApart(bk: EcsBook, obs: seq<Obs>, v: Verdicts)
    requires Apart(bk)
    ensures Apart(ApplyAll(bk, obs, v))
  {
    if obs != [] {
      ApplyKeepsApart(bk, obs[..|obs| - 1], v);
    }
  }

  lemma {:induction false} ApplyKeepsAgreement(bk: EcsBook, obs: seq<Obs>, v: Verdicts)
    requires Agrees(bk, AddrOf)
    ensures Agrees(ApplyAll(bk, obs, v), AddrOf)
  {
    if obs != [] {
      var last := |obs| - 1;
      ApplyKeepsAgreement(bk, obs[..last], v);
      if obs[last].offer.Some? {
        var b := obs[last].offer.value;
        OfferAgrees(ApplyAll(bk, obs[..last], v), obs[last].key, AddrOf(b), b, v, (msg: string) => msg, AddrOf);
      }
    }
  }

  /** A key that was offered is, after the pass, active at the address of its last offer, unless the
      registrar refused just that; one that was not offered is untouched. */
  lemma {:induction false} PassSettles(bk: EcsBook, obs: seq<Obs>, v: Verdicts, k: Key)
    requires Agrees(bk, AddrOf)
    ensures
      var bk' := ApplyAll(bk, obs, v);
      && |bk.calls| <= |bk'.calls| && Unrefused(bk', |bk.calls|, k, v)
      && match LastOffer(obs, k)
         case Some(b) => Settles(bk', |bk.calls|, k, AddrOf(b), b, v)
         case None => SameAt(bk, bk', k) && !LastRefused(bk'.calls, |bk.calls|, k, v)
  {
    if obs != [] {
      var last := |obs| - 1;
      var mid := ApplyAll(bk, obs[..last], v);
      PassSettles(bk, obs[..last], v, k);
      ApplyKeepsAgreement(bk, obs[..last], v);
      if obs[last].offer.Some? {
        var b := obs[last].offer.value;
        OfferCalls(mid, obs[last].key, AddrOf(b), b, v, (msg: string) => msg);
        if obs[last].key == k {
          OfferSettlesSince(mid, |bk.calls|, k, AddrOf(b), b, v, (msg: string) => msg, AddrOf);
        } else {
          OtherOfferKeeps(mid, |bk.calls|, obs[last].key, AddrOf(b), b, v, (msg: string) => msg, k);
        }
      }
    }
  }

  /** After a successful cycle: nothing unseen is left, no key is both active and failed, a key with
      a resolved backend is active there unless the registrar refused it, and a key none of whose
      containers resolved is exactly as it was. */
  lemma CycleConverges(bk: EcsBook, obs: seq<Obs>, order: seq<Key>, v: Verdicts, k: Key)
    requires Agrees(bk, AddrOf) && Apart(bk) && ListsUnseen(ApplyAll(bk, obs, v), KeysOf(obs), order)
    ensures
      var bk' := Sweep(ApplyAll(bk, obs, v), KeysOf(obs), order);
      && Apart(bk')
      && (k in bk'.active || k in bk'.failed ==> k in KeysOf(obs))
      && match LastOffer(obs, k)
         case Some(b) => Settles(bk', |bk.calls|, k, AddrOf(b), b, v)
         case None => k in KeysOf(obs) ==> SameAt(bk, bk', k)
  {
    var applied := ApplyAll(bk, obs, v);
    ApplyKeepsApart(bk, obs, v);
    PassSettles(bk, obs, v, k);
    SweepIs(applied, KeysOf(obs), order);
    OfferedIsSeen(obs, k);
    if LastOffer(obs, k).Some? {
      var b := LastOffer(obs, k).value;
      SweepSettles(applied, |bk.calls|, KeysOf(obs), order, k, AddrOf(b), b, v);
    }
  }

  lemma {:induction false} OfferedIsSeen(obs: seq<Obs>, k: Key)
    ensures LastOffer(obs, k).Some? ==> k in KeysOf(obs)
  {
    if obs != [] {
      var last := |obs| - 1;
      OfferedIsSeen(obs[..last], k);
      assert obs == obs[..last] + [obs[last]];
      KeysMore(obs[..last], [obs[last]]);
      assert [obs[last]][0].key in KeysOf([obs[last]]);
    }
  }

  // ------------------------------------------------------------------ repeating a cycle

  /** Every resolved container of one key resolved to one address. */
  ghost predicate Consistent(obs: seq<Obs>) {
    forall i, j | 0 <= i < |obs| && 0 <= j < |obs| ::
      (obs[i].key == obs[j].key && obs[i].offer.Some? && obs[j].offer.Some?)
      ==> AddrOf(obs[i].offer.value) == AddrOf(obs[j].offer.value)
  }

  /** Every resolved container is active at its address. */
  ghost predicate InPlace(bk: EcsBook, obs: seq<Obs>) {
    forall i :: 0 <= i < |obs| && obs[i].offer.Some? ==>
      obs[i].key in bk.active && bk.active[obs[i].key] == AddrOf(obs[i].offer.value)
  }

  /** A pass makes no registrar call exactly when everything is in place, and then changes nothing. */
  lemma {:induction false} QuietIff(bk: EcsBook, obs: seq<Obs>, v: Verdicts)
    ensures |ApplyAll(bk, obs, v).calls| >= |bk.calls|
    ensures |ApplyAll(bk, obs, v).calls| == |bk.calls| <==> InPlace(bk, obs)
    ensures InPlace(bk, obs) ==> ApplyAll(bk, obs, v) == bk
  {
    if obs != [] {
      var last := |obs| - 1;
      QuietIff(bk, obs[..last], v);
      var mid := ApplyAll(bk, obs[..last], v);
      if obs[last].offer.Some? {
        var b := obs[last].offer.value;
        OfferQuietIff(mid, obs[last].key, AddrOf(b), b, v, (msg: string) => msg);
      }
      assert InPlace(bk, obs) ==> InPlace(bk, obs[..last]);
    }
  }

  lemma LastOfferOf(obs: seq<Obs>, i: nat)
    requires i < |obs| && obs[i].offer.Some?
    ensures LastOffer(obs, obs[i].key).Some?
  {
    var last := |obs| - 1;
    if i != last && !(obs[last].key == obs[i].key && obs[last].offer.Some?) {
      LastOfferOf(obs[..last], i);
    }
  }

  lemma {:induction false} LastOfferIs(obs: seq<Obs>, k: Key) returns (j: nat)
    requires LastOffer(obs, k).Some?
    ensures j < |obs| && obs[j].key == k && obs[j].offer == LastOffer(obs, k)
  {
    var last := |obs| - 1;
    if obs[last].key == k && obs[last].offer.Some? {
      j := last;
    } else {
      j := LastOfferIs(obs[..last], k);
    }
  }

  /** Repeating a cycle on the observations of a cycle that left no failing key makes no registrar
      call if and only if those observations give every key one address. */
  lemma RepeatQuietIff(bk: EcsBook, obs: seq<Obs>, order: seq<Key>, v: Verdicts, v': Verdicts)
    requires Apart(bk) && ListsUnseen(ApplyAll(bk, obs, v), KeysOf(obs), order)
    requires Sweep(ApplyAll(bk, obs, v), KeysOf(obs), order).failed == map[]
    ensures
      var bk' := Sweep(ApplyAll(bk, obs, v), KeysOf(obs), order);
      |ApplyAll(bk', obs, v').calls| == |bk'.calls| <==> Consistent(obs)
  {
    var bk' := Sweep(ApplyAll(bk, obs, v), KeysOf(obs), order);
    QuietIff(bk', obs, v');
    if Consistent(obs) {
      forall i | 0 <= i < |obs| && obs[i].offer.Some?
        ensures obs[i].key in bk'.active && bk'.active[obs[i].key] == AddrOf(obs[i].offer.value)
      {
        LastOfferOf(obs, i);
        var j := LastOfferIs(obs, obs[i].key);
        LastOfferSettles(bk, obs, v, obs[i].key);
        SweepIs(ApplyAll(bk, obs, v), KeysOf(obs), order);
        OfferedIsSeen(obs, obs[i].key);
      }
    }
  }

  // ------------------------------------------------------------------ the definition cache

  /** Entries never change and never go away. */
  ghost predicate Extends(c: Cache, d: Cache) {
    forall arn :: arn in c ==> arn in d && d[arn] == c[arn]
  }

  lemma {:induction false} BatchExtends(c: Cache, tasks: seq<Task>, b: nat, a: Answers, m: nat, n: nat)
    requires m <= n <= |tasks|
    ensures Extends(CacheAfterBatch(c, tasks, b, a, m), CacheAfterBatch(c, tasks, b, a, n))
    decreases n
  {
    if m < n {
      BatchExtends(c, tasks, b, a, m, n - 1);
    }
  }

  lemma {:induction false} CacheExtends(c: Cache, a: Answers, m: nat, n: nat)
    requires m <= n && Described(a, n)
    ensures Described(a, m)
    ensures Extends(CacheAfter(c, a, m), CacheAfter(c, a, n))
    decreases n
  {
    if m < n {
      CacheExtends(c, a, m, n - 1);
      var tasks := a.batch(n - 1).value;
      BatchExtends(CacheAfter(c, a, n - 1), tasks, n - 1, a, 0, |tasks|);
    }
  }

  /** Every definition the batch needed was there when it was needed, unless it is not in d. */
  ghost predicate BatchArrived(c: Cache, tasks: seq<Task>, b: nat, a: Answers, n: nat, d: Cache)
    requires n <= |tasks|
  {
    forall i :: 0 <= i < n && Eligible(tasks[i]) ==>
      || Lookup(CacheAfterBatch(c, tasks, b, a, i), tasks[i].defArn.value, a.lookup(b, i)).Some?
      || tasks[i].defArn.value !in d
  }

  /** No definition of d came too late in these batches: one that never comes is no matter. */
  ghost predicate Arrived(c: Cache, a: Answers, n: nat, d: Cache)
    requires Described(a, n)
  {
    n == 0 ||
    (var tasks := a.batch(n - 1).value;
     Arrived(c, a, n - 1, d) && BatchArrived(CacheAfter(c, a, n - 1), tasks, n - 1, a, |tasks|, d))
  }

  lemma {:induction false} BatchSameObs(c: Cache, d: Cache, tasks: seq<Task>, b: nat, a: Answers, n: nat)
    requires n <= |tasks| && BatchArrived(c, tasks, b, a, n, d) && Extends(CacheAfterBatch(c, tasks, b, a, n), d)
    ensures CacheAfterBatch(d, tasks, b, a, n) == d
    ensures ObsOfBatch(d, tasks, b, a, n) == ObsOfBatch(c, tasks, b, a, n)
  {
    if n > 0 {
      BatchExtends(c, tasks, b, a, n - 1, n);
      BatchSameObs(c, d, tasks, b, a, n - 1);
      SameTask(CacheAfterBatch(c, tasks, b, a, n - 1), d, tasks[n - 1], b, n - 1, a);
    }
  }

  lemma SameTask(at: Cache, d: Cache, task: Task, b: nat, i: nat, a: Answers)
    requires Extends(CacheAfterTask(at, task, b, i, a), d)
    requires Eligible(task) ==> Lookup(at, task.defArn.value, a.lookup(b, i)).Some? || task.defArn.value !in d
    ensures CacheAfterTask(d, task, b, i, a) == d && ObsOfTask(d, task, b, i, a) == ObsOfTask(at, task, b, i, a)
  {
    if Eligible(task) && task.defArn.value in d {
      assert d[task.defArn.value := d[task.defArn.value]] == d;
    }
  }

  /** On the same answers the next cycle observes the same containers, as long as no definition
      that this cycle ended up with had failed to arrive when it was first needed. */
  lemma {:induction false} SameAnswersSameObs(c: Cache, d: Cache, a: Answers, n: nat)
    requires Described(a, n) && Arrived(c, a, n, d) && Extends(CacheAfter(c, a, n), d)
    ensures CacheAfter(d, a, n) == d && ObsOf(d, a, n) == ObsOf(c, a, n)
  {
    if n > 0 {
      CacheExtends(c, a, n - 1, n);
      SameAnswersSameObs(c, d, a, n - 1);
      var tasks := a.batch(n - 1).value;
      BatchSameObs(CacheAfter(c, a, n - 1), d, tasks, n - 1, a, |tasks|);
    }
  }

  /** Every definition that these answers give is in d. */
  ghost predicate BatchFull(d: Cache, tasks: seq<Task>, b: nat, a: Answers, n: nat)
    requires n <= |tasks|
  {
    forall i :: 0 <= i < n && Eligible(tasks[i]) && a.lookup(b, i).Some? ==> tasks[i].defArn.value in d
  }

  ghost predicate Full(d: Cache, a: Answers, n: nat)
    requires Described(a, n)
  {
    n == 0 || (Full(d, a, n - 1) && BatchFull(d, a.batch(n - 1).value, n - 1, a, |a.batch(n - 1).value|))
  }

  lemma {:induction false} BatchFills(c: Cache, tasks: seq<Task>, b: nat, a: Answers, n: nat)
    requires n <= |tasks|
    ensures BatchFull(CacheAfterBatch(c, tasks, b, a, n), tasks, b, a, n)
  {
    if n > 0 {
      BatchFills(c, tasks, b, a, n - 1);
      BatchExtends(c, tasks, b, a, n - 1, n);
    }
  }

  lemma {:induction false} FullExtends(c: Cache, d: Cache, a: Answers, n: nat)
    requires Described(a, n) && Full(c, a, n) && Extends(c, d)
    ensures Full(d, a, n)
  {
    if n > 0 {
      FullExtends(c, d, a, n - 1);
    }
  }

  lemma {:induction false} CycleFills(c: Cache, a: Answers, n: nat)
    requires Described(a, n)
    ensures Full(CacheAfter(c, a, n), a, n)
  {
    if n > 0 {
      var tasks := a.batch(n - 1).value;
      CycleFills(c, a, n - 1);
      CacheExtends(c, a, n - 1, n);
      FullExtends(CacheAfter(c, a, n - 1), CacheAfter(c, a, n), a, n - 1);
      BatchFills(CacheAfter(c, a, n - 1), tasks, n - 1, a, |tasks|);
    }
  }

  lemma {:induction false} BatchSettled(d: Cache, tasks: seq<Task>, b: nat, a: Answers, n: nat)
    requires n <= |tasks| && BatchFull(d, tasks, b, a, n)
    ensures CacheAfterBatch(d, tasks, b, a, n) == d
  {
    if n > 0 {
      BatchSettled(d, tasks, b, a, n - 1);
      var task := tasks[n - 1];
      if Eligible(task) && task.defArn.value in d {
        assert d[task.defArn.value := d[task.defArn.value]] == d;
      }
    }
  }

  lemma {:induction false} FullSettled(d: Cache, a: Answers, n: nat)
    requires Described(a, n) && Full(d, a, n)
    ensures CacheAfter(d, a, n) == d && Arrived(d, a, n, d)
  {
    if n > 0 {
      FullSettled(d, a, n - 1);
      var tasks := a.batch(n - 1).value;
      BatchSettled(d, tasks, n - 1, a, |tasks|);
      BatchAllThere(d, tasks, n - 1, a);
    }
  }

  /** A cache that starts as d has all of d when it is needed. */
  lemma BatchAllThere(d: Cache, tasks: seq<Task>, b: nat, a: Answers)
    ensures BatchArrived(d, tasks, b, a, |tasks|, d)
  {
    forall i | 0 <= i < |tasks| && Eligible(tasks[i])
      ensures Lookup(CacheAfterBatch(d, tasks, b, a, i), tasks[i].defArn.value, a.lookup(b, i)).Some?
           || tasks[i].defArn.value !in d
    {
      BatchExtends(d, tasks, b, a, 0, i);
    }
  }

  /** Repeating the answers brings no further definition, and the repetition has all of them from the
      start. */
  lemma CacheSettles(c: Cache, a: Answers, n: nat)
    requires Described(a, n)
    ensures
      var d := CacheAfter(c, a, n);
      CacheAfter(d, a, n) == d && Arrived(d, a, n, d)
  {
    CycleFills(c, a, n);
    FullSettled(CacheAfter(c, a, n), a, n);
  }

  // ------------------------------------------------------------------ survival

  /** A container of the definition that carries valid labels. */
  predicate Labelled(cd: ContainerDef) {
    cd.name.Some? && L.Parse(cd.labels).Ok?
  }

  /** k is the key of a labelled container of the cached definition, in a task of this ARN. */
  ghost predicate RootedAt(c: Cache, k: Key, arn: Option<string>, defArn: string) {
    && defArn in c
    && exists j :: 0 <= j < |c[defArn].containers| && Labelled(c[defArn].containers[j])
         && k == RegistrationKey(DerefArn(arn), c[defArn].containers[j].name.value)
  }

  lemma RootedExtends(c: Cache, d: Cache, k: Key, arn: Option<string>, defArn: string)
    requires Extends(c, d) && RootedAt(c, k, arn, defArn)
    ensures RootedAt(d, k, arn, defArn)
  {
  }

  lemma {:induction false} TaskSees(task: Task, td: TaskDef, b: nat, i: nat, a: Answers, n: nat, j: nat)
    requires j < n <= |td.containers| && Labelled(td.containers[j])
    ensures RegistrationKey(DerefArn(task.arn), td.containers[j].name.value) in KeysOf(TaskObs(task, td, b, i, a, n))
    decreases n
  {
    var o := ContainerObs(task, td.containers[n - 1], a.resolve(b, i, n - 1));
    var before := TaskObs(task, td, b, i, a, n - 1);
    if j < n - 1 {
      TaskSees(task, td, b, i, a, n - 1, j);
      if o.Some? {
        KeysMore(before, [o.value]);
      } else {
        assert before + [] == before;
      }
    } else {
      KeysMore(before, [o.value]);
      assert [o.value][0].key in KeysOf([o.value]);
    }
  }

  lemma {:induction false} BatchSees(c: Cache, tasks: seq<Task>, b: nat, a: Answers, n: nat, i: nat, k: Key)
    requires i < n <= |tasks| && Eligible(tasks[i])
    requires RootedAt(c, k, tasks[i].arn, tasks[i].defArn.value)
    ensures k in KeysOf(ObsOfBatch(c, tasks, b, a, n))
    decreases n
  {
    var before := ObsOfBatch(c, tasks, b, a, n - 1);
    var at := CacheAfterBatch(c, tasks, b, a, n - 1);
    KeysMore(before, ObsOfTask(at, tasks[n - 1], b, n - 1, a));
    if i < n - 1 {
      BatchSees(c, tasks, b, a, n - 1, i, k);
    } else {
      BatchExtends(c, tasks, b, a, 0, n - 1);
      RootedExtends(c, at, k, tasks[i].arn, tasks[i].defArn.value);
      var td := at[tasks[i].defArn.value];
      var j :| 0 <= j < |td.containers| && Labelled(td.containers[j])
        && k == RegistrationKey(DerefArn(tasks[i].arn), td.containers[j].name.value);
      TaskSees(tasks[i], td, b, i, a, |td.containers|, j);
    }
  }

  /** A key whose task is described RUNNING under its definition is seen, whatever definition
      lookups and backend resolutions answer, because its definition is in the cache already. */
  lemma RunningIsSeen(c: Cache, a: Answers, n: nat, b: nat, i: nat, k: Key)
    requires Described(a, n) && b < n && i < |a.batch(b).value| && Eligible(a.batch(b).value[i])
    requires RootedAt(c, k, a.batch(b).value[i].arn, a.batch(b).value[i].defArn.value)
    ensures k in KeysOf(ObsOf(c, a, n))
  {
    LastBatchSees(c, a, b, i, k);
    KeysMonotone(c, a, b + 1, n);
  }

  lemma {:induction false} KeysMonotone(c: Cache, a: Answers, m: nat, n: nat)
    requires m <= n && Described(a, n)
    ensures Described(a, m) && KeysOf(ObsOf(c, a, m)) <= KeysOf(ObsOf(c, a, n))
    decreases n
  {
    if m < n {
      EarlierKeysSeen(c, a, n);
      KeysMonotone(c, a, m, n - 1);
    }
  }

  lemma EarlierKeysSeen(c: Cache, a: Answers, n: nat)
    requires n > 0 && Described(a, n)
    ensures Described(a, n - 1) && KeysOf(ObsOf(c, a, n - 1)) <= KeysOf(ObsOf(c, a, n))
  {
    var tasks := a.batch(n - 1).value;
    KeysMore(ObsOf(c, a, n - 1), ObsOfBatch(CacheAfter(c, a, n - 1), tasks, n - 1, a, |tasks|));
  }

  lemma LastBatchSees(c: Cache, a: Answers, b: nat, i: nat, k: Key)
    requires Described(a, b + 1) && i < |a.batch(b).value| && Eligible(a.batch(b).value[i])
    requires RootedAt(c, k, a.batch(b).value[i].arn, a.batch(b).value[i].defArn.value)
    ensures k in KeysOf(ObsOf(c, a, b + 1))
  {
    var tasks := a.batch(b).value;
    CacheExtends(c, a, 0, b);
    RootedExtends(c, CacheAfter(c, a, b), k, tasks[i].arn, tasks[i].defArn.value);
    BatchSees(CacheAfter(c, a, b), tasks, b, a, |tasks|, i, k);
    KeysMore(ObsOf(c, a, b), ObsOfBatch(CacheAfter(c, a, b), tasks, b, a, |tasks|));
  }

  // ------------------------------------------------------------------ every observation has its task

  /** A container that is observed is a labelled one, observed under its own key. */
  lemma ObservedLabelled(task: Task, cd: ContainerDef, resolved: Option<Addr>)
    requires ContainerObs(task, cd, resolved).Some?
    ensures Labelled(cd)
    ensures ContainerObs(task, cd, resolved).value.key == RegistrationKey(DerefArn(task.arn), cd.name.value)
  {
  }

  lemma {:induction false} TaskRoots(task: Task, c: Cache, b: nat, i: nat, a: Answers, n: nat, k: Key)
    requires Eligible(task) && task.defArn.value in c && n <= |c[task.defArn.value].containers|
    requires k in KeysOf(TaskObs(task, c[task.defArn.value], b, i, a, n))
    ensures RootedAt(c, k, task.arn, task.defArn.value)
  {
    var td := c[task.defArn.value];
    var cd, resolved := td.containers[n - 1], a.resolve(b, i, n - 1);
    var before := TaskObs(task, td, b, i, a, n - 1);
    var o := ContainerObs(task, cd, resolved);
    KeysMore(before, if o.Some? then [o.value] else []);
    if k in KeysOf(before) {
      TaskRoots(task, c, b, i, a, n - 1, k);
    } else {
      ObservedLabelled(task, cd, resolved);
    }
  }

  /** A key observed in a batch is that of a task described in it, under a definition cached by then. */
  lemma {:induction false} BatchRoots(c: Cache, tasks: seq<Task>, b: nat, a: Answers, n: nat, k: Key) returns (i: nat)
    requires n <= |tasks| && k in KeysOf(ObsOfBatch(c, tasks, b, a, n))
    ensures i < n && Eligible(tasks[i])
    ensures RootedAt(CacheAfterBatch(c, tasks, b, a, n), k, tasks[i].arn, tasks[i].defArn.value)
  {
    var at := CacheAfterBatch(c, tasks, b, a, n - 1);
    var before, more := ObsOfBatch(c, tasks, b, a, n - 1), ObsOfTask(at, tasks[n - 1], b, n - 1, a);
    KeysMore(before, more);
    if k in KeysOf(before) {
      i := BatchRoots(c, tasks, b, a, n - 1, k);
      BatchExtends(c, tasks, b, a, n - 1, n);
      RootedExtends(at, CacheAfterBatch(c, tasks, b, a, n), k, tasks[i].arn, tasks[i].defArn.value);
    } else {
      i := n - 1;
      OneTaskRoots(at, tasks[i], b, i, a, k);
    }
  }

  lemma OneTaskRoots(c: Cache, task: Task, b: nat, i: nat, a: Answers, k: Key)
    requires k in KeysOf(ObsOfTask(c, task, b, i, a))
    ensures Eligible(task) && RootedAt(CacheAfterTask(c, task, b, i, a), k, task.arn, task.defArn.value)
  {
    var after := CacheAfterTask(c, task, b, i, a);
    TaskRoots(task, after, b, i, a, |after[task.defArn.value].containers|, k);
  }

  /** k is the key of a labelled container of a RUNNING task of this batch, its definition in d. */
  ghost predicate RootedInBatch(tasks: seq<Task>, d: Cache, k: Key) {
    exists i :: 0 <= i < |tasks| && Eligible(tasks[i]) && RootedAt(d, k, tasks[i].arn, tasks[i].defArn.value)
  }

  /** Likewise of one of the first n batches. */
  ghost predicate RootedIn(a: Answers, n: nat, d: Cache, k: Key)
    requires Described(a, n)
  {
    n > 0 && (RootedIn(a, n - 1, d, k) || RootedInBatch(a.batch(n - 1).value, d, k))
  }

  /** A key observed in a cycle comes from a task described in it, under a definition that every
      later cache has. */
  lemma {:induction false} CycleRoots(c: Cache, a: Answers, n: nat, k: Key, d: Cache)
    requires Described(a, n) && k in KeysOf(ObsOf(c, a, n)) && Extends(CacheAfter(c, a, n), d)
    ensures RootedIn(a, n, d, k)
  {
    SeenEarlierOrLast(c, a, n, k);
    if k in KeysOf(ObsOf(c, a, n - 1)) {
      CacheExtends(c, a, n - 1, n);
      CycleRoots(c, a, n - 1, k, d);
    } else {
      LastBatchRoots(c, a, n, k, d);
    }
  }

  lemma LastBatchRoots(c: Cache, a: Answers, n: nat, k: Key, d: Cache)
    requires n > 0 && Described(a, n) && Described(a, n - 1) && Extends(CacheAfter(c, a, n), d)
    requires
      var tasks := a.batch(n - 1).value;
      k in KeysOf(ObsOfBatch(CacheAfter(c, a, n - 1), tasks, n - 1, a, |tasks|))
    ensures RootedInBatch(a.batch(n - 1).value, d, k)
  {
    var tasks := a.batch(n - 1).value;
    var i := BatchRoots(CacheAfter(c, a, n - 1), tasks, n - 1, a, |tasks|, k);
    RootedExtends(CacheAfter(c, a, n), d, k, tasks[i].arn, tasks[i].defArn.value);
  }

  lemma {:induction false} RootOf(a: Answers, n: nat, d: Cache, k: Key) returns (b: nat, i: nat)
    requires Described(a, n) && RootedIn(a, n, d, k)
    ensures b < n && i < |a.batch(b).value| && Eligible(a.batch(b).value[i])
    ensures RootedAt(d, k, a.batch(b).value[i].arn, a.batch(b).value[i].defArn.value)
  {
    if RootedIn(a, n - 1, d, k) {
      b, i := RootOf(a, n - 1, d, k);
    } else {
      b := n - 1;
      var tasks := a.batch(b).value;
      i :| 0 <= i < |tasks| && Eligible(tasks[i]) && RootedAt(d, k, tasks[i].arn, tasks[i].defArn.value);
    }
  }

  lemma SeenEarlierOrLast(c: Cache, a: Answers, n: nat, k: Key)
    requires Described(a, n) && k in KeysOf(ObsOf(c, a, n))
    ensures n > 0 && Described(a, n - 1)
    ensures
      var tasks := a.batch(n - 1).value;
      k in KeysOf(ObsOf(c, a, n - 1)) || k in KeysOf(ObsOfBatch(CacheAfter(c, a, n - 1), tasks, n - 1, a, |tasks|))
  {
    var tasks := a.batch(n - 1).value;
    KeysMore(ObsOf(c, a, n - 1), ObsOfBatch(CacheAfter(c, a, n - 1), tasks, n - 1, a, |tasks|));
  }

  lemma ActiveIsOldOrSeen(bk: EcsBook, obs: seq<Obs>, v: Verdicts, k: Key)
    requires k in ApplyAll(bk, obs, v).active
    ensures k in bk.active || k in KeysOf(obs)
  {
    LastOfferSettles(bk, obs, v, k);
    OfferedIsSeen(obs, k);
  }

  // ------------------------------------------------------------------ whole histories

  datatype Watch = Watch(book: EcsBook, cache: Cache)

  const FRESH := Watch(Book(map[], map[], map[], []), map[])

  /** What happens to the watcher in one cycle: `batches` of them were applied, and if all were, the
      unseen keys were removed in this order. */
  datatype Round = Round(answers: Answers, batches: nat, ok: bool, order: seq<Key>)

  /** One cycle, successful or failed, as Watcher.Cycle is proved to perform it. */
  ghost predicate Cycles(w: Watch, r: Round, v: Verdicts, w': Watch) {
    && Described(r.answers, r.batches)
    && w'.cache == CacheAfter(w.cache, r.answers, r.batches)
    && var obs := ObsOf(w.cache, r.answers, r.batches);
       var bk := ApplyAll(w.book, obs, v);
       if r.ok then ListsUnseen(bk, KeysOf(obs), r.order) && w'.book == Sweep(bk, KeysOf(obs), r.order)
       else w'.book == bk
  }

  ghost predicate Sound(w: Watch, v: Verdicts) {
    Agrees(w.book, AddrOf) && Traced(w.book, v) && Apart(w.book)
  }

  lemma {:induction false} ApplyTraced(bk: EcsBook, obs: seq<Obs>, v: Verdicts)
    requires Traced(bk, v)
    ensures Traced(ApplyAll(bk, obs, v), v)
  {
    if obs != [] {
      var last := |obs| - 1;
      ApplyTraced(bk, obs[..last], v);
      if obs[last].offer.Some? {
        var b := obs[last].offer.value;
        OfferTraced(ApplyAll(bk, obs[..last], v), obs[last].key, AddrOf(b), b, v, (msg: string) => msg);
      }
    }
  }

  lemma CycleKeepsSound(w: Watch, r: Round, v: Verdicts, w': Watch)
    requires Sound(w, v) && Cycles(w, r, v, w')
    ensures Sound(w', v)
  {
    var obs := ObsOf(w.cache, r.answers, r.batches);
    var bk := ApplyAll(w.book, obs, v);
    ApplyKeepsAgreement(w.book, obs, v);
    ApplyKeepsApart(w.book, obs, v);
    ApplyTraced(w.book, obs, v);
    if r.ok {
      SweepAgrees(bk, KeysOf(obs), r.order, AddrOf);
      SweepTraced(bk, KeysOf(obs), r.order, v);
      SweepIs(bk, KeysOf(obs), r.order);
    }
  }

  /** Any sequence of cycles, failed ones included, from a new watcher on. */
  ghost predicate History(ws: seq<Watch>, rounds: seq<Round>, v: Verdicts) {
    && |ws| == |rounds| + 1 && ws[0] == FRESH
    && (forall j :: 0 <= j < |rounds| ==> Cycles(ws[j], rounds[j], v, ws[j + 1]))
  }

  /** After any sequence of cycles the registrar holds exactly the active keys at their recorded
      addresses, by the calls made to it, and no key is both active and failed. */
  lemma {:induction false} EveryHistorySound(ws: seq<Watch>, rounds: seq<Round>, v: Verdicts, i: nat)
    requires History(ws, rounds, v) && i < |ws|
    ensures Sound(ws[i], v)
  {
    if i > 0 {
      EveryHistorySound(ws, rounds, v, i - 1);
      CycleKeepsSound(ws[i - 1], rounds[i - 1], v, ws[i]);
    }
  }

  // ------------------------------------------------------------------ survival over histories

  /** In this round the task was described RUNNING under the definition. */
  ghost predicate Ran(r: Round, arn: Option<string>, defArn: string) {
    exists b, i :: 0 <= b < r.batches && r.answers.batch(b).Some? && 0 <= i < |r.answers.batch(b).value|
      && r.answers.batch(b).value[i] == Task(arn, Some("RUNNING"), Some(defArn))
  }

  /** k is the key of a container of this task: before round i the task was described RUNNING under
      the definition, which is in the cache and gives the container its labels. */
  ghost predicate TaskOf(ws: seq<Watch>, rounds: seq<Round>, i: nat, k: Key, arn: Option<string>, defArn: string)
    requires i < |ws| && i <= |rounds|
  {
    && (exists r :: 0 <= r < i && Ran(rounds[r], arn, defArn))
    && RootedAt(ws[i].cache, k, arn, defArn)
  }

  /** Every active key has its task: one that was described RUNNING in an earlier cycle, under a
      definition that is in the cache now. */
  lemma {:induction false} ActiveHasTask(ws: seq<Watch>, rounds: seq<Round>, v: Verdicts, i: nat, k: Key)
    returns (arn: Option<string>, defArn: string)
    requires History(ws, rounds, v) && i < |ws| && k in ws[i].book.active
    ensures TaskOf(ws, rounds, i, k, arn, defArn)
  {
    var r := i - 1;
    var w, a, n := ws[r], rounds[r].answers, rounds[r].batches;
    assert Cycles(w, rounds[r], v, ws[i]);
    ActiveBefore(w, rounds[r], v, ws[i], k);
    if k in KeysOf(ObsOf(w.cache, a, n)) {
      CycleRoots(w.cache, a, n, k, ws[i].cache);
      var b, j := RootOf(a, n, ws[i].cache, k);
      var task := a.batch(b).value[j];
      arn, defArn := task.arn, task.defArn.value;
      assert task == Task(arn, Some("RUNNING"), Some(defArn));
      assert Ran(rounds[r], arn, defArn);
    } else {
      arn, defArn := ActiveHasTask(ws, rounds, v, r, k);
      CacheExtends(w.cache, a, 0, n);
      RootedExtends(w.cache, ws[i].cache, k, arn, defArn);
    }
  }

  /** A key that is active after a cycle was active before it, or seen in it. */
  lemma ActiveBefore(w: Watch, r: Round, v: Verdicts, w': Watch, k: Key)
    requires Cycles(w, r, v, w') && k in w'.book.active
    ensures k in w.book.active || k in KeysOf(ObsOf(w.cache, r.answers, r.batches))
  {
    var obs := ObsOf(w.cache, r.answers, r.batches);
    if r.ok {
      SweepIs(ApplyAll(w.book, obs, v), KeysOf(obs), r.order);
    }
    ActiveIsOldOrSeen(w.book, obs, v, k);
  }

  /** A task keeps its definition for as long as it lives. */
  ghost predicate OneDefinition(rounds: seq<Round>) {
    forall r, q, arn: string, d, e | 0 <= r < |rounds| && 0 <= q < |rounds| ::
      Ran(rounds[r], Some(arn), d) && Ran(rounds[q], Some(arn), e) ==> d == e
  }

  lemma RanIsSeen(w: Watch, r: Round, v: Verdicts, w': Watch, k: Key, arn: Option<string>, defArn: string)
    requires Cycles(w, r, v, w') && RootedAt(w.cache, k, arn, defArn) && Ran(r, arn, defArn)
    ensures k in KeysOf(ObsOf(w.cache, r.answers, r.batches))
  {
    var b, i :| 0 <= b < r.batches && r.answers.batch(b).Some? && 0 <= i < |r.answers.batch(b).value|
      && r.answers.batch(b).value[i] == Task(arn, Some("RUNNING"), Some(defArn));
    RunningIsSeen(w.cache, r.answers, r.batches, b, i, k);
  }

  lemma SameDefinition(ws: seq<Watch>, rounds: seq<Round>, i: nat, k: Key, arn: Option<string>, defArn: string, d: string)
    requires i < |rounds| < |ws| && TaskOf(ws, rounds, i, k, arn, defArn)
    requires OneDefinition(rounds) && arn.Some? && Ran(rounds[i], arn, d)
    ensures d == defArn
  {
    var r :| 0 <= r < i && Ran(rounds[r], arn, defArn);
    assert arn == Some(arn.value);
  }

  /** A key that is dropped was active, and has therefore a task as ActiveHasTask gives it. */
  lemma DroppedWasActive(ws: seq<Watch>, rounds: seq<Round>, v: Verdicts, i: nat, k: Key)
    requires History(ws, rounds, v) && i < |rounds| && rounds[i].ok && k in rounds[i].order
    ensures k in ws[i].book.active
  {
    assert Cycles(ws[i], rounds[i], v, ws[i + 1]);
    ActiveIsOldOrSeen(ws[i].book, ObsOf(ws[i].cache, rounds[i].answers, rounds[i].batches), v, k);
  }

  /** Survival: a cycle drops an active key only if it did not describe the key's task RUNNING under
      its definition, whatever definition lookups and backend resolutions answered; and, as a task
      keeps its definition, only if it did not describe the task RUNNING at all. */
  lemma DroppedOnlyIfGone(ws: seq<Watch>, rounds: seq<Round>, v: Verdicts, i: nat, k: Key,
                          arn: Option<string>, defArn: string)
    requires History(ws, rounds, v) && i < |rounds| && rounds[i].ok && k in rounds[i].order
    requires TaskOf(ws, rounds, i, k, arn, defArn)
    ensures !Ran(rounds[i], arn, defArn)
    ensures OneDefinition(rounds) && arn.Some? ==> forall d :: !Ran(rounds[i], arn, d)
  {
    assert Cycles(ws[i], rounds[i], v, ws[i + 1]);
    if Ran(rounds[i], arn, defArn) {
      RanIsSeen(ws[i], rounds[i], v, ws[i + 1], k, arn, defArn);
    }
    if OneDefinition(rounds) && arn.Some? {
      forall d | Ran(rounds[i], arn, d)
        ensures d == defArn
      {
        SameDefinition(ws, rounds, i, k, arn, defArn, d);
      }
    }
  }

  /** And so an active key whose task is described RUNNING stays: exactly as it was if none of its
      containers resolved, otherwise active where it last resolved unless the registrar refused
      that. */
  lemma RunningSurvives(ws: seq<Watch>, rounds: seq<Round>, v: Verdicts, i: nat, k: Key,
                        arn: Option<string>, defArn: string, d: string)
    requires History(ws, rounds, v) && i < |rounds| && k in ws[i].book.active
    requires TaskOf(ws, rounds, i, k, arn, defArn) && Ran(rounds[i], arn, d)
    requires d == defArn || (arn.Some? && OneDefinition(rounds))
    ensures
      assert Cycles(ws[i], rounds[i], v, ws[i + 1]);
      match LastOffer(ObsOf(ws[i].cache, rounds[i].answers, rounds[i].batches), k)
      case None => SameAt(ws[i].book, ws[i + 1].book, k)
      case Some(b) => Settles(ws[i + 1].book, |ws[i].book.calls|, k, AddrOf(b), b, v)
  {
    var w, r := ws[i], rounds[i];
    assert Cycles(w, r, v, ws[i + 1]);
    if d != defArn {
      SameDefinition(ws, rounds, i, k, arn, defArn, d);
    }
    RanIsSeen(w, r, v, ws[i + 1], k, arn, defArn);
    EveryHistorySound(ws, rounds, v, i);
    var obs := ObsOf(w.cache, r.answers, r.batches);
    if r.ok {
      CycleConverges(w.book, obs, r.order, v, k);
    } else {
      PassSettles(w.book, obs, v, k);
    }
  }

  // ------------------------------------------------------------------ a cycle on the answers of the one before

  /** Repeating the answers observes at least the same keys. */
  lemma RepeatSeesMore(w: Watch, r: Round, v: Verdicts, w': Watch)
    requires Cycles(w, r, v, w')
    ensures KeysOf(ObsOf(w.cache, r.answers, r.batches)) <= KeysOf(ObsOf(w'.cache, r.answers, r.batches))
  {
    forall k | k in KeysOf(ObsOf(w.cache, r.answers, r.batches))
      ensures k in KeysOf(ObsOf(w'.cache, r.answers, r.batches))
    {
      CycleRoots(w.cache, r.answers, r.batches, k, w'.cache);
      var b, i := RootOf(r.answers, r.batches, w'.cache, k);
      RunningIsSeen(w'.cache, r.answers, r.batches, b, i, k);
    }
  }

  /** The sweep of the repetition has nothing to remove and nothing to forget. */
  lemma NothingAgain(bk: EcsBook, seen: set<Key>, again: seq<Key>)
    requires ListsUnseen(bk, seen, again)
    requires forall k :: k in bk.active || k in bk.failed ==> k in seen
    ensures again == [] && Sweep(bk, seen, again) == bk
  {
    Inhabited(again);
    assert ForgetUnseen(bk, seen).failed == bk.failed;
  }

  lemma Inhabited(keys: seq<Key>)
    ensures keys == [] || exists k :: k in keys
  {
    if keys != [] {
      assert keys[0] in keys;
    }
  }

  /** What a successful cycle leaves is seen again in its repetition. */
  lemma LeftIsSeenAgain(w: Watch, r: Round, v: Verdicts, w': Watch, k: Key)
    requires Cycles(w, r, v, w') && r.ok && (k in w'.book.active || k in w'.book.failed)
    ensures k in KeysOf(ObsOf(w'.cache, r.answers, r.batches))
  {
    var obs := ObsOf(w.cache, r.answers, r.batches);
    SweepIs(ApplyAll(w.book, obs, v), KeysOf(obs), r.order);
    RepeatSeesMore(w, r, v, w');
  }

  /** A whole cycle repeated on identical answers makes no registrar call if and only if every
      container it finds resolved is active there already; and then it changes nothing at all. */
  lemma RepeatedCycleQuietIff(w: Watch, r: Round, v: Verdicts, w': Watch, again: seq<Key>, w'': Watch)
    requires Cycles(w, r, v, w') && r.ok && Cycles(w', r.(order := again), v, w'')
    ensures |w''.book.calls| == |w'.book.calls| <==> InPlace(w'.book, ObsOf(w'.cache, r.answers, r.batches))
    ensures |w''.book.calls| == |w'.book.calls| ==> w'' == w'
  {
    var obs := ObsOf(w'.cache, r.answers, r.batches);
    var bk := ApplyAll(w'.book, obs, v);
    QuietIff(w'.book, obs, v);
    SweepIs(bk, KeysOf(obs), again);
    CacheSettles(w.cache, r.answers, r.batches);
    if InPlace(w'.book, obs) {
      forall k | k in bk.active || k in bk.failed
        ensures k in KeysOf(obs)
      {
        LeftIsSeenAgain(w, r, v, w', k);
      }
      NothingAgain(bk, KeysOf(obs), again);
    }
  }

  /** When the first cycle left no failing key and none of the definitions it ended up with had come
      too late, that is: if and only if the answers give every key one address. */
  lemma SilentIffConsistent(w: Watch, r: Round, v: Verdicts, w': Watch, again: seq<Key>, w'': Watch)
    requires Apart(w.book) && Cycles(w, r, v, w') && r.ok && Cycles(w', r.(order := again), v, w'')
    requires Arrived(w.cache, r.answers, r.batches, w'.cache) && w'.book.failed == map[]
    ensures |w''.book.calls| == |w'.book.calls| <==> Consistent(ObsOf(w.cache, r.answers, r.batches))
  {
    var obs := ObsOf(w.cache, r.answers, r.batches);
    SameAnswersSameObs(w.cache, w'.cache, r.answers, r.batches);
    RepeatedCycleQuietIff(w, r, v, w', again, w'');
    RepeatQuietIff(w.book, obs, r.order, v, v);
    QuietIff(w'.book, obs, v);
  }

  /** From the second repetition on nothing comes too late, so the condition is that alone. */
  lemma SecondRepeatSilentIff(w0: Watch, r0: Round, w: Watch, r: Round, w': Watch, v: Verdicts,
                              again: seq<Key>, w'': Watch)
    requires Apart(w.book) && Cycles(w0, r0, v, w) && r0.answers == r.answers && r0.batches == r.batches
    requires Cycles(w, r, v, w') && r.ok && Cycles(w', r.(order := again), v, w'') && w'.book.failed == map[]
    ensures |w''.book.calls| == |w'.book.calls| <==> Consistent(ObsOf(w.cache, r.answers, r.batches))
  {
    CacheSettles(w0.cache, r.answers, r.batches);
    SilentIffConsistent(w, r, v, w', again, w'');
  }
}
