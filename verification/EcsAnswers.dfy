/**
 The ECS watcher in terms of what the APIs answered: which container of which described task a
 registration comes from, that it is registered at the address that container resolved to, with the
 labels of that container, and where a cycle leaves each key.
 */
module EcsAnswers {
  import opened Options
  import opened Ledger
  import opened EcsWatcher
  import opened EcsConvergence
  import L = Labels

  // ------------------------------------------------------------------ what resolved

  /** The container is labelled for this key, in this task. */
  ghost predicate Carries(task: Task, cd: ContainerDef, k: Key) {
    && cd.name.Some? && L.Parse(cd.labels).Ok?
    && k == (if task.arn.Some? then task.arn.value else "<nil>") + "#" + cd.name.value
  }

  /** Container j of the task's definition is labelled for k and was resolved. */
  ghost predicate TaskResolves(task: Task, td: TaskDef, b: nat, i: nat, a: Answers, j: nat, k: Key) {
    j < |td.containers| && Carries(task, td.containers[j], k) && a.resolve(b, i, j).Some?
  }

  /** The definition the task was looked at with: the cached one, or the one just answered. */
  ghost predicate DefinedBy(c: Cache, task: Task, answer: Option<TaskDef>, td: TaskDef) {
    && task.status == Some("RUNNING") && task.defArn.Some?
    && if task.defArn.value in c then td == c[task.defArn.value] else answer == Some(td)
  }

  /** Container j of task i of this batch; c is the cache at the start of the batch. */
  ghost predicate BatchResolves(c: Cache, tasks: seq<Task>, b: nat, a: Answers, i: nat, j: nat, td: TaskDef, k: Key) {
    && i < |tasks| && DefinedBy(CacheAfterBatch(c, tasks, b, a, i), tasks[i], a.lookup(b, i), td)
    && TaskResolves(tasks[i], td, b, i, a, j, k)
  }

  /** No container of task i of this batch resolved for k. */
  ghost predicate TaskUnresolved(c: Cache, tasks: seq<Task>, b: nat, a: Answers, i: nat, k: Key) {
    forall j, td :: !BatchResolves(c, tasks, b, a, i, j, td, k)
  }

  /** Container j of task i of batch b of the cycle. */
  ghost predicate Resolves(c: Cache, a: Answers, b: nat, i: nat, j: nat, td: TaskDef, k: Key)
    requires Described(a, b + 1)
  {
    BatchResolves(CacheAfter(c, a, b), a.batch(b).value, b, a, i, j, td, k)
  }

  /** No container of k resolved in batch b. */
  ghost predicate Unresolved(c: Cache, a: Answers, b: nat, k: Key)
    requires Described(a, b + 1)
  {
    TasksUnresolved(CacheAfter(c, a, b), a.batch(b).value, b, a, 0, |a.batch(b).value|, k)
  }

  /** Nor in any of the batches m to n - 1. */
  ghost predicate BatchesUnresolved(c: Cache, a: Answers, m: nat, n: nat, k: Key)
    requires Described(a, n)
  {
    m >= n || (BatchesUnresolved(c, a, m, n - 1, k) && Unresolved(c, a, n - 1, k))
  }

  /** What is to be registered for a container that resolved: the resolved host and port, and for the
      rest what its labels say. */
  predicate Registrable(what: Backend, cd: ContainerDef, addr: Addr) {
    && what.host == addr.host && what.def.port == addr.port
    && L.Parse(cd.labels).Ok?
    && var def := L.Parse(cd.labels).def;
       what.def.service == def.service && what.def.scheme == def.scheme
       && what.def.network == def.network && what.def.caps == def.caps
  }

  // ------------------------------------------------------------------ the last offer is the last that resolved

  lemma {:induction false} LastOfferMore(xs: seq<Obs>, ys: seq<Obs>, k: Key)
    ensures LastOffer(xs + ys, k) == if LastOffer(ys, k).Some? then LastOffer(ys, k) else LastOffer(xs, k)
  {
    if ys == [] {
      assert xs + ys == xs;
    } else {
      var last := |ys| - 1;
      LastOfferMore(xs, ys[..last], k);
      assert (xs + ys)[..|xs + ys| - 1] == xs + ys[..last];
    }
  }

  /** What the observation of one container offers for k. */
  lemma ContainerOffer(task: Task, td: TaskDef, b: nat, i: nat, a: Answers, j: nat, k: Key)
    requires j < |td.containers|
    ensures
      var o := ContainerObs(task, td.containers[j], a.resolve(b, i, j));
      var offer := LastOffer(if o.Some? then [o.value] else [], k);
      if TaskResolves(task, td, b, i, a, j, k)
      then offer.Some? && Registrable(offer.value, td.containers[j], a.resolve(b, i, j).value)
      else offer.None?
  {
    var o := ContainerObs(task, td.containers[j], a.resolve(b, i, j));
    if o.Some? {
      OneOffer(o.value, k);
    }
  }

  lemma OneOffer(o: Obs, k: Key)
    ensures LastOffer([o], k) == if o.key == k && o.offer.Some? then o.offer else None
  {
    assert [o][..0] == [];
  }

  lemma {:induction false} TaskNone(task: Task, td: TaskDef, b: nat, i: nat, a: Answers, n: nat, k: Key)
    requires n <= |td.containers| && forall j :: 0 <= j < n ==> !TaskResolves(task, td, b, i, a, j, k)
    ensures LastOffer(TaskObs(task, td, b, i, a, n), k).None?
  {
    if n > 0 {
      TaskNone(task, td, b, i, a, n - 1, k);
      TaskStep(task, td, b, i, a, n, k);
    }
  }

  lemma TaskStep(task: Task, td: TaskDef, b: nat, i: nat, a: Answers, n: nat, k: Key)
    requires 0 < n <= |td.containers|
    ensures
      var offer := LastOffer(TaskObs(task, td, b, i, a, n), k);
      if TaskResolves(task, td, b, i, a, n - 1, k)
      then offer.Some? && Registrable(offer.value, td.containers[n - 1], a.resolve(b, i, n - 1).value)
      else offer == LastOffer(TaskObs(task, td, b, i, a, n - 1), k)
  {
    var o := ContainerObs(task, td.containers[n - 1], a.resolve(b, i, n - 1));
    LastOfferMore(TaskObs(task, td, b, i, a, n - 1), if o.Some? then [o.value] else [], k);
    ContainerOffer(task, td, b, i, a, n - 1, k);
  }

  lemma {:induction false} TaskLast(task: Task, td: TaskDef, b: nat, i: nat, a: Answers, n: nat, k: Key, j: nat)
    requires j < n <= |td.containers| && TaskResolves(task, td, b, i, a, j, k)
    requires forall h :: j < h < n ==> !TaskResolves(task, td, b, i, a, h, k)
    ensures
      var offer := LastOffer(TaskObs(task, td, b, i, a, n), k);
      offer.Some? && Registrable(offer.value, td.containers[j], a.resolve(b, i, j).value)
    decreases n
  {
    TaskStep(task, td, b, i, a, n, k);
    if j < n - 1 {
      TaskLast(task, td, b, i, a, n - 1, k, j);
    }
  }

  /** The observations of a task are those of its definition, or none. */
  lemma ObsOfDefined(c: Cache, task: Task, b: nat, i: nat, a: Answers, td: TaskDef)
    requires DefinedBy(c, task, a.lookup(b, i), td)
    ensures ObsOfTask(c, task, b, i, a) == TaskObs(task, td, b, i, a, |td.containers|)
  {
  }

  lemma ObsOfUndefined(c: Cache, task: Task, b: nat, i: nat, a: Answers)
    requires forall td :: !DefinedBy(c, task, a.lookup(b, i), td)
    ensures ObsOfTask(c, task, b, i, a) == []
  {
    if Eligible(task) {
      if task.defArn.value in c {
        assert DefinedBy(c, task, a.lookup(b, i), c[task.defArn.value]);
      } else if a.lookup(b, i).Some? {
        assert DefinedBy(c, task, a.lookup(b, i), a.lookup(b, i).value);
      }
    }
  }

  /** A task none of whose containers resolved for k offers nothing for it. */
  lemma QuietTask(c: Cache, tasks: seq<Task>, b: nat, a: Answers, i: nat, k: Key)
    requires i < |tasks| && TaskUnresolved(c, tasks, b, a, i, k)
    ensures LastOffer(ObsOfTask(CacheAfterBatch(c, tasks, b, a, i), tasks[i], b, i, a), k).None?
  {
    var at := CacheAfterBatch(c, tasks, b, a, i);
    if td :| DefinedBy(at, tasks[i], a.lookup(b, i), td) {
      ObsOfDefined(at, tasks[i], b, i, a, td);
      forall j | 0 <= j < |td.containers|
        ensures !TaskResolves(tasks[i], td, b, i, a, j, k)
      {
        assert !BatchResolves(c, tasks, b, a, i, j, td, k);
      }
      TaskNone(tasks[i], td, b, i, a, |td.containers|, k);
    } else {
      ObsOfUndefined(at, tasks[i], b, i, a);
    }
  }

  lemma BatchOfferMore(c: Cache, tasks: seq<Task>, b: nat, a: Answers, n: nat, k: Key)
    requires 0 < n <= |tasks|
    ensures
      var more := LastOffer(ObsOfTask(CacheAfterBatch(c, tasks, b, a, n - 1), tasks[n - 1], b, n - 1, a), k);
      LastOffer(ObsOfBatch(c, tasks, b, a, n), k) ==
        if more.Some? then more else LastOffer(ObsOfBatch(c, tasks, b, a, n - 1), k)
  {
    LastOfferMore(ObsOfBatch(c, tasks, b, a, n - 1),
                  ObsOfTask(CacheAfterBatch(c, tasks, b, a, n - 1), tasks[n - 1], b, n - 1, a), k);
  }

  /** No container of k resolved in tasks m to n - 1 of this batch. */
  ghost predicate TasksUnresolved(c: Cache, tasks: seq<Task>, b: nat, a: Answers, m: nat, n: nat, k: Key) {
    m >= n || (TasksUnresolved(c, tasks, b, a, m, n - 1, k) && TaskUnresolved(c, tasks, b, a, n - 1, k))
  }

  /** Tasks of which no container of k resolved do not matter. */
  lemma {:induction false} QuietTasks(c: Cache, tasks: seq<Task>, b: nat, a: Answers, m: nat, n: nat, k: Key)
    requires m <= n <= |tasks| && TasksUnresolved(c, tasks, b, a, m, n, k)
    ensures LastOffer(ObsOfBatch(c, tasks, b, a, n), k) == LastOffer(ObsOfBatch(c, tasks, b, a, m), k)
    decreases n
  {
    if m < n {
      QuietTasks(c, tasks, b, a, m, n - 1, k);
      QuietTask(c, tasks, b, a, n - 1, k);
      BatchOfferMore(c, tasks, b, a, n, k);
    }
  }

  /** No container of k resolved in this batch after container j of task i. */
  ghost predicate BatchLastOf(c: Cache, tasks: seq<Task>, b: nat, a: Answers, k: Key, i: nat, j: nat) {
    && TasksUnresolved(c, tasks, b, a, i + 1, |tasks|, k)
    && (forall h, td :: j < h ==> !BatchResolves(c, tasks, b, a, i, h, td, k))
  }

  lemma BatchLast(c: Cache, tasks: seq<Task>, b: nat, a: Answers, k: Key, i: nat, j: nat, td: TaskDef)
    requires BatchResolves(c, tasks, b, a, i, j, td, k) && BatchLastOf(c, tasks, b, a, k, i, j)
    ensures
      var offer := LastOffer(ObsOfBatch(c, tasks, b, a, |tasks|), k);
      offer.Some? && Registrable(offer.value, td.containers[j], a.resolve(b, i, j).value)
  {
    QuietTasks(c, tasks, b, a, i + 1, |tasks|, k);
    BatchOfferMore(c, tasks, b, a, i + 1, k);
    TaskOffers(c, tasks, b, a, k, i, j, td);
  }

  lemma TaskOffers(c: Cache, tasks: seq<Task>, b: nat, a: Answers, k: Key, i: nat, j: nat, td: TaskDef)
    requires BatchResolves(c, tasks, b, a, i, j, td, k)
    requires forall h, td' :: j < h ==> !BatchResolves(c, tasks, b, a, i, h, td', k)
    ensures
      var offer := LastOffer(ObsOfTask(CacheAfterBatch(c, tasks, b, a, i), tasks[i], b, i, a), k);
      offer.Some? && Registrable(offer.value, td.containers[j], a.resolve(b, i, j).value)
  {
    ObsOfDefined(CacheAfterBatch(c, tasks, b, a, i), tasks[i], b, i, a, td);
    forall h | j < h < |td.containers|
      ensures !TaskResolves(tasks[i], td, b, i, a, h, k)
    {
      assert !BatchResolves(c, tasks, b, a, i, h, td, k);
    }
    TaskLast(tasks[i], td, b, i, a, |td.containers|, k, j);
  }

  /** No container of k resolved in this cycle after container j of task i of batch b. */
  ghost predicate LastOf(c: Cache, a: Answers, n: nat, k: Key, b: nat, i: nat, j: nat)
    requires Described(a, n) && b < n
  {
    && BatchesUnresolved(c, a, b + 1, n, k)
    && BatchLastOf(CacheAfter(c, a, b), a.batch(b).value, b, a, k, i, j)
  }

  lemma CycleOfferMore(c: Cache, a: Answers, n: nat, k: Key)
    requires n > 0 && Described(a, n)
    ensures Described(a, n - 1)
    ensures
      var tasks := a.batch(n - 1).value;
      var more := LastOffer(ObsOfBatch(CacheAfter(c, a, n - 1), tasks, n - 1, a, |tasks|), k);
      LastOffer(ObsOf(c, a, n), k) == if more.Some? then more else LastOffer(ObsOf(c, a, n - 1), k)
  {
    var tasks := a.batch(n - 1).value;
    LastOfferMore(ObsOf(c, a, n - 1), ObsOfBatch(CacheAfter(c, a, n - 1), tasks, n - 1, a, |tasks|), k);
  }

  lemma QuietBatch(c: Cache, a: Answers, n: nat, k: Key)
    requires n > 0 && Described(a, n) && Unresolved(c, a, n - 1, k)
    ensures Described(a, n - 1) && LastOffer(ObsOf(c, a, n), k) == LastOffer(ObsOf(c, a, n - 1), k)
  {
    var tasks := a.batch(n - 1).value;
    QuietTasks(CacheAfter(c, a, n - 1), tasks, n - 1, a, 0, |tasks|, k);
    CycleOfferMore(c, a, n, k);
  }

  /** Batches in which no container of k resolved do not matter. */
  lemma {:induction false} QuietBatches(c: Cache, a: Answers, m: nat, n: nat, k: Key)
    requires m <= n && Described(a, n) && BatchesUnresolved(c, a, m, n, k)
    ensures Described(a, m) && LastOffer(ObsOf(c, a, n), k) == LastOffer(ObsOf(c, a, m), k)
    decreases n
  {
    if m < n {
      QuietBatch(c, a, n, k);
      QuietBatches(c, a, m, n - 1, k);
    }
  }

  /** The last offer for k is that of the container of k that resolved last: at the address it
      resolved to, with its labels. */
  lemma CycleLast(c: Cache, a: Answers, n: nat, k: Key, b: nat, i: nat, j: nat, td: TaskDef)
    requires Described(a, n) && b < n && Described(a, b + 1) && Resolves(c, a, b, i, j, td, k) && LastOf(c, a, n, k, b, i, j)
    ensures
      var offer := LastOffer(ObsOf(c, a, n), k);
      offer.Some? && Registrable(offer.value, td.containers[j], a.resolve(b, i, j).value)
  {
    QuietBatches(c, a, b + 1, n, k);
    CycleOfferMore(c, a, b + 1, k);
    BatchLast(CacheAfter(c, a, b), a.batch(b).value, b, a, k, i, j, td);
  }

  // ------------------------------------------------------------------ there is a last one, or none

  lemma {:induction false} TaskHasLast(c: Cache, tasks: seq<Task>, b: nat, a: Answers, i: nat, k: Key, j: nat, td: TaskDef)
    returns (last: nat)
    requires BatchResolves(c, tasks, b, a, i, j, td, k)
    ensures BatchResolves(c, tasks, b, a, i, last, td, k)
    ensures forall h, td' :: last < h ==> !BatchResolves(c, tasks, b, a, i, h, td', k)
    decreases |td.containers| - j
  {
    if h, td' :| j < h && BatchResolves(c, tasks, b, a, i, h, td', k) {
      last := TaskHasLast(c, tasks, b, a, i, k, h, td);
    } else {
      last := j;
    }
  }

  lemma {:induction false} BatchHasLast(c: Cache, tasks: seq<Task>, b: nat, a: Answers, n: nat, k: Key)
    returns (i: nat, j: nat, td: TaskDef)
    requires n <= |tasks| && !TasksUnresolved(c, tasks, b, a, 0, n, k) && TasksUnresolved(c, tasks, b, a, n, |tasks|, k)
    ensures BatchResolves(c, tasks, b, a, i, j, td, k) && BatchLastOf(c, tasks, b, a, k, i, j)
  {
    if TaskUnresolved(c, tasks, b, a, n - 1, k) {
      OneMoreTask(c, tasks, b, a, n - 1, |tasks|, k);
      i, j, td := BatchHasLast(c, tasks, b, a, n - 1, k);
    } else {
      i := n - 1;
      var j0: nat;
      j0, td :| BatchResolves(c, tasks, b, a, i, j0, td, k);
      j := TaskHasLast(c, tasks, b, a, i, k, j0, td);
    }
  }

  lemma {:induction false} OneMoreTask(c: Cache, tasks: seq<Task>, b: nat, a: Answers, m: nat, n: nat, k: Key)
    requires m < n && TaskUnresolved(c, tasks, b, a, m, k) && TasksUnresolved(c, tasks, b, a, m + 1, n, k)
    ensures TasksUnresolved(c, tasks, b, a, m, n, k)
  {
    if m + 1 < n {
      OneMoreTask(c, tasks, b, a, m, n - 1, k);
    } else {
      assert TasksUnresolved(c, tasks, b, a, m, m, k);
    }
  }

  lemma {:induction false} OneMoreBatch(c: Cache, a: Answers, m: nat, n: nat, k: Key)
    requires m < n && Described(a, n) && Described(a, m + 1)
    requires Unresolved(c, a, m, k) && BatchesUnresolved(c, a, m + 1, n, k)
    ensures BatchesUnresolved(c, a, m, n, k)
  {
    if m + 1 < n {
      OneMoreBatch(c, a, m, n - 1, k);
    } else {
      assert BatchesUnresolved(c, a, m, m, k);
    }
  }

  /** Of the containers of k that resolved in a cycle, if there are any, one is the last. */
  lemma {:induction false} CycleHasLast(c: Cache, a: Answers, m: nat, n: nat, k: Key)
    returns (b: nat, i: nat, j: nat, td: TaskDef)
    requires m <= n && Described(a, n) && Described(a, m)
    requires !BatchesUnresolved(c, a, 0, m, k) && BatchesUnresolved(c, a, m, n, k)
    ensures b < n && Resolves(c, a, b, i, j, td, k) && LastOf(c, a, n, k, b, i, j)
  {
    if Unresolved(c, a, m - 1, k) {
      OneMoreBatch(c, a, m - 1, n, k);
      b, i, j, td := CycleHasLast(c, a, m - 1, n, k);
    } else {
      b := m - 1;
      var tasks := a.batch(b).value;
      assert TasksUnresolved(CacheAfter(c, a, b), tasks, b, a, |tasks|, |tasks|, k);
      i, j, td := BatchHasLast(CacheAfter(c, a, b), tasks, b, a, |tasks|, k);
    }
  }

  // ------------------------------------------------------------------ where a cycle leaves a key

  /** After a successful cycle, by its answers: if container j of task i of batch b was the last of k
      to resolve, then k is active at the address that container resolved to, and not failing; or,
      exactly if the registrar refused the registration of that container, failing and not active. */
  lemma CycleSettlesAtResolved(w: Watch, r: Round, v: Verdicts, w': Watch, k: Key, b: nat, i: nat, j: nat, td: TaskDef)
    returns (what: Backend)
    requires Sound(w, v) && Cycles(w, r, v, w') && r.ok
    requires b < r.batches && Resolves(w.cache, r.answers, b, i, j, td, k)
    requires LastOf(w.cache, r.answers, r.batches, k, b, i, j)
    ensures Registrable(what, td.containers[j], r.answers.resolve(b, i, j).value)
    ensures Settles(w'.book, |w.book.calls|, k, r.answers.resolve(b, i, j).value, what, v)
    ensures k in w'.book.active ==> k !in w'.book.failed
  {
    CycleLast(w.cache, r.answers, r.batches, k, b, i, j, td);
    var obs := ObsOf(w.cache, r.answers, r.batches);
    what := LastOffer(obs, k).value;
    CycleConverges(w.book, obs, r.order, v, k);
  }

  /** A seen key of which nothing resolved is exactly as it was, and an unseen one is gone. */
  lemma CycleLeavesUnresolved(w: Watch, r: Round, v: Verdicts, w': Watch, k: Key)
    requires Sound(w, v) && Cycles(w, r, v, w') && r.ok
    requires BatchesUnresolved(w.cache, r.answers, 0, r.batches, k)
    ensures
      if k in KeysOf(ObsOf(w.cache, r.answers, r.batches)) then SameAt(w.book, w'.book, k)
      else k !in w'.book.active && k !in w'.book.failed
  {
    QuietBatches(w.cache, r.answers, 0, r.batches, k);
    CycleConverges(w.book, ObsOf(w.cache, r.answers, r.batches), r.order, v, k);
  }

  // ------------------------------------------------------------------ what is registered

  /** Where an offer comes from. */
  lemma {:induction false} TaskSource(task: Task, td: TaskDef, b: nat, i: nat, a: Answers, n: nat, e: nat) returns (j: nat)
    requires n <= |td.containers| && e < |TaskObs(task, td, b, i, a, n)| && TaskObs(task, td, b, i, a, n)[e].offer.Some?
    ensures
      var o := TaskObs(task, td, b, i, a, n)[e];
      TaskResolves(task, td, b, i, a, j, o.key) && Registrable(o.offer.value, td.containers[j], a.resolve(b, i, j).value)
  {
    var before := TaskObs(task, td, b, i, a, n - 1);
    if e < |before| {
      j := TaskSource(task, td, b, i, a, n - 1, e);
    } else {
      j := n - 1;
      ContainerSource(task, td.containers[j], a.resolve(b, i, j));
    }
  }

  lemma ContainerSource(task: Task, cd: ContainerDef, resolved: Option<Addr>)
    ensures
      var o := ContainerObs(task, cd, resolved);
      o.Some? && o.value.offer.Some? ==>
        resolved.Some? && Carries(task, cd, o.value.key) && Registrable(o.value.offer.value, cd, resolved.value)
  {
  }

  lemma {:induction false} BatchSource(c: Cache, tasks: seq<Task>, b: nat, a: Answers, n: nat, e: nat)
    returns (i: nat, j: nat, td: TaskDef)
    requires n <= |tasks| && e < |ObsOfBatch(c, tasks, b, a, n)| && ObsOfBatch(c, tasks, b, a, n)[e].offer.Some?
    ensures
      var o := ObsOfBatch(c, tasks, b, a, n)[e];
      BatchResolves(c, tasks, b, a, i, j, td, o.key) && Registrable(o.offer.value, td.containers[j], a.resolve(b, i, j).value)
  {
    var before := ObsOfBatch(c, tasks, b, a, n - 1);
    if e < |before| {
      i, j, td := BatchSource(c, tasks, b, a, n - 1, e);
    } else {
      i := n - 1;
      var at := CacheAfterBatch(c, tasks, b, a, i);
      td := Lookup(at, tasks[i].defArn.value, a.lookup(b, i)).value;
      ObsOfDefined(at, tasks[i], b, i, a, td);
      j := TaskSource(tasks[i], td, b, i, a, |td.containers|, e - |before|);
    }
  }

  lemma LastBatchSource(c: Cache, a: Answers, n: nat, e: nat) returns (i: nat, j: nat, td: TaskDef)
    requires n > 0 && Described(a, n) && Described(a, n - 1)
    requires |ObsOf(c, a, n - 1)| <= e < |ObsOf(c, a, n)| && ObsOf(c, a, n)[e].offer.Some?
    ensures
      var o := ObsOf(c, a, n)[e];
      && BatchResolves(CacheAfter(c, a, n - 1), a.batch(n - 1).value, n - 1, a, i, j, td, o.key)
      && Registrable(o.offer.value, td.containers[j], a.resolve(n - 1, i, j).value)
  {
    var tasks, f := a.batch(n - 1).value, e - |ObsOf(c, a, n - 1)|;
    LastBatchObs(c, a, n, e);
    i, j, td := BatchSource(CacheAfter(c, a, n - 1), tasks, n - 1, a, |tasks|, f);
  }

  lemma LastBatchObs(c: Cache, a: Answers, n: nat, e: nat)
    requires n > 0 && Described(a, n) && Described(a, n - 1) && |ObsOf(c, a, n - 1)| <= e < |ObsOf(c, a, n)|
    ensures
      var tasks := a.batch(n - 1).value;
      var (obs, f) := (ObsOfBatch(CacheAfter(c, a, n - 1), tasks, n - 1, a, |tasks|), e - |ObsOf(c, a, n - 1)|);
      f < |obs| && ObsOf(c, a, n)[e] == obs[f]
  {
  }

  /** `what` is to be registered under k for container j of task i of batch b. */
  ghost predicate Source(c: Cache, a: Answers, b: nat, i: nat, j: nat, td: TaskDef, k: Key, what: Backend)
    requires Described(a, b + 1)
  {
    Resolves(c, a, b, i, j, td, k) && Registrable(what, td.containers[j], a.resolve(b, i, j).value)
  }

  /** `what` is to be registered under k for a container that resolved in batch b. */
  ghost predicate ResolvedInBatch(c: Cache, a: Answers, b: nat, k: Key, what: Backend)
    requires Described(a, b + 1)
  {
    exists i: nat, j: nat, td :: Source(c, a, b, i, j, td, k, what)
  }

  /** Likewise in one of the first n batches. */
  ghost predicate ResolvedIn(c: Cache, a: Answers, n: nat, k: Key, what: Backend)
    requires Described(a, n)
  {
    n > 0 && (ResolvedIn(c, a, n - 1, k, what) || ResolvedInBatch(c, a, n - 1, k, what))
  }

  lemma LastBatchResolves(c: Cache, a: Answers, n: nat, e: nat)
    requires n > 0 && Described(a, n) && Described(a, n - 1)
    requires |ObsOf(c, a, n - 1)| <= e < |ObsOf(c, a, n)| && ObsOf(c, a, n)[e].offer.Some?
    ensures ResolvedInBatch(c, a, n - 1, ObsOf(c, a, n)[e].key, ObsOf(c, a, n)[e].offer.value)
  {
    var i, j, td := LastBatchSource(c, a, n, e);
    assert Source(c, a, n - 1, i, j, td, ObsOf(c, a, n)[e].key, ObsOf(c, a, n)[e].offer.value);
  }

  /** Whatever a cycle offers was resolved in it. */
  lemma {:induction false} CycleSource(c: Cache, a: Answers, n: nat, e: nat)
    requires Described(a, n) && e < |ObsOf(c, a, n)| && ObsOf(c, a, n)[e].offer.Some?
    ensures ResolvedIn(c, a, n, ObsOf(c, a, n)[e].key, ObsOf(c, a, n)[e].offer.value)
  {
    if e < |ObsOf(c, a, n - 1)| {
      assert ObsOf(c, a, n)[e] == ObsOf(c, a, n - 1)[e];
      CycleSource(c, a, n - 1, e);
    } else {
      LastBatchResolves(c, a, n, e);
    }
  }

  lemma BatchSourceOf(c: Cache, a: Answers, b: nat, k: Key, what: Backend) returns (i: nat, j: nat, td: TaskDef)
    requires Described(a, b + 1) && ResolvedInBatch(c, a, b, k, what)
    ensures Source(c, a, b, i, j, td, k, what)
  {
    i, j, td :| Source(c, a, b, i, j, td, k, what);
  }

  lemma {:induction false} SourceOf(c: Cache, a: Answers, n: nat, k: Key, what: Backend) returns (b: nat, i: nat, j: nat, td: TaskDef)
    requires Described(a, n) && ResolvedIn(c, a, n, k, what)
    ensures b < n && Source(c, a, b, i, j, td, k, what)
  {
    if ResolvedIn(c, a, n - 1, k, what) {
      b, i, j, td := SourceOf(c, a, n - 1, k, what);
    } else {
      b := n - 1;
      i, j, td := BatchSourceOf(c, a, b, k, what);
    }
  }

  /** Every registration made in a pass is an offer of it. */
  lemma {:induction false} CallsAreOffers(bk: EcsBook, obs: seq<Obs>, v: Verdicts, n: nat) returns (e: nat)
    requires |bk.calls| <= n < |ApplyAll(bk, obs, v).calls| && ApplyAll(bk, obs, v).calls[n].Registers?
    ensures
      var op := ApplyAll(bk, obs, v).calls[n];
      e < |obs| && obs[e] == Obs(op.key, Some(op.what))
  {
    var last := |obs| - 1;
    var mid := ApplyAll(bk, obs[..last], v);
    if n < |mid.calls| {
      if obs[last].offer.Some? {
        var b := obs[last].offer.value;
        OfferCalls(mid, obs[last].key, AddrOf(b), b, v, (msg: string) => msg);
      }
      e := CallsAreOffers(bk, obs[..last], v, n);
    } else {
      e := last;
    }
  }

  /** What is held in any history was registered in one of its cycles for a container of a RUNNING
      task that resolved in that cycle: at the address it resolved to, with its own labels. */
  lemma {:induction false} HeldIsResolved(ws: seq<Watch>, rounds: seq<Round>, v: Verdicts, i: nat, k: Key)
    returns (q: nat, b: nat, t: nat, j: nat, td: TaskDef)
    requires History(ws, rounds, v) && i < |ws| && k in ws[i].book.held
    ensures q < i && Cycles(ws[q], rounds[q], v, ws[q + 1])
    ensures b < rounds[q].batches && Resolves(ws[q].cache, rounds[q].answers, b, t, j, td, k)
    ensures Registrable(ws[i].book.held[k], td.containers[j], rounds[q].answers.resolve(b, t, j).value)
  {
    EveryHistorySound(ws, rounds, v, i);
    var n := HeldWasCalled(ws[i].book.calls, v, k);
    q, b, t, j, td := CallIsResolved(ws, rounds, v, i, n);
  }

  lemma {:induction false} CallIsResolved(ws: seq<Watch>, rounds: seq<Round>, v: Verdicts, i: nat, n: nat)
    returns (q: nat, b: nat, t: nat, j: nat, td: TaskDef)
    requires History(ws, rounds, v) && i < |ws| && n < |ws[i].book.calls| && ws[i].book.calls[n].Registers?
    ensures q < i && Cycles(ws[q], rounds[q], v, ws[q + 1])
    ensures b < rounds[q].batches && Resolves(ws[q].cache, rounds[q].answers, b, t, j, td, ws[i].book.calls[n].key)
    ensures Registrable(ws[i].book.calls[n].what, td.containers[j], rounds[q].answers.resolve(b, t, j).value)
  {
    q := i - 1;
    assert Cycles(ws[q], rounds[q], v, ws[i]);
    CallOfCycle(ws[q], rounds[q], v, ws[i], n);
    if n < |ws[q].book.calls| {
      q, b, t, j, td := CallIsResolved(ws, rounds, v, q, n);
    } else {
      var obs := ObsOf(ws[q].cache, rounds[q].answers, rounds[q].batches);
      var e := CallsAreOffers(ws[q].book, obs, v, n);
      CycleSource(ws[q].cache, rounds[q].answers, rounds[q].batches, e);
      b, t, j, td := SourceOf(ws[q].cache, rounds[q].answers, rounds[q].batches, obs[e].key, obs[e].offer.value);
    }
  }

  /** A registration among the calls after a cycle was there before it, or made in its pass. */
  lemma CallOfCycle(w: Watch, r: Round, v: Verdicts, w': Watch, n: nat)
    requires Cycles(w, r, v, w') && n < |w'.book.calls| && w'.book.calls[n].Registers?
    ensures
      var applied := ApplyAll(w.book, ObsOf(w.cache, r.answers, r.batches), v);
      && w.book.calls <= applied.calls && n < |applied.calls| && w'.book.calls[n] == applied.calls[n]
  {
    var obs := ObsOf(w.cache, r.answers, r.batches);
    var applied := ApplyAll(w.book, obs, v);
    PassCallsGrow(w.book, obs, v);
    if r.ok {
      SweepOnlyDeregisters(applied, KeysOf(obs), r.order, n);
    }
  }

  lemma {:induction false} PassCallsGrow(bk: EcsBook, obs: seq<Obs>, v: Verdicts)
    ensures bk.calls <= ApplyAll(bk, obs, v).calls
  {
    if obs != [] {
      var last := |obs| - 1;
      PassCallsGrow(bk, obs[..last], v);
      if obs[last].offer.Some? {
        var b := obs[last].offer.value;
        OfferCalls(ApplyAll(bk, obs[..last], v), obs[last].key, AddrOf(b), b, v, (msg: string) => msg);
      }
    }
  }

  lemma {:induction false} SweepOnlyDeregisters(bk: EcsBook, seen: set<Key>, order: seq<Key>, n: nat)
    requires n < |Sweep(bk, seen, order).calls|
    ensures bk.calls <= Sweep(bk, seen, order).calls
    ensures Sweep(bk, seen, order).calls[n].Registers? ==> n < |bk.calls|
  {
    if order != [] {
      var last := |order| - 1;
      if n < |Sweep(bk, seen, order[..last]).calls| {
        SweepOnlyDeregisters(bk, seen, order[..last], n);
      } else {
        DropAllIs(bk, order[..last]);
        if n > 0 && order[..last] != [] {
          SweepOnlyDeregisters(bk, seen, order[..last], 0);
        }
      }
    }
  }
}
