/**
 The ECS watcher (ecs/watcher.go, ecs/cache.go): poll, resolve, diff, sweep.

 The answers of the AWS APIs in one cycle are an oracle: pages of task ARNs, described tasks per
 batch, task definitions per lookup, resolved addresses per container. Any of them may be an error.
 */
module EcsWatcher {
  import opened Options
  import opened Paging
  import opened Ledger
  import opened Registrars
  import L = Labels

  datatype Addr = Addr(host: string, port: nat)

  datatype ContainerDef = ContainerDef(name: Option<string>, labels: map<string, string>)

  datatype TaskDef = TaskDef(containers: seq<ContainerDef>)

  datatype Task = Task(arn: Option<string>, status: Option<string>, defArn: Option<string>)

  /** What is registered: the parsed definition with the backend's port, and the host. */
  datatype Backend = Backend(def: L.ServiceDef, host: string)

  function AddrOf(b: Backend): Addr {
    Addr(b.host, b.def.port)
  }

  datatype Answers = Answers(
    account: bool,
    tasks: Listing<string>,
    batch: nat -> Option<seq<Task>>,
    lookup: (nat, nat) -> Option<TaskDef>,     // by batch and position in it
    resolve: (nat, nat, nat) -> Option<Addr>)  // and by container

  // ------------------------------------------------------------------ lists of task ARNs

  method ListAllTaskArns(l: Listing<string>) returns (all: Option<seq<string>>)
    ensures all == AllFrom(l, 0)
  {
    var got: seq<string> := [];
    var p := 0;
    assert forall rest: seq<string> :: got + rest == rest;
    while true
      invariant AllFrom(l, 0) ==
        (var rest := AllFrom(l, p); if rest.None? then None else Some(got + rest.value))
      decreases l.pages - p
    {
      if !Answered(l, p) {
        return None;
      }
      var page := l.page(p).value;
      var more := got + page.items;
      if !More(page) {
        return Some(more);
      }
      assert forall rest: seq<string> :: got + (page.items + rest) == more + rest;
      got, p := more, p + 1;
    }
  }

  function Chunks(s: seq<string>, size: nat): seq<seq<string>>
    requires size > 0
  {
    if s == [] then []
    else if |s| <= size then [s]
    else [s[..size]] + Chunks(s[size..], size)
  }

  method Chunk(s: seq<string>, size: int) returns (out: seq<seq<string>>)
    ensures out == if size <= 0 then [] else Chunks(s, size)
  {
    out := [];
    if size <= 0 || |s| == 0 {
      return;
    }
    var i := 0;
    while i < |s|
      invariant 0 <= i <= |s|
      invariant out + Chunks(s[i..], size) == Chunks(s, size)
      decreases |s| - i
    {
      var end := if i + size > |s| then |s| else i + size;
      assert s[i..][..end - i] == s[i..end] && s[i..][end - i..] == s[end..];
      assert Chunks(s[i..], size) == [s[i..end]] + Chunks(s[end..], size) by {
        if end == |s| {
          assert s[end..] == [] && s[i..end] == s[i..];
        }
      }
      assert out + ([s[i..end]] + Chunks(s[end..], size)) == out + [s[i..end]] + Chunks(s[end..], size);
      out := out + [s[i..end]];
      i := end;
    }
  }

  function Flatten(chunks: seq<seq<string>>): seq<string> {
    if chunks == [] then [] else chunks[0] + Flatten(chunks[1..])
  }

  /** Chunking loses and reorders nothing; no chunk is empty, and all but the last are full. */
  lemma {:induction false} ChunksLossless(s: seq<string>, size: nat)
    requires size > 0
    ensures Flatten(Chunks(s, size)) == s
    ensures forall i :: 0 <= i < |Chunks(s, size)| ==> 0 < |Chunks(s, size)[i]| <= size
    ensures forall i :: 0 <= i < |Chunks(s, size)| - 1 ==> |Chunks(s, size)[i]| == size
  {
    if |s| > size {
      ChunksLossless(s[size..], size);
      assert s == s[..size] + s[size..];
    } else if s != [] {
      assert [s][1..] == [];
    }
  }

  function RegistrationKey(taskArn: string, container: string): Key {
    taskArn + "#" + container
  }

  /** Keys are unique: the container name is what follows the last '#', if it has none itself. */
  lemma {:induction false} KeyInjective(arn1: string, name1: string, arn2: string, name2: string)
    requires '#' !in name1 && '#' !in name2
    ensures RegistrationKey(arn1, name1) == RegistrationKey(arn2, name2) <==> arn1 == arn2 && name1 == name2
  {
    if RegistrationKey(arn1, name1) == RegistrationKey(arn2, name2) {
      var k := RegistrationKey(arn1, name1);
      assert k[|arn1|] == '#' && k[|arn2|] == '#';
      assert |arn1| == |arn2| by {
        HashLast(arn1, name1, |arn2|);
        HashLast(arn2, name2, |arn1|);
      }
      assert arn1 == k[..|arn1|] && arn2 == k[..|arn2|];
      assert name1 == k[|arn1| + 1..] && name2 == k[|arn2| + 1..];
    }
  }

  lemma HashLast(arn: string, name: string, i: nat)
    requires '#' !in name && i < |RegistrationKey(arn, name)| && RegistrationKey(arn, name)[i] == '#'
    ensures i <= |arn|
  {
    var k := RegistrationKey(arn, name);
    assert forall h :: |arn| < h < |k| ==> k[h] == name[h - |arn| - 1];
  }

  // ------------------------------------------------------------------ what a cycle observes

  /** A labelled container of a running task: its key, and the backend to offer if it resolved. */
  datatype Obs = Obs(key: Key, offer: Option<Backend>)

  function DerefArn(arn: Option<string>): string {
    if arn.Some? then arn.value else "<nil>"
  }

  function ContainerObs(task: Task, cd: ContainerDef, resolved: Option<Addr>): Option<Obs> {
    if cd.name.None? then None
    else
      match L.Parse(cd.labels)
      case Err(_) => None
      case Ok(def) =>
        Some(Obs(RegistrationKey(DerefArn(task.arn), cd.name.value),
                 if resolved.None? then None
                 else Some(Backend(def.(port := resolved.value.port), resolved.value.host))))
  }

  /** The observations of the first n containers of one task. */
  function TaskObs(task: Task, td: TaskDef, b: nat, i: nat, a: Answers, n: nat): seq<Obs>
    requires n <= |td.containers|
  {
    if n == 0 then []
    else
      var o := ContainerObs(task, td.containers[n - 1], a.resolve(b, i, n - 1));
      TaskObs(task, td, b, i, a, n - 1) + (if o.Some? then [o.value] else [])
  }

  type Cache = map<string, TaskDef>

  /** `taskDefCache.get`: a cached definition is never asked for again. */
  function Lookup(cache: Cache, arn: string, answer: Option<TaskDef>): Option<TaskDef> {
    if arn in cache then Some(cache[arn]) else answer
  }

  predicate Eligible(task: Task) {
    task.status == Some("RUNNING") && task.defArn.Some?
  }

  function CacheAfterTask(cache: Cache, task: Task, b: nat, i: nat, a: Answers): Cache {
    if !Eligible(task) then cache
    else
      var td := Lookup(cache, task.defArn.value, a.lookup(b, i));
      if td.None? then cache else cache[task.defArn.value := td.value]
  }

  function ObsOfTask(cache: Cache, task: Task, b: nat, i: nat, a: Answers): seq<Obs> {
    if !Eligible(task) then []
    else
      var td := Lookup(cache, task.defArn.value, a.lookup(b, i));
      if td.None? then [] else TaskObs(task, td.value, b, i, a, |td.value.containers|)
  }

  function CacheAfterBatch(cache: Cache, tasks: seq<Task>, b: nat, a: Answers, n: nat): Cache
    requires n <= |tasks|
  {
    if n == 0 then cache
    else CacheAfterTask(CacheAfterBatch(cache, tasks, b, a, n - 1), tasks[n - 1], b, n - 1, a)
  }

  function ObsOfBatch(cache: Cache, tasks: seq<Task>, b: nat, a: Answers, n: nat): seq<Obs>
    requires n <= |tasks|
  {
    if n == 0 then []
    else ObsOfBatch(cache, tasks, b, a, n - 1)
         + ObsOfTask(CacheAfterBatch(cache, tasks, b, a, n - 1), tasks[n - 1], b, n - 1, a)
  }

  /** The first n batches were all described. */
  predicate Described(a: Answers, n: nat) {
    forall b :: 0 <= b < n ==> a.batch(b).Some?
  }

  function CacheAfter(cache: Cache, a: Answers, n: nat): Cache
    requires Described(a, n)
  {
    if n == 0 then cache
    else
      var tasks := a.batch(n - 1).value;
      CacheAfterBatch(CacheAfter(cache, a, n - 1), tasks, n - 1, a, |tasks|)
  }

  function ObsOf(cache: Cache, a: Answers, n: nat): seq<Obs>
    requires Described(a, n)
  {
    if n == 0 then []
    else
      var tasks := a.batch(n - 1).value;
      ObsOf(cache, a, n - 1) + ObsOfBatch(CacheAfter(cache, a, n - 1), tasks, n - 1, a, |tasks|)
  }

  function KeysOf(obs: seq<Obs>): set<Key> {
    set i | 0 <= i < |obs| :: obs[i].key
  }

  // ------------------------------------------------------------------ what a cycle does

  type EcsBook = Book<Addr, Backend>

  function Apply(bk: EcsBook, o: Obs, v: Verdicts): EcsBook {
    if o.offer.None? then bk
    else Offer(bk, o.key, AddrOf(o.offer.value), o.offer.value, v, (msg: string) => msg)
  }

  function ApplyAll(bk: EcsBook, obs: seq<Obs>, v: Verdicts): EcsBook {
    if obs == [] then bk else Apply(ApplyAll(bk, obs[..|obs| - 1], v), obs[|obs| - 1], v)
  }

  lemma {:induction false} ApplyMore(bk: EcsBook, xs: seq<Obs>, ys: seq<Obs>, v: Verdicts)
    ensures ApplyAll(bk, xs + ys, v) == ApplyAll(ApplyAll(bk, xs, v), ys, v)
  {
    if ys == [] {
      assert xs + ys == xs;
    } else {
      var last := |ys| - 1;
      ApplyMore(bk, xs, ys[..last], v);
      assert (xs + ys)[..|xs + ys| - 1] == xs + ys[..last];
    }
  }

  lemma KeysMore(xs: seq<Obs>, ys: seq<Obs>)
    ensures KeysOf(xs + ys) == KeysOf(xs) + KeysOf(ys)
  {
    var zs := xs + ys;
    forall k | k in KeysOf(xs) + KeysOf(ys)
      ensures k in KeysOf(zs)
    {
      if k in KeysOf(xs) {
        var i :| 0 <= i < |xs| && xs[i].key == k;
        assert zs[i].key == k;
      } else {
        var i :| 0 <= i < |ys| && ys[i].key == k;
        assert zs[|xs| + i].key == k;
      }
    }
  }

  lemma ApplyOne(bk: EcsBook, xs: seq<Obs>, o: Obs, v: Verdicts)
    ensures ApplyAll(bk, xs + [o], v) == Apply(ApplyAll(bk, xs, v), o, v)
    ensures KeysOf(xs + [o]) == KeysOf(xs) + {o.key}
  {
    assert (xs + [o])[..|xs|] == xs;
    KeysMore(xs, [o]);
    assert KeysOf([o]) == {o.key} by {
      assert [o][0].key == o.key;
    }
  }

  /** One more batch, seen from the whole cycle. */
  lemma BatchStep(bk: EcsBook, cache: Cache, a: Answers, b: nat, v: Verdicts)
    requires Described(a, b) && a.batch(b).Some?
    ensures Described(a, b + 1)
    ensures
      var tasks := a.batch(b).value;
      var before := CacheAfter(cache, a, b);
      var more := ObsOfBatch(before, tasks, b, a, |tasks|);
      && CacheAfter(cache, a, b + 1) == CacheAfterBatch(before, tasks, b, a, |tasks|)
      && ApplyAll(bk, ObsOf(cache, a, b + 1), v) == ApplyAll(ApplyAll(bk, ObsOf(cache, a, b), v), more, v)
      && KeysOf(ObsOf(cache, a, b + 1)) == KeysOf(ObsOf(cache, a, b)) + KeysOf(more)
  {
    var tasks := a.batch(b).value;
    var more := ObsOfBatch(CacheAfter(cache, a, b), tasks, b, a, |tasks|);
    ApplyMore(bk, ObsOf(cache, a, b), more, v);
    KeysMore(ObsOf(cache, a, b), more);
  }

  class Watcher {
    const reg: Registrar<Backend>
    var active: map<Key, Addr>
    var failed: map<Key, string>
    var entries: Cache
    var accountResolved: bool

    constructor (reg: Registrar<Backend>)
      requires reg.held == map[]
      ensures this.reg == reg && Valid()
      ensures active == map[] && failed == map[] && entries == map[] && !accountResolved
    {
      this.reg := reg;
      active, failed, entries, accountResolved := map[], map[], map[], false;
    }

    ghost function View(): EcsBook
      reads this, reg
    {
      Book(active, failed, reg.held, reg.calls)
    }

    /** Agreement with the registrar. */
    ghost predicate Valid()
      reads this, reg
    {
      Agrees(View(), AddrOf)
    }

    /** `taskDefCache.get`. */
    method GetTaskDef(arn: string, answer: Option<TaskDef>) returns (td: Option<TaskDef>)
      modifies this`entries
      ensures td == Lookup(old(entries), arn, answer)
      ensures entries == if td.Some? then old(entries)[arn := td.value] else old(entries)
    {
      if arn in entries {
        td := Some(entries[arn]);
        assert entries[arn := td.value] == entries;
        return;
      }
      td := answer;
      if td.Some? {
        entries := entries[arn := td.value];
      }
    }

    method NoteRegisterFailure(key: Key, err: string)
      modifies this`failed
      ensures failed == old(failed)[key := err]
    {
      failed := failed[key := err];
    }

    /** The body of the loop in `applyTask` from the resolved backend on. */
    method ApplyBackend(key: Key, b: Backend)
      requires Valid()
      modifies this`active, this`failed, reg
      ensures Valid() && View() == Apply(old(View()), Obs(key, Some(b)), reg.verdicts)
    {
      OfferAgrees(View(), key, AddrOf(b), b, reg.verdicts, (msg: string) => msg, AddrOf);
      var addr := AddrOf(b);
      if key in active && active[key] == addr {
        return;
      }
      if key in active {
        reg.Deregister(key);
        active := active - {key};
      }
      var err := reg.Register(key, b);
      if err.Some? {
        NoteRegisterFailure(key, err.value);
        return;
      }
      failed := failed - {key};
      active := active[key := addr];
    }

    method ApplyTask(task: Task, td: TaskDef, b: nat, i: nat, a: Answers, seen0: set<Key>) returns (seen: set<Key>)
      requires Valid()
      modifies this`active, this`failed, reg
      ensures Valid()
      ensures
        var obs := TaskObs(task, td, b, i, a, |td.containers|);
        View() == ApplyAll(old(View()), obs, reg.verdicts) && seen == seen0 + KeysOf(obs)
    {
      seen := seen0;
      for j := 0 to |td.containers|
        invariant Valid()
        invariant View() == ApplyAll(old(View()), TaskObs(task, td, b, i, a, j), reg.verdicts)
        invariant seen == seen0 + KeysOf(TaskObs(task, td, b, i, a, j))
      {
        var cd := td.containers[j];
        var o := ContainerObs(task, cd, a.resolve(b, i, j));
        ghost var done := TaskObs(task, td, b, i, a, j);
        if o.Some? {
          ApplyOne(old(View()), done, o.value, reg.verdicts);
          seen := seen + {o.value.key};
          if o.value.offer.Some? {
            ApplyBackend(o.value.key, o.value.offer.value);
          }
        } else {
          assert done + [] == done;
        }
      }
    }

    /** One task of a described batch. */
    method ApplyDescribed(task: Task, b: nat, i: nat, a: Answers, seen0: set<Key>) returns (seen: set<Key>)
      requires Valid()
      modifies this`active, this`failed, this`entries, reg
      ensures Valid() && entries == CacheAfterTask(old(entries), task, b, i, a)
      ensures
        var obs := ObsOfTask(old(entries), task, b, i, a);
        View() == ApplyAll(old(View()), obs, reg.verdicts) && seen == seen0 + KeysOf(obs)
    {
      seen := seen0;
      if task.status != Some("RUNNING") || task.defArn.None? {
        return;
      }
      var td := GetTaskDef(task.defArn.value, a.lookup(b, i));
      if td.None? {
        return;
      }
      seen := ApplyTask(task, td.value, b, i, a, seen);
    }

    /** The loop over the tasks of one described batch. */
    method ApplyBatch(tasks: seq<Task>, b: nat, a: Answers, seen0: set<Key>) returns (seen: set<Key>)
      requires Valid()
      modifies this`active, this`failed, this`entries, reg
      ensures Valid()
      ensures entries == CacheAfterBatch(old(entries), tasks, b, a, |tasks|)
      ensures
        var obs := ObsOfBatch(old(entries), tasks, b, a, |tasks|);
        View() == ApplyAll(old(View()), obs, reg.verdicts) && seen == seen0 + KeysOf(obs)
    {
      seen := seen0;
      for i := 0 to |tasks|
        invariant Valid()
        invariant entries == CacheAfterBatch(old(entries), tasks, b, a, i)
        invariant View() == ApplyAll(old(View()), ObsOfBatch(old(entries), tasks, b, a, i), reg.verdicts)
        invariant seen == seen0 + KeysOf(ObsOfBatch(old(entries), tasks, b, a, i))
      {
        ghost var done := ObsOfBatch(old(entries), tasks, b, a, i);
        ghost var more := ObsOfTask(entries, tasks[i], b, i, a);
        ApplyMore(old(View()), done, more, reg.verdicts);
        KeysMore(done, more);
        seen := ApplyDescribed(tasks[i], b, i, a, seen);
      }
    }

    /** `removeMissing`: the order is that of the range over `active`. */
    method RemoveMissing(seen: set<Key>) returns (ghost order: seq<Key>)
      modifies this`active, this`failed, reg
      ensures ListsUnseen(old(View()), seen, order)
      ensures View() == Sweep(old(View()), seen, order)
    {
      order := [];
      var left := active.Keys;
      while left != {}
        invariant left <= old(active).Keys && failed == old(failed)
        invariant forall k :: k in order <==> k in old(active) && k !in seen && k !in left
        invariant forall i, j :: 0 <= i < j < |order| ==> order[i] != order[j]
        invariant View() == DropAll(old(View()), order)
        decreases left
      {
        var key :| key in left;
        left := left - {key};
        if key !in seen {
          assert (order + [key])[..|order|] == order;
          order := order + [key];
          reg.Deregister(key);
          active := active - {key};
        }
      }
      ghost var dropped := View();
      var rest := failed.Keys;
      while rest != {}
        invariant rest <= old(failed).Keys
        invariant View() == dropped.(failed := failed)
        invariant forall k :: k in failed <==> k in old(failed) && (k in seen || k in rest)
        invariant forall k :: k in failed ==> failed[k] == old(failed)[k]
        decreases rest
      {
        var key :| key in rest;
        rest := rest - {key};
        if key !in seen {
          failed := failed - {key};
        }
      }
      assert failed == ForgetUnseen(dropped, seen).failed;
    }

    /** The loop over the batches; it stops at the first one that cannot be described. */
    method ApplyBatches(count: nat, a: Answers) returns (ok: bool, seen: set<Key>, ghost n: nat)
      requires Valid()
      modifies this`active, this`failed, this`entries, reg
      ensures Valid() && n <= count && Described(a, n) && (ok <==> n == count)
      ensures !ok ==> a.batch(n).None?
      ensures entries == CacheAfter(old(entries), a, n)
      ensures View() == ApplyAll(old(View()), ObsOf(old(entries), a, n), reg.verdicts)
      ensures ok ==> seen == KeysOf(ObsOf(old(entries), a, n))
    {
      ok, seen, n := false, {}, 0;
      for b := 0 to count
        invariant n == b && Valid() && Described(a, b) && entries == CacheAfter(old(entries), a, b)
        invariant View() == ApplyAll(old(View()), ObsOf(old(entries), a, b), reg.verdicts)
        invariant seen == KeysOf(ObsOf(old(entries), a, b))
      {
        if a.batch(b).None? {
          return;
        }
        BatchStep(old(View()), old(entries), a, b, reg.verdicts);
        seen := ApplyBatch(a.batch(b).value, b, a, seen);
        n := b + 1;
      }
      ok := true;
    }

    /** One poll-and-diff cycle. `n` is the number of batches that were applied. A cycle that fails
        to resolve its account or to list has applied none; one that fails in a batch keeps what the
        earlier batches did and removes nothing. */
    method Cycle(a: Answers, resolves: bool) returns (ok: bool, ghost n: nat, ghost order: seq<Key>)
      requires Valid()
      modifies this, reg
      ensures Valid() && Described(a, n) && entries == CacheAfter(old(entries), a, n)
      ensures accountResolved <==> old(accountResolved) || (resolves && a.account)
      ensures
        var listed := AllFrom(a.tasks, 0);
        if (resolves && !accountResolved) || listed.None? then !ok && n == 0
        else ok || (n < |Chunks(listed.value, 100)| && a.batch(n).None?)
      ensures !ok ==> View() == ApplyAll(old(View()), ObsOf(old(entries), a, n), reg.verdicts)
      ensures ok ==> AllFrom(a.tasks, 0).Some? && n == |Chunks(AllFrom(a.tasks, 0).value, 100)|
      ensures ok ==>
        var obs := ObsOf(old(entries), a, n);
        var bk := ApplyAll(old(View()), obs, reg.verdicts);
        ListsUnseen(bk, KeysOf(obs), order) && View() == Sweep(bk, KeysOf(obs), order)
    {
      ok, n, order := false, 0, [];
      if !accountResolved && resolves {
        if !a.account {
          return;
        }
        accountResolved := true;
      }
      var arns := ListAllTaskArns(a.tasks);
      if arns.None? {
        return;
      }
      var batches := Chunk(arns.value, 100);
      var seen;
      ok, seen, n := ApplyBatches(|batches|, a);
      if ok {
        ghost var swept := View();
        order := RemoveMissing(seen);
        SweepAgrees(swept, seen, order, AddrOf);
      }
    }
  }
}
