/**
 The debounce loop of the certificate mirror (certsync/certsync.go, `Run`): what its select may
 pick, in any order, and the promise that no certificate event is forgotten.

 The timer is a flag, running, and its channel, which may hold one tick. Resetting a timer may or
 may not clear a tick that is already there, depending on the runtime; both are allowed for.
 */
module CertLoop {
  import opened Options
  import opened CertSync

  datatype Exit = FinalSweep | ChannelClosed

  datatype Loop = Loop(pending: bool, running: bool, tick: bool, cancelled: bool, exit: Option<Exit>)

  const START := Loop(false, false, false, false, None)

  /** What was done to a file, by the watch; the bits of one event's Op. */
  datatype FileOp = Create | Write | Remove | Rename | Chmod

  /** What happens next: the world moves, or the select takes a case. */
  datatype Pick =
    | Cancel                                              // the context ends
    | Expire                                              // the timer runs out
    | TakeDone                                            // case <-ctx.Done()
    | TakeEvent(ops: set<FileOp>, name: string, drops: bool) // a file event; Reset drops a stale tick
    | EventsClosed
    | TakeError
    | ErrorsClosed
    | TakeTick                                            // case <-timer.C

  /** The moves that the loop itself, or the runtime, can make in this state. */
  predicate Ready(s: Loop, p: Pick) {
    && s.exit.None?
    && match p
       case Expire => s.running
       case TakeDone => s.cancelled
       case TakeTick => s.tick
       case _ => true
  }

  predicate CertEvent(p: Pick) {
    p.TakeEvent? && (Create in p.ops || Write in p.ops || Rename in p.ops) && IsCertFile(p.name)
  }

  /** A sweep starts. */
  predicate Sweeps(s: Loop, p: Pick) {
    Ready(s, p) && (p.TakeDone? || (p.TakeTick? && s.pending && !s.cancelled))
  }

  /** A pick that is not ready does not happen. */
  function Next(s: Loop, p: Pick): Loop {
    if !Ready(s, p) then s
    else
      match p
      case Cancel => s.(cancelled := true)
      case Expire => s.(running := false, tick := true)
      case TakeDone => s.(exit := Some(FinalSweep))
      case TakeEvent(_, _, drops) =>
        if CertEvent(p) then s.(pending := true, running := true, tick := s.tick && !drops) else s
      case EventsClosed => s.(exit := Some(ChannelClosed))
      case TakeError => s
      case ErrorsClosed => s.(exit := Some(ChannelClosed))
      case TakeTick =>
        if !s.pending || s.cancelled then s.(tick := false) else s.(tick := false, pending := false)
  }

  function After(ps: seq<Pick>): Loop {
    if ps == [] then START else Next(After(ps[..|ps| - 1]), ps[|ps| - 1])
  }

  /** The positions in ps at which a sweep starts. */
  function SweepsIn(ps: seq<Pick>): seq<nat> {
    if ps == [] then []
    else
      var last := |ps| - 1;
      SweepsIn(ps[..last]) + (if Sweeps(After(ps[..last]), ps[last]) then [last] else [])
  }

  /** The loop, driven by the picks: the state it leaves, and when it swept. */
  method Run(ps: seq<Pick>) returns (s: Loop, sweeps: seq<nat>)
    ensures s == After(ps) && sweeps == SweepsIn(ps)
  {
    var pending, running, tick, cancelled := false, false, false, false;
    var exit: Option<Exit> := None;
    sweeps := [];
    for i := 0 to |ps|
      invariant Loop(pending, running, tick, cancelled, exit) == After(ps[..i])
      invariant sweeps == SweepsIn(ps[..i])
    {
      assert ps[..i + 1][..i] == ps[..i];
      if exit.Some? {
        continue;
      }
      match ps[i]
      case Cancel =>
        cancelled := true;
      case Expire =>
        if running {
          running, tick := false, true;
        }
      case TakeDone =>
        if cancelled {
          sweeps := sweeps + [i];
          exit := Some(FinalSweep);
        }
      case TakeEvent(ops, name, drops) =>
        if Create !in ops && Write !in ops && Rename !in ops {
          continue;
        }
        if IsCertFile(name) {
          running, tick := true, tick && !drops;
          pending := true;
        }
      case EventsClosed =>
        exit := Some(ChannelClosed);
      case TakeError =>
      case ErrorsClosed =>
        exit := Some(ChannelClosed);
      case TakeTick =>
        if tick {
          tick := false;
          if pending && !cancelled {
            pending := false;
            sweeps := sweeps + [i];
          }
        }
    }
    assert ps[..|ps|] == ps;
    s := Loop(pending, running, tick, cancelled, exit);
  }

  /** In every state: what is pending will be seen to, by a timer that runs or has ticked, or by the
      end of the context. */
  predicate Attended(s: Loop) {
    s.pending ==> s.running || s.tick || s.cancelled
  }

  lemma {:induction false} AlwaysAttended(ps: seq<Pick>)
    ensures Attended(After(ps))
    ensures After(ps).exit == Some(FinalSweep) ==> After(ps).cancelled
  {
    if ps != [] {
      AlwaysAttended(ps[..|ps| - 1]);
    }
  }

  /** Some sweep starts at a position from i up to j. */
  ghost predicate SweptBetween(ps: seq<Pick>, i: nat, j: nat) {
    exists m :: i <= m < j && m < |ps| && Sweeps(After(ps[..m]), ps[m])
  }

  /** A certificate event that was taken stays pending, and attended, until a sweep that starts
      after it. */
  lemma {:induction false} EventStaysPending(ps: seq<Pick>, i: nat, j: nat)
    requires i < j <= |ps| && TookEvent(ps, i)
    ensures SweptBetween(ps, i + 1, j) || (After(ps[..j]).pending && Attended(After(ps[..j])))
    decreases j
  {
    assert ps[..j][..j - 1] == ps[..j - 1];
    AlwaysAttended(ps[..j]);
    if i + 1 < j {
      EventStaysPending(ps, i, j - 1);
      var s := After(ps[..j - 1]);
      if SweptBetween(ps, i + 1, j - 1) {
        var m :| i + 1 <= m < j - 1 && m < |ps| && Sweeps(After(ps[..m]), ps[m]);
      } else if Sweeps(s, ps[j - 1]) {
      }
    }
  }

  /** The loop is at rest: neither it nor the runtime can do anything without a new event. */
  predicate AtRest(s: Loop) {
    !Ready(s, Expire) && !Ready(s, TakeTick) && !Ready(s, TakeDone)
  }

  lemma RestIsOver(s: Loop)
    requires AtRest(s) && s.pending && Attended(s)
    ensures s.exit.Some?
  {
    assert s.exit.None? ==> Ready(s, Expire) || Ready(s, TakeTick) || Ready(s, TakeDone);
  }

  /** Position i took a certificate event. */
  predicate TookEvent(ps: seq<Pick>, i: nat) {
    i < |ps| && CertEvent(ps[i]) && Ready(After(ps[..i]), ps[i])
  }

  lemma RestMeansSwept(ps: seq<Pick>, i: nat)
    requires TookEvent(ps, i) && AtRest(After(ps))
    ensures SweptBetween(ps, i + 1, |ps|) || (After(ps).exit == Some(ChannelClosed) && After(ps).pending)
  {
    assert ps[..|ps|] == ps;
    EventStaysPending(ps, i, |ps|);
    AlwaysAttended(ps);
    if After(ps).pending {
      RestIsOver(After(ps));
      assert After(ps).exit.value.FinalSweep? || After(ps).exit.value.ChannelClosed?;
    }
    if After(ps).exit == Some(FinalSweep) {
      var m := FinalSweepAt(ps);
      EventBeforeExit(ps, i, m);
      assert SweptBetween(ps, i + 1, |ps|);
    }
  }

  /** Nothing is forgotten, exactly: once the loop is at rest, a sweep has started after every
      certificate event it took, if and only if the watch was not closed under it while something
      was pending. */
  lemma AllSweptIff(ps: seq<Pick>)
    requires AtRest(After(ps))
    ensures (forall i :: 0 <= i < |ps| && TookEvent(ps, i) ==> SweptBetween(ps, i + 1, |ps|)) <==>
      !(After(ps).exit == Some(ChannelClosed) && After(ps).pending)
  {
    if After(ps).exit == Some(ChannelClosed) && After(ps).pending {
      assert ps[..|ps|] == ps;
      var i := PendingIsOwed(ps, |ps|);
      assert TookEvent(ps, i);
    } else {
      forall i | 0 <= i < |ps| && TookEvent(ps, i)
        ensures SweptBetween(ps, i + 1, |ps|)
      {
        RestMeansSwept(ps, i);
      }
    }
  }

  /** The loop that ended with its final sweep started it at some position. */
  lemma {:induction false} FinalSweepAt(ps: seq<Pick>) returns (m: nat)
    requires After(ps).exit == Some(FinalSweep)
    ensures m < |ps| && Sweeps(After(ps[..m]), ps[m]) && ps[m].TakeDone?
  {
    var last := |ps| - 1;
    if After(ps[..last]).exit == Some(FinalSweep) {
      m := FinalSweepAt(ps[..last]);
      assert ps[..last][..m] == ps[..m];
    } else {
      m := last;
    }
  }

  /** After the loop has returned nothing is taken. */
  lemma {:induction false} ExitStays(ps: seq<Pick>, m: nat, i: nat)
    requires m <= i <= |ps| && After(ps[..m]).exit.Some?
    ensures After(ps[..i]).exit.Some?
    decreases i
  {
    if m < i {
      ExitStays(ps, m, i - 1);
      assert ps[..i][..i - 1] == ps[..i - 1];
    }
  }

  lemma EventBeforeExit(ps: seq<Pick>, i: nat, m: nat)
    requires TookEvent(ps, i) && m < |ps|
    requires Sweeps(After(ps[..m]), ps[m]) && ps[m].TakeDone?
    ensures i < m
  {
    assert ps[..m + 1][..m] == ps[..m];
    if m < i {
      ExitStays(ps, m + 1, i);
    }
  }

  /** A watch closed between the event and the tick: the loop returns without a sweep. */
  lemma ClosedWatchForgets()
    ensures
      var ps := [TakeEvent({Create}, "a.crt", false), EventsClosed];
      && CertEvent(ps[0]) && After(ps).pending && After(ps).exit == Some(ChannelClosed)
      && SweepsIn(ps) == []
  {
    var ps := [TakeEvent({Create}, "a.crt", false), EventsClosed];
    assert ps[..1] == [ps[0]] && ps[..1][..0] == [];
  }

  /** Position i took a certificate event, and no sweep has started between it and j. */
  ghost predicate OwedSince(ps: seq<Pick>, i: nat, j: nat) {
    i < j <= |ps| && TookEvent(ps, i) && !SweptBetween(ps, i + 1, j)
  }

  lemma {:induction false} PendingIsOwed(ps: seq<Pick>, j: nat) returns (i: nat)
    requires j <= |ps| && After(ps[..j]).pending && After(ps[..j]).exit != Some(FinalSweep)
    ensures OwedSince(ps, i, j)
    decreases j
  {
    var last := j - 1;
    assert ps[..j][..last] == ps[..last];
    if CertEvent(ps[last]) && Ready(After(ps[..last]), ps[last]) {
      i := last;
    } else {
      i := PendingIsOwed(ps, last);
      NotSwept(After(ps[..last]), ps[last]);
    }
  }

  /** A step that leaves something pending, and the loop not finished, was no sweep. */
  lemma NotSwept(s: Loop, p: Pick)
    requires Next(s, p).pending && Next(s, p).exit != Some(FinalSweep)
    ensures !Sweeps(s, p)
  {
  }

  /** No idle sweep: the one a tick starts is owed to a certificate event since the last sweep. */
  lemma TickSweepIsOwed(ps: seq<Pick>, m: nat) returns (i: nat)
    requires m < |ps| && ps[m].TakeTick? && Sweeps(After(ps[..m]), ps[m])
    ensures OwedSince(ps, i, m)
  {
    i := PendingIsOwed(ps, m);
  }

  // ------------------------------------------------------------------ when the loop ends

  /** Pick i ended the loop: the end of the context was taken, or a channel of the watch was closed. */
  predicate Ends(ps: seq<Pick>, i: nat, how: Exit) {
    && i < |ps| && After(ps[..i]).exit.None?
    && match how
       case FinalSweep => ps[i].TakeDone? && After(ps[..i]).cancelled
       case ChannelClosed => ps[i].EventsClosed? || ps[i].ErrorsClosed?
  }

  /** The loop ends exactly so: it goes on after watcher errors, irrelevant events and stale ticks. */
  lemma {:induction false} EndsIff(ps: seq<Pick>, how: Exit)
    ensures After(ps).exit == Some(how) <==> exists i :: 0 <= i < |ps| && Ends(ps, i, how)
  {
    if ps != [] {
      var last := |ps| - 1;
      var before := ps[..last];
      EndsIff(before, how);
      if i :| 0 <= i < last && Ends(before, i, how) {
        assert before[..i] == ps[..i];
        assert Ends(ps, i, how);
      }
      if i :| 0 <= i < |ps| && Ends(ps, i, how) {
        assert i < last ==> before[..i] == ps[..i] && Ends(before, i, how);
      }
      if After(before).exit.None? && After(ps).exit == Some(how) {
        assert Ends(ps, last, how);
      }
    }
  }

  predicate CancelsAt(ps: seq<Pick>, i: nat) {
    i < |ps| && ps[i].Cancel? && After(ps[..i]).exit.None?
  }

  /** The context counts as cancelled exactly once the world has cancelled it. */
  lemma {:induction false} CancelledIff(ps: seq<Pick>)
    ensures After(ps).cancelled <==> exists i :: 0 <= i < |ps| && CancelsAt(ps, i)
  {
    if ps != [] {
      var last := |ps| - 1;
      var before := ps[..last];
      CancelledIff(before);
      if i :| 0 <= i < last && CancelsAt(before, i) {
        assert before[..i] == ps[..i];
        assert CancelsAt(ps, i);
      }
      if i :| 0 <= i < |ps| && CancelsAt(ps, i) {
        assert i < last ==> before[..i] == ps[..i] && CancelsAt(before, i);
      }
      if After(before).exit.None? && ps[last].Cancel? {
        assert CancelsAt(ps, last);
      }
    }
  }
}
