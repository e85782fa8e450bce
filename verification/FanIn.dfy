/**
 The error fan-in (main.go): `runAll` runs every watcher and forwards one value, and `startModes`
 fans the discovery modes in the same way, each mode being a watcher that waits for its own value
 or for the end of the context.
 */
module FanIn {

  /** What Run returns: nil, an error that is context.Canceled, or a genuine error. */
  datatype Report = Nil | Canceled | Error(text: string)

  // ------------------------------------------------------------------ the coordinator

  /** The variables of the coordinator: its flag, and all it has sent so far. */
  datatype Coordinator = Coordinator(reported: bool, sent: seq<Report>)

  const IDLE := Coordinator(false, [])

  /** One receive from the results. */
  function Receive(c: Coordinator, r: Report): Coordinator {
    if r.Error? && !c.reported then Coordinator(true, c.sent + [r]) else c
  }

  function ReceiveAll(rs: seq<Report>): Coordinator {
    if rs == [] then IDLE else Receive(ReceiveAll(rs[..|rs| - 1]), rs[|rs| - 1])
  }

  /** After the loop. */
  function Conclude(c: Coordinator): Coordinator {
    if c.reported then c else c.(sent := c.sent + [Nil])
  }

  /** i is the first genuine error among rs. */
  predicate FirstGenuine(rs: seq<Report>, i: int) {
    0 <= i < |rs| && rs[i].Error? && forall j :: 0 <= j < i ==> !rs[j].Error?
  }

  predicate NoneGenuine(rs: seq<Report>) {
    forall j :: 0 <= j < |rs| ==> !rs[j].Error?
  }

  /** The first genuine error received has been sent, and nothing else. */
  ghost predicate Forwarded(c: Coordinator, rs: seq<Report>) {
    || (NoneGenuine(rs) && c == IDLE)
    || (c.reported && exists i :: FirstGenuine(rs, i) && c.sent == [rs[i]])
  }

  lemma {:induction false} ReceivedForwards(rs: seq<Report>)
    ensures Forwarded(ReceiveAll(rs), rs)
  {
    if rs != [] {
      var last := |rs| - 1;
      var before := rs[..last];
      ReceivedForwards(before);
      if NoneGenuine(before) {
        FirstExcludes(before);
        if rs[last].Error? {
          assert FirstGenuine(rs, last);
        }
      } else {
        var i :| FirstGenuine(before, i) && ReceiveAll(before).sent == [before[i]];
        assert FirstGenuine(rs, i);
      }
    }
  }

  lemma FirstExcludes(rs: seq<Report>)
    requires NoneGenuine(rs)
    ensures forall i :: !FirstGenuine(rs, i)
  {
  }

  /** The goroutine of `runAll`, given the reports in the order in which they arrive: exactly one
      value is sent, the first genuine error, or nil if there is none. */
  method Coordinate(arrivals: seq<Report>) returns (sent: seq<Report>)
    ensures sent == Conclude(ReceiveAll(arrivals)).sent && |sent| == 1
    ensures sent == [Nil] <==> NoneGenuine(arrivals)
    ensures sent != [Nil] ==> exists i :: FirstGenuine(arrivals, i) && sent == [arrivals[i]]
  {
    var reported := false;
    sent := [];
    for i := 0 to |arrivals|
      invariant Coordinator(reported, sent) == ReceiveAll(arrivals[..i])
    {
      assert arrivals[..i + 1][..i] == arrivals[..i];
      var err := arrivals[i];
      if err != Nil && err != Canceled && !reported {
        sent := sent + [err];
        reported := true;
      }
    }
    assert arrivals[..|arrivals|] == arrivals;
    ReceivedForwards(arrivals);
    if !reported {
      sent := sent + [Nil];
    }
  }

  // ------------------------------------------------------------------ runAll in any arrival order

  datatype Arrival = Arrival(who: nat, report: Report)

  /** n watchers; the results channel, as all that ever went in and how much has been taken out. */
  datatype Fan = Fan(n: nat, arrivals: seq<Arrival>, taken: nat, coord: Coordinator, done: bool)

  function NewFan(n: nat): Fan {
    Fan(n, [], 0, IDLE, false)
  }

  predicate Returned(f: Fan, w: nat) {
    exists i :: 0 <= i < |f.arrivals| && f.arrivals[i].who == w
  }

  function Reports(xs: seq<Arrival>): seq<Report> {
    seq(|xs|, i requires 0 <= i < |xs| => xs[i].report)
  }

  datatype FanStep = Returns(who: nat, report: Report) | Takes | Finishes

  predicate FanEnabled(f: Fan, l: FanStep) {
    match l
    case Returns(w, _) => w < f.n && !Returned(f, w)
    case Takes => f.taken < f.n && f.taken < |f.arrivals|
    case Finishes => f.taken == f.n && !f.done
  }

  function FanNext(f: Fan, l: FanStep): Fan
    requires FanEnabled(f, l)
  {
    match l
    case Returns(w, r) => f.(arrivals := f.arrivals + [Arrival(w, r)])
    case Takes => f.(taken := f.taken + 1, coord := Receive(f.coord, f.arrivals[f.taken].report))
    case Finishes => f.(done := true, coord := Conclude(f.coord))
  }

  ghost predicate FanInv(f: Fan) {
    && (forall i :: 0 <= i < |f.arrivals| ==> f.arrivals[i].who < f.n)
    && (forall i, j :: 0 <= i < j < |f.arrivals| ==> f.arrivals[i].who != f.arrivals[j].who)
    && f.taken <= |f.arrivals| && f.taken <= f.n
    && (f.done ==> f.taken == f.n)
    && var c := ReceiveAll(Reports(f.arrivals[..f.taken]));
       f.coord == if f.done then Conclude(c) else c
  }

  lemma FanStepKeeps(f: Fan, l: FanStep)
    requires FanInv(f) && FanEnabled(f, l)
    ensures FanInv(FanNext(f, l))
  {
    var f' := FanNext(f, l);
    match l
    case Returns(w, r) =>
      assert f'.arrivals[..f.taken] == f.arrivals[..f.taken];
    case Takes =>
      var rs := Reports(f.arrivals[..f.taken + 1]);
      assert rs[..f.taken] == Reports(f.arrivals[..f.taken]);
    case Finishes =>
  }

  function Below(n: nat): (ws: set<nat>)
    ensures |ws| == n && forall w: nat :: w in ws <==> w < n
  {
    if n == 0 then {} else Below(n - 1) + {n - 1}
  }

  /** At most n watchers arrive, and n arrivals are those of every watcher. */
  lemma AllArrived(f: Fan)
    requires forall i :: 0 <= i < |f.arrivals| ==> f.arrivals[i].who < f.n
    requires forall i, j :: 0 <= i < j < |f.arrivals| ==> f.arrivals[i].who != f.arrivals[j].who
    ensures |f.arrivals| <= f.n
    ensures |f.arrivals| == f.n ==> forall w :: 0 <= w < f.n ==> Returned(f, w)
  {
    var who := WhoSet(f.arrivals);
    Sub(who, Below(f.n));
    if |f.arrivals| == f.n {
      forall w: nat | w < f.n
        ensures Returned(f, w)
      {
        if w !in who {
          Sub(who + {w}, Below(f.n));
        }
      }
    }
  }

  function Who(xs: seq<Arrival>): set<nat> {
    set i | 0 <= i < |xs| :: xs[i].who
  }

  lemma {:induction false} WhoSet(xs: seq<Arrival>) returns (who: set<nat>)
    requires forall i, j :: 0 <= i < j < |xs| ==> xs[i].who != xs[j].who
    ensures who == Who(xs) && |who| == |xs|
  {
    who := Who(xs);
    if xs != [] {
      var last := |xs| - 1;
      var less := WhoSet(xs[..last]);
      assert who == less + {xs[last].who} by {
        forall w | w in who
          ensures w in less + {xs[last].who}
        {
          var i :| 0 <= i < |xs| && xs[i].who == w;
          assert i < last ==> xs[..last][i].who == w;
        }
        forall w | w in less
          ensures w in who
        {
          var i :| 0 <= i < last && xs[..last][i].who == w;
          assert xs[i].who == w;
        }
      }
      assert xs[last].who !in less;
    }
  }

  lemma {:induction false} Sub(a: set<nat>, b: set<nat>)
    requires a <= b
    ensures |a| <= |b|
  {
    if a != {} {
      var x :| x in a;
      Sub(a - {x}, b - {x});
    }
  }

  /** At most one value is ever sent: a genuine error is the first one received; nil is sent only
      after every watcher has returned and none of them reported a genuine error. */
  lemma FanSends(f: Fan)
    requires FanInv(f)
    ensures |f.coord.sent| <= 1
    ensures f.coord.sent != [] && f.coord.sent[0].Error? ==>
      exists i :: FirstGenuine(Reports(f.arrivals[..f.taken]), i) && f.coord.sent[0] == f.arrivals[i].report
    ensures f.coord.sent != [] && !f.coord.sent[0].Error? ==>
      && f.done && f.coord.sent[0] == Nil
      && (forall w :: 0 <= w < f.n ==> Returned(f, w))
      && (forall i :: 0 <= i < |f.arrivals| ==> !f.arrivals[i].report.Error?)
  {
    var rs := Reports(f.arrivals[..f.taken]);
    ReceivedForwards(rs);
    AllArrived(f);
    if f.coord.sent != [] && !f.coord.sent[0].Error? {
      assert f.taken == |f.arrivals|;
      forall i | 0 <= i < |f.arrivals|
        ensures !f.arrivals[i].report.Error?
      {
        assert rs[i] == f.arrivals[i].report;
      }
    }
  }

  /** The coordinator has nothing left to do. */
  predicate Settled(f: Fan) {
    !FanEnabled(f, Takes) && !FanEnabled(f, Finishes)
  }

  predicate AnyGenuine(f: Fan) {
    exists i :: 0 <= i < |f.arrivals| && f.arrivals[i].report.Error?
  }

  /** Once it has nothing left to do: a genuine error that arrived has been reported, however many
      watchers are still silent; and without one, nil has been sent exactly if all returned. */
  lemma FanSettles(f: Fan)
    requires FanInv(f) && Settled(f)
    ensures f.taken == |f.arrivals|
    ensures AnyGenuine(f) <==> f.coord.sent != [] && f.coord.sent[0].Error?
    ensures !AnyGenuine(f) ==> (f.coord.sent == [Nil] <==> |f.arrivals| == f.n)
    ensures !AnyGenuine(f) && |f.arrivals| < f.n ==> f.coord.sent == []
  {
    AllArrived(f);
    var rs := Reports(f.arrivals[..f.taken]);
    assert f.arrivals[..f.taken] == f.arrivals;
    ReceivedForwards(rs);
    assert AnyGenuine(f) <==> !NoneGenuine(rs) by {
      assert forall i :: 0 <= i < |rs| ==> rs[i] == f.arrivals[i].report;
    }
    if NoneGenuine(rs) {
      FirstExcludes(rs);
    }
  }

  /** No watchers: nil at once. */
  lemma NoWatchersNil()
    ensures FanEnabled(NewFan(0), Finishes) && FanNext(NewFan(0), Finishes).coord.sent == [Nil]
  {
  }

  // ------------------------------------------------------------------ the modes

  /** A discovery mode: one watcher that reports itself, a fan-in of readers, or nothing started. */
  datatype Mode = Direct(report: seq<Report>) | Readers(fan: Fan) | Silent

  /** What the mode has put in its own channel. */
  function Channel(m: Mode): seq<Report> {
    match m
    case Direct(report) => report
    case Readers(fan) => fan.coord.sent
    case Silent => []
  }

  datatype Modes = Modes(modes: seq<Mode>, outer: Fan, cancelled: bool)

  datatype ModeStep =
    | Cancel
    | SelfReports(mode: nat, report: Report)    // a mode with one watcher
    | Inner(mode: nat, step: FanStep)        // a mode with readers
    | Yields(mode: nat)                      // modeResult.Run takes the mode's value
    | GivesUp(mode: nat)                     // modeResult.Run sees the end of the context
    | Outer(step: FanStep)                   // the coordinator over the modes

  predicate ModeEnabled(s: Modes, l: ModeStep) {
    match l
    case Cancel => true
    case SelfReports(i, _) => i < |s.modes| && s.modes[i] == Direct([])
    case Inner(i, step) => i < |s.modes| && s.modes[i].Readers? && FanEnabled(s.modes[i].fan, step)
    case Yields(i) => i < |s.modes| && Channel(s.modes[i]) != [] && !Returned(s.outer, i)
    case GivesUp(i) => i < |s.modes| && s.cancelled && !Returned(s.outer, i)
    case Outer(step) => !step.Returns? && FanEnabled(s.outer, step)
  }

  function ModeNext(s: Modes, l: ModeStep): Modes
    requires s.outer.n == |s.modes| && ModeEnabled(s, l)
  {
    match l
    case Cancel => s.(cancelled := true)
    case SelfReports(i, r) => s.(modes := s.modes[i := Direct([r])])
    case Inner(i, step) => s.(modes := s.modes[i := Readers(FanNext(s.modes[i].fan, step))])
    case Yields(i) => s.(outer := FanNext(s.outer, Returns(i, Channel(s.modes[i])[0])))
    case GivesUp(i) => s.(outer := FanNext(s.outer, Returns(i, Canceled)))
    case Outer(step) => s.(outer := FanNext(s.outer, step))
  }

  predicate ModeInit(s: Modes) {
    && s.outer == NewFan(|s.modes|) && !s.cancelled
    && forall i :: 0 <= i < |s.modes| ==>
         s.modes[i] == Direct([]) || s.modes[i].Silent?
         || (s.modes[i].Readers? && s.modes[i].fan == NewFan(s.modes[i].fan.n))
  }

  /** What the outer coordinator was told comes from the mode, or from the end of the context. */
  predicate Justified(s: Modes, a: Arrival) {
    && a.who < |s.modes|
    && (Channel(s.modes[a.who]) == [a.report] || (s.cancelled && a.report == Canceled))
  }

  ghost predicate ModeOk(m: Mode) {
    match m
    case Direct(report) => |report| <= 1
    case Readers(fan) => FanInv(fan)
    case Silent => true
  }

  ghost predicate ModesInv(s: Modes) {
    && FanInv(s.outer) && s.outer.n == |s.modes|
    && (forall i :: 0 <= i < |s.modes| ==> ModeOk(s.modes[i]))
    && (forall i :: 0 <= i < |s.outer.arrivals| ==> Justified(s, s.outer.arrivals[i]))
  }

  /** A value in a mode's channel is never replaced. */
  lemma ChannelStays(f: Fan, l: FanStep)
    requires FanInv(f) && FanEnabled(f, l) && f.coord.sent != []
    ensures FanNext(f, l).coord.sent == f.coord.sent
  {
    FanStepKeeps(f, l);
    FanSends(FanNext(f, l));
    FanSends(f);
  }

  lemma ModeStepKeeps(s: Modes, l: ModeStep)
    requires ModesInv(s) && ModeEnabled(s, l)
    ensures ModesInv(ModeNext(s, l))
  {
    match l
    case Cancel =>
    case SelfReports(_, _) =>
    case Inner(i, step) => InnerKeeps(s, i, step);
    case Yields(i) =>
      FanStepKeeps(s.outer, Returns(i, Channel(s.modes[i])[0]));
      ChannelSingle(s.modes[i]);
    case GivesUp(i) => FanStepKeeps(s.outer, Returns(i, Canceled));
    case Outer(step) => FanStepKeeps(s.outer, step);
  }

  lemma ChannelSingle(m: Mode)
    requires ModeOk(m)
    ensures |Channel(m)| <= 1
  {
    if m.Readers? {
      FanSends(m.fan);
    }
  }

  lemma InnerKeeps(s: Modes, i: nat, step: FanStep)
    requires ModesInv(s) && ModeEnabled(s, Inner(i, step))
    ensures ModesInv(ModeNext(s, Inner(i, step)))
  {
    var s' := ModeNext(s, Inner(i, step));
    var fan := s.modes[i].fan;
    assert ModeOk(s.modes[i]);
    FanStepKeeps(fan, step);
    if fan.coord.sent != [] {
      ChannelStays(fan, step);
    }
    forall j | 0 <= j < |s'.outer.arrivals|
      ensures Justified(s', s'.outer.arrivals[j])
    {
      assert Justified(s, s.outer.arrivals[j]);
    }
  }

  ghost predicate IsModeRun(states: seq<Modes>, labels: seq<ModeStep>) {
    && |states| == |labels| + 1 && ModeInit(states[0])
    && forall i :: 0 <= i < |labels| ==>
         && states[i].outer.n == |states[i].modes| && ModeEnabled(states[i], labels[i])
         && states[i + 1] == ModeNext(states[i], labels[i])
  }

  lemma {:induction false} ModeRunInv(states: seq<Modes>, labels: seq<ModeStep>, i: nat)
    requires IsModeRun(states, labels) && i < |states|
    ensures ModesInv(states[i])
  {
    if i > 0 {
      ModeRunInv(states, labels, i - 1);
      ModeStepKeeps(states[i - 1], labels[i - 1]);
    }
  }

  /** The mode has finished, and without a genuine error. */
  ghost predicate CleanlyFinished(m: Mode) {
    && Channel(m) != [] && !Channel(m)[0].Error?
    && (m.Readers? ==>
          && (forall w :: 0 <= w < m.fan.n ==> Returned(m.fan, w))
          && (forall i :: 0 <= i < |m.fan.arrivals| ==> !m.fan.arrivals[i].report.Error?))
  }

  /** Nil is sent only when every mode has finished cleanly, down to each of its readers, or the
      context was cancelled. */
  lemma NilMeansAllFinished(states: seq<Modes>, labels: seq<ModeStep>, i: nat)
    requires IsModeRun(states, labels) && i < |states|
    requires states[i].outer.coord.sent == [Nil] && !states[i].cancelled
    ensures forall j :: 0 <= j < |states[i].modes| ==> CleanlyFinished(states[i].modes[j])
  {
    ModeRunInv(states, labels, i);
    var s := states[i];
    FanSends(s.outer);
    forall j | 0 <= j < |s.modes|
      ensures CleanlyFinished(s.modes[j])
    {
      assert Returned(s.outer, j);
      var a :| 0 <= a < |s.outer.arrivals| && s.outer.arrivals[a].who == j;
      assert Justified(s, s.outer.arrivals[a]);
      assert ModeOk(s.modes[j]);
      if s.modes[j].Readers? {
        FanSends(s.modes[j].fan);
      }
    }
  }

  lemma SilentUnfinished(m: Mode)
    requires m.Silent?
    ensures !CleanlyFinished(m)
  {
  }

  /** A silent mode withholds nil for as long as the context lives. */
  lemma SilentWithholdsNil(states: seq<Modes>, labels: seq<ModeStep>, i: nat, j: nat)
    requires IsModeRun(states, labels) && i < |states| && j < |states[i].modes|
    requires states[i].modes[j].Silent? && !states[i].cancelled
    ensures states[i].outer.coord.sent != [Nil]
  {
    SilentUnfinished(states[i].modes[j]);
    if states[i].outer.coord.sent == [Nil] {
      NilMeansAllFinished(states, labels, i);
    }
  }

  /** A mode has seen a genuine error: its own, or one of its readers'. */
  predicate HasError(m: Mode) {
    match m
    case Direct(report) => report != [] && report[0].Error?
    case Readers(fan) => AnyGenuine(fan)
    case Silent => false
  }

  /** Nothing is left to do but for watchers to return. */
  predicate AllSettled(s: Modes) {
    && Settled(s.outer)
    && (forall i :: 0 <= i < |s.modes| && s.modes[i].Readers? ==> Settled(s.modes[i].fan))
    && (forall i :: 0 <= i < |s.modes| ==> !ModeEnabled(s, Yields(i)))
  }

  /** One value at most is sent, and it is genuine only if some mode had it. */
  lemma ErrorHasSource(states: seq<Modes>, labels: seq<ModeStep>, i: nat)
    requires IsModeRun(states, labels) && i < |states|
    ensures |states[i].outer.coord.sent| <= 1
    ensures
      var sent := states[i].outer.coord.sent;
      sent != [] && sent[0].Error? ==>
        exists j :: 0 <= j < |states[i].modes| && Channel(states[i].modes[j]) == sent && HasError(states[i].modes[j])
  {
    ModeRunInv(states, labels, i);
    FanSends(states[i].outer);
    var sent := states[i].outer.coord.sent;
    if sent != [] && sent[0].Error? {
      var j := SourceOf(states[i]);
      assert Channel(states[i].modes[j]) == sent && HasError(states[i].modes[j]);
    }
  }

  lemma SourceOf(s: Modes) returns (j: nat)
    requires ModesInv(s) && s.outer.coord.sent != [] && s.outer.coord.sent[0].Error?
    ensures j < |s.modes| && Channel(s.modes[j]) == s.outer.coord.sent && HasError(s.modes[j])
  {
    FanSends(s.outer);
    var a :| FirstGenuine(Reports(s.outer.arrivals[..s.outer.taken]), a)
      && s.outer.coord.sent[0] == s.outer.arrivals[a].report;
    assert Justified(s, s.outer.arrivals[a]);
    j := s.outer.arrivals[a].who;
    assert ModeOk(s.modes[j]);
    ChannelIsError(s.modes[j]);
  }

  lemma ChannelIsError(m: Mode)
    requires ModeOk(m)
    ensures Channel(m) != [] && Channel(m)[0].Error? ==> HasError(m)
  {
    if m.Readers? && m.fan.coord.sent != [] && m.fan.coord.sent[0].Error? {
      FanSends(m.fan);
    }
  }

  /** A genuine error is never withheld: whatever the other modes and readers do or fail to do,
      while the context lives and once nothing is left to do, a genuine error has been sent if and
      only if some mode has seen one. */
  lemma ErrorSentIff(states: seq<Modes>, labels: seq<ModeStep>, i: nat)
    requires IsModeRun(states, labels) && i < |states|
    requires AllSettled(states[i]) && !states[i].cancelled
    ensures
      var sent := states[i].outer.coord.sent;
      (sent != [] && sent[0].Error?) <==>
      (exists j :: 0 <= j < |states[i].modes| && HasError(states[i].modes[j]))
  {
    ErrorHasSource(states, labels, i);
    ModeRunInv(states, labels, i);
    var s := states[i];
    if j :| 0 <= j < |s.modes| && HasError(s.modes[j]) {
      ErrorArrives(s, j);
      FanSettles(s.outer);
    }
  }

  lemma ErrorArrives(s: Modes, j: nat)
    requires ModesInv(s) && AllSettled(s) && !s.cancelled
    requires j < |s.modes| && HasError(s.modes[j])
    ensures AnyGenuine(s.outer)
  {
    assert ModeOk(s.modes[j]);
    if s.modes[j].Readers? {
      FanSettles(s.modes[j].fan);
    }
    assert Channel(s.modes[j]) != [] && Channel(s.modes[j])[0].Error?;
    assert !ModeEnabled(s, Yields(j));
    var a :| 0 <= a < |s.outer.arrivals| && s.outer.arrivals[a].who == j;
    assert Justified(s, s.outer.arrivals[a]);
  }

  /** And nil is withheld by nothing else: while the context lives and once nothing is left to do,
      nil has been sent if and only if every mode has finished cleanly. */
  lemma NilSentIff(states: seq<Modes>, labels: seq<ModeStep>, i: nat)
    requires IsModeRun(states, labels) && i < |states|
    requires AllSettled(states[i]) && !states[i].cancelled
    ensures states[i].outer.coord.sent == [Nil] <==>
      (forall j :: 0 <= j < |states[i].modes| ==> CleanlyFinished(states[i].modes[j]))
  {
    ModeRunInv(states, labels, i);
    var s := states[i];
    if s.outer.coord.sent == [Nil] {
      NilMeansAllFinished(states, labels, i);
    }
    if forall j :: 0 <= j < |s.modes| ==> CleanlyFinished(s.modes[j]) {
      forall j | 0 <= j < |s.modes|
        ensures Returned(s.outer, j)
      {
        assert CleanlyFinished(s.modes[j]) && !ModeEnabled(s, Yields(j));
      }
      CleanArrivals(s);
      AllReturned(s.outer);
      FanSettles(s.outer);
    }
  }

  lemma CleanArrivals(s: Modes)
    requires ModesInv(s) && !s.cancelled
    requires forall j :: 0 <= j < |s.modes| ==> CleanlyFinished(s.modes[j])
    ensures !AnyGenuine(s.outer)
  {
    forall a | 0 <= a < |s.outer.arrivals|
      ensures !s.outer.arrivals[a].report.Error?
    {
      assert Justified(s, s.outer.arrivals[a]);
      assert CleanlyFinished(s.modes[s.outer.arrivals[a].who]);
    }
  }

  lemma AllReturned(f: Fan)
    requires FanInv(f) && forall w :: 0 <= w < f.n ==> Returned(f, w)
    ensures |f.arrivals| == f.n
  {
    AllArrived(f);
    var who := WhoSet(f.arrivals);
    forall w | w in Below(f.n)
      ensures w in who
    {
      assert Returned(f, w);
      var i :| 0 <= i < |f.arrivals| && f.arrivals[i].who == w;
    }
    Sub(Below(f.n), who);
  }

  /** Once the context is cancelled and nothing is left to do, exactly one value has been sent, even
      if some modes never report. */
  lemma CancelledSendsOne(states: seq<Modes>, labels: seq<ModeStep>, i: nat)
    requires IsModeRun(states, labels) && i < |states|
    requires AllSettled(states[i]) && states[i].cancelled
    requires forall j :: 0 <= j < |states[i].modes| ==> !ModeEnabled(states[i], GivesUp(j))
    ensures |states[i].outer.coord.sent| == 1
  {
    ModeRunInv(states, labels, i);
    var s := states[i];
    forall j | 0 <= j < |s.modes|
      ensures Returned(s.outer, j)
    {
      assert !ModeEnabled(s, GivesUp(j));
    }
    AllReturned(s.outer);
    FanSettles(s.outer);
    FanSends(s.outer);
  }
}
