/**
 The life of the process after configuration: two servers, the startup garbage
 collection, the periodic collector and the shutdown handshake of app.Action.

 Each action is one step of one goroutine or of the environment, so a run is a
 sequence of actions and every interleaving is a run.  Channels are modelled by
 what they can hold: `quit` has three slots, the collector's stop channel none.
 */
module Lifecycle {
  import opened Wrappers

  /** Slots of the quit channel. */
  const QUIT_CAPACITY: nat := 3

  /** Where app.Action stands. */
  datatype Main =
    | StartingGateway
    | InStartupGc
    | StartingApi
    | ArmingTimer
    | AwaitingQuit
    | ClosingGateway
    | ClosingApi
    | StoppingTimer
    | SendingDone
    | StoppingSubs
    | Waiting
    | Returned

  /** A server goroutine; it ends `Reported` after a failure it told `quit` about, `Closed` otherwise. */
  datatype Server = Unstarted | Serving | Failed | Reported | Closed

  /** A goroutine that closes a server; it counts as finished once the server's listener is closed. */
  datatype Closer = Unspawned | Spawned | Finished

  /** The periodic collector goroutine. */
  datatype Collector = Absent | Selecting | Collecting | Resetting | Stopped

  /** The collector's timer; an armed timer can be received from once `deadline` is reached. */
  datatype Timer = NoTimer | Disarmed | Armed(deadline: int)

  datatype State = State(
    interval: int,
    main: Main,
    gateway: Server,
    api: Server,
    gatewayCloser: Closer,
    apiCloser: Closer,
    collector: Collector,
    timer: Timer,
    quit: nat,             // values waiting in the quit channel
    wg: nat,               // wait group counter
    signals: nat,          // OS signals accepted into the quit channel
    meetings: nat,         // rendezvous on the collector's stop channel
    now: nat,
    lastGcEnd: Option<nat> // when the latest periodicGC call ended
  )

  datatype Action =
    // main
    | StartGateway | EndStartupGc | StartApi | ArmTimer | ReceiveQuit
    | SpawnGatewayClose | SpawnApiClose | StopTimer | SendDone | StopSubs | WaitReturns
    // servers and their closers
    | GatewayFails | GatewayReports | GatewayReturns | CloseGateway
    | ApiFails | ApiReports | ApiReturns | CloseApi
    // collector
    | TimerFires | EndGc | ResetTimer
    // environment
    | Signal | Tick

  predicate IsProgram(a: Action) {
    !a.Signal? && !a.Tick?
  }

  /** A step of a goroutine that is not the failure of a server. */
  predicate IsProgress(a: Action) {
    IsProgram(a) && !a.GatewayFails? && !a.ApiFails?
  }

  function Init(interval: int): State {
    State(interval, StartingGateway, Unstarted, Unstarted, Unspawned, Unspawned,
          Absent, NoTimer, 0, 0, 0, 0, 0, None)
  }

  predicate Enabled(s: State, a: Action) {
    match a
    case StartGateway => s.main.StartingGateway?
    case EndStartupGc => s.main.InStartupGc?
    case StartApi => s.main.StartingApi?
    case ArmTimer => s.main.ArmingTimer?
    case ReceiveQuit => s.main.AwaitingQuit? && s.quit > 0
    case SpawnGatewayClose => s.main.ClosingGateway?
    case SpawnApiClose => s.main.ClosingApi?
    case StopTimer => s.main.StoppingTimer?
    case SendDone => s.main.SendingDone? && s.collector.Selecting?
    case StopSubs => s.main.StoppingSubs?
    case WaitReturns => s.main.Waiting? && s.wg == 0
    case GatewayFails => s.gateway.Serving?
    case GatewayReports => s.gateway.Failed? && s.quit < QUIT_CAPACITY
    case GatewayReturns => s.gateway.Serving? && s.gatewayCloser.Finished?
    case CloseGateway => s.gatewayCloser.Spawned?
    case ApiFails => s.api.Serving?
    case ApiReports => s.api.Failed? && s.quit < QUIT_CAPACITY
    case ApiReturns => s.api.Serving? && s.apiCloser.Finished?
    case CloseApi => s.apiCloser.Spawned?
    case TimerFires => s.collector.Selecting? && s.timer.Armed? && s.timer.deadline <= s.now
    case EndGc => s.collector.Collecting?
    case ResetTimer => s.collector.Resetting?
    case Signal => true
    case Tick => true
  }

  /** A goroutine leaving the wait group. */
  function Leave(s: State): State {
    s.(wg := if s.wg == 0 then 0 else s.wg - 1)
  }

  function Next(s: State, a: Action): State {
    match a
    case StartGateway => s.(main := InStartupGc, gateway := Serving, wg := s.wg + 1)
    case EndStartupGc => s.(main := StartingApi, lastGcEnd := Some(s.now))
    case StartApi => s.(main := ArmingTimer, api := Serving, wg := s.wg + 1)
    case ArmTimer =>
      if s.interval > 0 then
        s.(main := AwaitingQuit, timer := Armed(s.now + s.interval), collector := Selecting, wg := s.wg + 1)
      else
        s.(main := AwaitingQuit)
    case ReceiveQuit => s.(main := ClosingGateway, quit := if s.quit == 0 then 0 else s.quit - 1)
    case SpawnGatewayClose => s.(main := ClosingApi, gatewayCloser := Spawned)
    case SpawnApiClose => s.(main := StoppingTimer, apiCloser := Spawned)
    case StopTimer =>
      if s.timer.NoTimer? then s.(main := StoppingSubs) else s.(main := SendingDone, timer := Disarmed)
    case SendDone => Leave(s.(main := StoppingSubs, collector := Stopped, meetings := s.meetings + 1))
    case StopSubs => s.(main := Waiting)
    case WaitReturns => s.(main := Returned)
    case GatewayFails => s.(gateway := Failed)
    case GatewayReports => Leave(s.(gateway := Reported, quit := s.quit + 1))
    case GatewayReturns => Leave(s.(gateway := Closed))
    case CloseGateway => s.(gatewayCloser := Finished)
    case ApiFails => s.(api := Failed)
    case ApiReports => Leave(s.(api := Reported, quit := s.quit + 1))
    case ApiReturns => Leave(s.(api := Closed))
    case CloseApi => s.(apiCloser := Finished)
    case TimerFires => s.(timer := Disarmed, collector := Collecting)
    case EndGc => s.(collector := Resetting, lastGcEnd := Some(s.now))
    case ResetTimer => s.(collector := Selecting, timer := Armed(s.now + s.interval))
    // signal.Notify drops a signal that finds the channel full
    case Signal => if s.quit < QUIT_CAPACITY then s.(quit := s.quit + 1, signals := s.signals + 1) else s
    case Tick => s.(now := s.now + 1)
  }

  // ----- Runs -----

  predicate ValidRun(s: State, run: seq<Action>)
    decreases |run|
  {
    |run| > 0 ==> Enabled(s, run[0]) && ValidRun(Next(s, run[0]), run[1..])
  }

  function After(s: State, run: seq<Action>): State
    decreases |run|
  {
    if |run| == 0 then s else After(Next(s, run[0]), run[1..])
  }

  lemma {:induction false} Extend(s: State, run: seq<Action>, a: Action)
    requires ValidRun(s, run) && Enabled(After(s, run), a)
    ensures ValidRun(s, run + [a]) && After(s, run + [a]) == Next(After(s, run), a)
    decreases |run|
  {
    if |run| == 0 {
      assert ValidRun(Next(s, a), []);
      assert (run + [a])[1..] == [];
    } else {
      Extend(Next(s, run[0]), run[1..], a);
      assert (run + [a])[1..] == run[1..] + [a];
    }
  }

  // ----- Invariant -----

  function Live(v: Server): nat { if v.Serving? || v.Failed? then 1 else 0 }

  function ReportedBy(v: Server): nat { if v.Reported? then 1 else 0 }

  predicate CollectorLive(c: Collector) { c.Selecting? || c.Collecting? || c.Resetting? }

  /** Position of main, in program order. */
  function Pc(m: Main): nat {
    match m
    case StartingGateway => 0 case InStartupGc => 1 case StartingApi => 2 case ArmingTimer => 3
    case AwaitingQuit => 4 case ClosingGateway => 5 case ClosingApi => 6 case StoppingTimer => 7
    case SendingDone => 8 case StoppingSubs => 9 case Waiting => 10 case Returned => 11
  }

  predicate ShuttingDown(s: State) { Pc(s.main) >= 5 }

  predicate GroupOk(s: State) {
    s.wg == Live(s.gateway) + Live(s.api) + (if CollectorLive(s.collector) then 1 else 0)
  }

  predicate QuitOk(s: State) {
    && s.quit <= QUIT_CAPACITY
    && s.quit + (if ShuttingDown(s) then 1 else 0) == s.signals + ReportedBy(s.gateway) + ReportedBy(s.api)
  }

  predicate StartedOk(s: State) {
    && (s.gateway.Unstarted? <==> Pc(s.main) == 0)
    && (s.api.Unstarted? <==> Pc(s.main) <= 2)
    && (s.gatewayCloser.Unspawned? <==> Pc(s.main) <= 5)
    && (s.apiCloser.Unspawned? <==> Pc(s.main) <= 6)
    && (s.main.Returned? ==> s.wg == 0)
  }

  predicate CollectorOk(s: State) {
    && (s.collector.Absent? <==> s.interval <= 0 || Pc(s.main) <= 3)
    && (s.timer.NoTimer? <==> s.collector.Absent?)
    && (s.collector.Stopped? <==> s.interval > 0 && Pc(s.main) >= 9)
    && s.meetings == (if s.collector.Stopped? then 1 else 0)
    && (s.main.SendingDone? ==> s.interval > 0)
  }

  predicate TimingOk(s: State) {
    && (s.lastGcEnd.None? <==> Pc(s.main) <= 1)
    && (s.lastGcEnd.Some? ==> s.lastGcEnd.value <= s.now)
    && (s.collector.Collecting? || s.collector.Resetting? ==> s.timer.Disarmed?)
    && (s.timer.Armed? && s.lastGcEnd.Some? ==> s.timer.deadline >= s.lastGcEnd.value + s.interval)
    && (s.collector.Selecting? && s.timer.Disarmed? ==> Pc(s.main) >= 8)
  }

  predicate ClosersOk(s: State) {
    && (s.gateway.Closed? ==> s.gatewayCloser.Finished?)
    && (s.api.Closed? ==> s.apiCloser.Finished?)
  }

  predicate Inv(s: State) {
    GroupOk(s) && QuitOk(s) && StartedOk(s) && CollectorOk(s) && TimingOk(s) && ClosersOk(s)
  }

  lemma StepKeepsGroup(s: State, a: Action)
    requires GroupOk(s) && StartedOk(s) && CollectorOk(s) && Enabled(s, a)
    ensures GroupOk(Next(s, a))
  {
  }

  lemma StepKeepsQuit(s: State, a: Action)
    requires QuitOk(s) && StartedOk(s) && Enabled(s, a)
    ensures QuitOk(Next(s, a))
  {
  }

  lemma StepKeepsStarted(s: State, a: Action)
    requires StartedOk(s) && Enabled(s, a)
    ensures StartedOk(Next(s, a))
  {
  }

  lemma StepKeepsCollector(s: State, a: Action)
    requires CollectorOk(s) && Enabled(s, a)
    ensures CollectorOk(Next(s, a))
  {
  }

  lemma StepKeepsTiming(s: State, a: Action)
    requires TimingOk(s) && CollectorOk(s) && Enabled(s, a)
    ensures TimingOk(Next(s, a))
  {
  }

  lemma StepKeepsClosers(s: State, a: Action)
    requires ClosersOk(s) && StartedOk(s) && Enabled(s, a)
    ensures ClosersOk(Next(s, a))
  {
  }

  lemma StepKeepsInv(s: State, a: Action)
    requires Inv(s) && Enabled(s, a)
    ensures Inv(Next(s, a))
  {
    StepKeepsGroup(s, a);
    StepKeepsQuit(s, a);
    StepKeepsStarted(s, a);
    StepKeepsCollector(s, a);
    StepKeepsTiming(s, a);
    StepKeepsClosers(s, a);
  }

  lemma {:induction false} RunKeepsInv(s: State, run: seq<Action>)
    requires Inv(s) && ValidRun(s, run)
    ensures Inv(After(s, run))
    ensures After(s, run).interval == s.interval
    decreases |run|
  {
    if |run| > 0 {
      StepKeepsInv(s, run[0]);
      RunKeepsInv(Next(s, run[0]), run[1..]);
    }
  }

  // ----- Safety -----

  /** The number of periodicGC calls under way. */
  function ActiveGcs(s: State): nat {
    (if s.main.InStartupGc? then 1 else 0) + (if s.collector.Collecting? then 1 else 0)
  }

  /**
   In every run: at most one collection at a time, and main returns only when
   both servers and the collector have left.  The goroutines that close the
   servers are not waited for; `ClosersAtReturn` says what becomes of them.
   */
  lemma RunsAreSafe(interval: int, run: seq<Action>)
    requires ValidRun(Init(interval), run)
    ensures var s := After(Init(interval), run);
            && ActiveGcs(s) <= 1
            && (s.collector.Collecting? ==> !s.timer.Armed?)
            && (s.main.Returned? ==>
                  && (s.gateway.Reported? || s.gateway.Closed?)
                  && (s.api.Reported? || s.api.Closed?)
                  && s.collector == (if interval > 0 then Stopped else Absent)
                  && s.meetings == (if interval > 0 then 1 else 0))
  {
    RunKeepsInv(Init(interval), run);
  }

  /**
   In every run: the startup collection runs with the gateway started and
   nothing else, the collector starts after both servers, and main shuts down
   only for an accepted signal or a reported failure, of which it takes one.
   */
  lemma RunsStartInOrder(interval: int, run: seq<Action>)
    requires ValidRun(Init(interval), run)
    ensures var s := After(Init(interval), run);
            var received := if ShuttingDown(s) then 1 else 0;
            && (s.main.InStartupGc? ==> !s.gateway.Unstarted? && s.api.Unstarted? && s.collector.Absent?)
            && (!s.api.Unstarted? ==> !s.gateway.Unstarted? && s.lastGcEnd.Some?)
            && (!s.collector.Absent? ==> !s.api.Unstarted? && interval > 0)
            && (!s.gatewayCloser.Unspawned? || !s.apiCloser.Unspawned? ==> ShuttingDown(s))
            && s.quit + received == s.signals + ReportedBy(s.gateway) + ReportedBy(s.api)
  {
    RunKeepsInv(Init(interval), run);
  }

  lemma LastEndMovesOn(s: State, a: Action)
    requires Inv(s) && s.lastGcEnd.Some? && Enabled(s, a)
    ensures Next(s, a).lastGcEnd.Some? && Next(s, a).lastGcEnd.value >= s.lastGcEnd.value
  {
  }

  lemma {:induction false} LastEndOnlyMovesOn(s: State, run: seq<Action>)
    requires Inv(s) && s.lastGcEnd.Some? && ValidRun(s, run)
    ensures var t := After(s, run); t.lastGcEnd.Some? && t.lastGcEnd.value >= s.lastGcEnd.value
    decreases |run|
  {
    if |run| > 0 {
      StepKeepsInv(s, run[0]);
      LastEndMovesOn(s, run[0]);
      LastEndOnlyMovesOn(Next(s, run[0]), run[1..]);
    }
  }

  /**
   In every run, a scheduled collection starts at least one interval after any
   collection before it has ended, be it a scheduled one or the one at startup.
   */
  lemma CollectionsAreSeparated(interval: int, before: seq<Action>, end: Action, between: seq<Action>)
    requires end.EndGc? || end.EndStartupGc?
    requires ValidRun(Init(interval), before) && Enabled(After(Init(interval), before), end)
    requires ValidRun(Next(After(Init(interval), before), end), between)
    requires Enabled(After(Next(After(Init(interval), before), end), between), TimerFires)
    ensures var ended := After(Init(interval), before);
            var starts := After(Next(ended, end), between);
            ActiveGcs(starts) == 0 && interval > 0 && starts.now >= ended.now + interval
  {
    var ended := After(Init(interval), before);
    RunKeepsInv(Init(interval), before);
    StepKeepsInv(ended, end);
    LastEndOnlyMovesOn(Next(ended, end), between);
    RunKeepsInv(Next(ended, end), between);
  }

  /** Nothing but a firing, a stop or the end of the collector changes an armed timer it waits for. */
  lemma {:induction false} ArmedStays(s: State, run: seq<Action>)
    requires Inv(s) && ValidRun(s, run) && s.collector.Selecting? && s.timer.Armed?
    requires TimerFires !in run && StopTimer !in run && SendDone !in run
    ensures After(s, run).collector.Selecting? && After(s, run).timer == s.timer
    decreases |run|
  {
    if |run| > 0 {
      assert run[0] in run && forall a :: a in run[1..] ==> a in run;
      StepKeepsInv(s, run[0]);
      ArmedStays(Next(s, run[0]), run[1..]);
    }
  }

  lemma ArmingArms(s: State, arm: Action)
    requires CollectorOk(s) && s.interval > 0 && (arm.ArmTimer? || arm.ResetTimer?) && Enabled(s, arm)
    ensures Next(s, arm).collector.Selecting? && Next(s, arm).timer == Armed(s.now + s.interval)
  {
  }

  /**
   In every run: once the timer is armed, at first or after a collection, the
   next collection can start exactly when the interval is over, whatever the
   others do in the meantime, short of stopping the timer or the collector.
   */
  lemma TimerIsDueIff(interval: int, before: seq<Action>, arm: Action, during: seq<Action>)
    requires interval > 0 && (arm.ArmTimer? || arm.ResetTimer?)
    requires ValidRun(Init(interval), before) && Enabled(After(Init(interval), before), arm)
    requires ValidRun(Next(After(Init(interval), before), arm), during)
    requires TimerFires !in during && StopTimer !in during && SendDone !in during
    ensures var armed := After(Init(interval), before);
            var later := After(Next(armed, arm), during);
            Enabled(later, TimerFires) <==> later.now >= armed.now + interval
  {
    var armed := After(Init(interval), before);
    RunKeepsInv(Init(interval), before);
    StepKeepsInv(armed, arm);
    ArmingArms(armed, arm);
    ArmedStays(Next(armed, arm), during);
  }

  // ----- Stopping the timer -----

  /** No timer is running and nobody is left to arm one. */
  predicate Quiet(s: State) {
    && !s.timer.Armed?
    && Pc(s.main) >= 8
    && !s.collector.Collecting? && !s.collector.Resetting?
  }

  lemma {:induction false} QuietForever(s: State, run: seq<Action>)
    requires Inv(s) && Quiet(s) && ValidRun(s, run)
    ensures TimerFires !in run
    decreases |run|
  {
    if |run| > 0 {
      StepKeepsInv(s, run[0]);
      QuietForever(Next(s, run[0]), run[1..]);
      assert run == [run[0]] + run[1..];
    }
  }

  function Ticks(n: nat): (run: seq<Action>)
    ensures |run| == n
  {
    if n == 0 then [] else [Tick] + Ticks(n - 1)
  }

  lemma {:induction false} TicksPassTime(s: State, n: nat)
    ensures ValidRun(s, Ticks(n)) && After(s, Ticks(n)) == s.(now := s.now + n)
    decreases n
  {
    if n > 0 {
      TicksPassTime(Next(s, Tick), n - 1);
      assert Ticks(n)[1..] == Ticks(n - 1);
    }
  }

  lemma {:induction false} Chain(s: State, first: seq<Action>, second: seq<Action>)
    requires ValidRun(s, first) && ValidRun(After(s, first), second)
    ensures ValidRun(s, first + second) && After(s, first + second) == After(After(s, first), second)
    decreases |second|
  {
    if |second| == 0 {
      assert first + second == first;
    } else {
      Extend(s, first, second[0]);
      Chain(s, first + [second[0]], second[1..]);
      assert first + second == first + [second[0]] + second[1..];
    }
  }

  /** A collection under way when the timer is stopped re-arms it, and another can follow. */
  lemma CollectionAfterStop(t: State) returns (run: seq<Action>)
    requires t.interval > 0 && (t.collector.Collecting? || t.collector.Resetting?)
    ensures ValidRun(t, run) && TimerFires in run
  {
    run := [];
    if t.collector.Collecting? {
      Extend(t, run, EndGc);
      run := run + [EndGc];
    }
    Extend(t, run, ResetTimer);
    run := run + [ResetTimer];
    var armed := After(t, run);
    TicksPassTime(armed, armed.interval);
    Chain(t, run, Ticks(armed.interval));
    run := run + Ticks(armed.interval);
    Extend(t, run, TimerFires);
    run := run + [TimerFires];
  }

  /**
   Stopping the timer rules out another collection exactly when none is under
   way at that moment: a running collection re-arms the timer when it ends.
   */
  lemma StopPreventsCollections(s: State)
    requires Inv(s) && s.main.StoppingTimer?
    ensures (exists run :: ValidRun(Next(s, StopTimer), run) && TimerFires in run)
            <==> s.collector.Collecting? || s.collector.Resetting?
  {
    var t := Next(s, StopTimer);
    StepKeepsInv(s, StopTimer);
    if s.collector.Collecting? || s.collector.Resetting? {
      var run := CollectionAfterStop(t);
    } else {
      forall run | ValidRun(t, run) ensures TimerFires !in run { QuietForever(t, run); }
    }
  }

  /** A run that reaches `s`. */
  ghost predicate Reaches(interval: int, run: seq<Action>, s: State) {
    ValidRun(Init(interval), run) && After(Init(interval), run) == s
  }

  lemma Go(interval: int, run: seq<Action>, s: State, a: Action) returns (longer: seq<Action>, t: State)
    requires Reaches(interval, run, s) && Enabled(s, a)
    ensures t == Next(s, a) && Reaches(interval, longer, t)
  {
    Extend(Init(interval), run, a);
    longer, t := run + [a], Next(s, a);
  }

  /** Everything runs, and the interval is over. */
  function Due(interval: nat): State {
    State(interval, AwaitingQuit, Serving, Serving, Unspawned, Unspawned, Selecting, Armed(interval),
          0, 3, 0, 0, interval, Some(0))
  }

  lemma DueIsReachable(interval: nat) returns (run: seq<Action>)
    requires interval > 0
    ensures Reaches(interval, run, Due(interval))
  {
    var s := Init(interval);
    run := [];
    run, s := Go(interval, run, s, StartGateway);
    run, s := Go(interval, run, s, EndStartupGc);
    run, s := Go(interval, run, s, StartApi);
    run, s := Go(interval, run, s, ArmTimer);
    TicksPassTime(s, interval);
    Chain(Init(interval), run, Ticks(interval));
    run := run + Ticks(interval);
  }

  /** Whatever the interval: a run from the start in which a collection starts after the timer was stopped. */
  lemma RunWithCollectionAfterStop(interval: nat) returns (before: seq<Action>, after: seq<Action>)
    requires interval > 0
    ensures ValidRun(Init(interval), before + [StopTimer] + after) && TimerFires in after
    ensures After(Init(interval), before).main.StoppingTimer? && After(Init(interval), before).collector.Collecting?
  {
    before := DueIsReachable(interval);
    var s := Due(interval);
    before, s := Go(interval, before, s, TimerFires);
    before, s := Go(interval, before, s, Signal);
    before, s := Go(interval, before, s, ReceiveQuit);
    before, s := Go(interval, before, s, SpawnGatewayClose);
    before, s := Go(interval, before, s, SpawnApiClose);
    Extend(Init(interval), before, StopTimer);
    after := CollectionAfterStop(Next(s, StopTimer));
    Chain(Init(interval), before + [StopTimer], after);
  }

  // ----- Progress -----

  predicate CanProgress(s: State) {
    exists a :: IsProgress(a) && Enabled(s, a)
  }

  /** Servers that have failed so far, whether they could report it or not. */
  function Failures(s: State): nat {
    (if s.gateway.Failed? || s.gateway.Reported? then 1 else 0) + (if s.api.Failed? || s.api.Reported? then 1 else 0)
  }

  /** No server has failed, or the accepted signals and the failures are at most four together. */
  predicate ChannelSuffices(s: State) {
    Failures(s) == 0 || s.signals + Failures(s) <= 4
  }

  /** A step some goroutine can take during shutdown without a server failing. */
  function Pick(s: State): Action {
    match s.main
    case ClosingGateway => SpawnGatewayClose
    case ClosingApi => SpawnApiClose
    case StoppingTimer => StopTimer
    case SendingDone =>
      if s.collector.Collecting? then EndGc else if s.collector.Resetting? then ResetTimer else SendDone
    case StoppingSubs => StopSubs
    case _ =>
      if s.gatewayCloser.Spawned? then CloseGateway
      else if s.apiCloser.Spawned? then CloseApi
      else if s.gateway.Serving? then GatewayReturns
      else if s.api.Serving? then ApiReturns
      else if s.gateway.Failed? then GatewayReports
      else if s.api.Failed? then ApiReports
      else WaitReturns
  }

  lemma PickIsEnabled(s: State)
    requires Inv(s) && ShuttingDown(s) && !s.main.Returned? && ChannelSuffices(s)
    ensures IsProgress(Pick(s)) && Enabled(s, Pick(s))
  {
  }

  /** Main waits forever for a server that cannot report its failure. */
  predicate Wedged(s: State) {
    ShuttingDown(s) && !s.main.Returned? && !CanProgress(s)
  }

  lemma {:induction false} WedgedForever(s: State, run: seq<Action>)
    requires Inv(s) && Wedged(s) && ValidRun(s, run)
    ensures Wedged(After(s, run))
    decreases |run|
  {
    if |run| > 0 {
      var a := run[0];
      WedgedIffBlockedOnQuit(s);
      assert !IsProgram(a);
      var t := Next(s, a);
      StepKeepsInv(s, a);
      WedgedIffBlockedOnQuit(t);
      WedgedForever(t, run[1..]);
    }
  }

  /** The one way to get stuck: everything else is over and a failed server faces a full channel. */
  lemma WedgedIffBlockedOnQuit(s: State)
    requires Inv(s) && ShuttingDown(s)
    ensures Wedged(s) <==>
            && s.main.Waiting? && s.quit == QUIT_CAPACITY
            && (s.gateway.Failed? || s.api.Failed?)
            && !s.gateway.Serving? && !s.api.Serving?
            && s.gatewayCloser.Finished? && s.apiCloser.Finished?
  {
    if !s.main.Returned? && Enabled(s, Pick(s)) {
      assert IsProgress(Pick(s));
    }
    if Enabled(s, EndGc) || Enabled(s, TimerFires) || Enabled(s, ResetTimer) {
      assert !s.main.Waiting?;
    }
  }

  // ----- How many signals and failures are too many -----

  /** No run with at most so many accepted signals and server failures ever gets stuck. */
  ghost predicate NeverWedged(interval: int, signals: nat, failures: nat) {
    forall run :: ValidRun(Init(interval), run)
                  && After(Init(interval), run).signals <= signals && Failures(After(Init(interval), run)) <= failures
                  ==> !Wedged(After(Init(interval), run))
  }

  /** The channel is full when main comes to wait on it; `failed` says whether the api server has failed, too. */
  function Flooded(interval: int, failed: bool): State {
    var periodic := interval > 0;
    State(interval, AwaitingQuit, Failed, if failed then Failed else Serving, Unspawned, Unspawned,
          if periodic then Selecting else Absent, if periodic then Armed(interval) else NoTimer,
          3, if periodic then 3 else 2, 3, 0, 0, Some(0))
  }

  lemma FloodIsReachable(interval: int, failed: bool) returns (run: seq<Action>)
    ensures Reaches(interval, run, Flooded(interval, failed))
  {
    var s := Init(interval);
    run := [];
    run, s := Go(interval, run, s, StartGateway);
    run, s := Go(interval, run, s, GatewayFails);
    run, s := Go(interval, run, s, EndStartupGc);
    run, s := Go(interval, run, s, StartApi);
    if failed {
      run, s := Go(interval, run, s, ApiFails);
    }
    run, s := Go(interval, run, s, ArmTimer);
    run, s := Go(interval, run, s, Signal);
    run, s := Go(interval, run, s, Signal);
    run, s := Go(interval, run, s, Signal);
  }

  /** Main has shut everything else down and waits for what is left of the servers. */
  function Drained(interval: int, failed: bool): State {
    var periodic := interval > 0;
    State(interval, Waiting, Failed, if failed then Failed else Serving, Finished, Finished,
          if periodic then Stopped else Absent, if periodic then Disarmed else NoTimer,
          2, 2, 3, if periodic then 1 else 0, 0, Some(0))
  }

  /** Both closing goroutines are done, and main has yet to stop the timer. */
  function Closing(interval: int, failed: bool): State {
    Flooded(interval, failed).(main := StoppingTimer, gatewayCloser := Finished, apiCloser := Finished, quit := 2)
  }

  lemma ClosingIsReachable(interval: int, failed: bool) returns (run: seq<Action>)
    ensures Reaches(interval, run, Closing(interval, failed))
  {
    run := FloodIsReachable(interval, failed);
    var s := Flooded(interval, failed);
    run, s := Go(interval, run, s, ReceiveQuit);
    run, s := Go(interval, run, s, SpawnGatewayClose);
    run, s := Go(interval, run, s, CloseGateway);
    run, s := Go(interval, run, s, SpawnApiClose);
    run, s := Go(interval, run, s, CloseApi);
  }

  lemma DrainIsReachable(interval: int, failed: bool) returns (run: seq<Action>)
    ensures Reaches(interval, run, Drained(interval, failed))
  {
    run := ClosingIsReachable(interval, failed);
    var s := Closing(interval, failed);
    run, s := Go(interval, run, s, StopTimer);
    if interval > 0 {
      run, s := Go(interval, run, s, SendDone);
    }
    run, s := Go(interval, run, s, StopSubs);
  }

  /** Three accepted signals and two failing servers leave main waiting forever. */
  lemma ThreeSignalsWedge(interval: int) returns (run: seq<Action>)
    ensures ValidRun(Init(interval), run)
    ensures var s := After(Init(interval), run); s.signals == 3 && Failures(s) == 2 && Wedged(s)
  {
    run := DrainIsReachable(interval, true);
    var s;
    run, s := Go(interval, run, Drained(interval, true), GatewayReports);
    RunKeepsInv(Init(interval), run);
    WedgedIffBlockedOnQuit(s);
  }

  /** So do four accepted signals and one failing server. */
  lemma FourSignalsWedge(interval: int) returns (run: seq<Action>)
    ensures ValidRun(Init(interval), run)
    ensures var s := After(Init(interval), run); s.signals == 4 && Failures(s) == 1 && Wedged(s)
  {
    run := DrainIsReachable(interval, false);
    var s;
    run, s := Go(interval, run, Drained(interval, false), ApiReturns);
    run, s := Go(interval, run, s, Signal);
    RunKeepsInv(Init(interval), run);
    WedgedIffBlockedOnQuit(s);
  }

  /**
   Some run gets stuck exactly when a server may fail and signals and failures
   reach five: four signals suffice for one failing server, three for two.
   */
  lemma NeverWedgedIff(interval: int, signals: nat, failures: nat)
    ensures NeverWedged(interval, signals, failures)
            <==> failures == 0 || signals + (if failures < 2 then failures else 2) <= 4
  {
    if failures == 0 || signals + (if failures < 2 then failures else 2) <= 4 {
      forall run | ValidRun(Init(interval), run)
                   && After(Init(interval), run).signals <= signals && Failures(After(Init(interval), run)) <= failures
        ensures !Wedged(After(Init(interval), run))
      {
        var s := After(Init(interval), run);
        RunKeepsInv(Init(interval), run);
        if ShuttingDown(s) && !s.main.Returned? {
          PickIsEnabled(s);
        }
      }
    } else if failures == 1 {
      var run := FourSignalsWedge(interval);
    } else {
      var run := ThreeSignalsWedge(interval);
    }
  }

  // ----- The goroutines that close the servers -----

  /** Both servers have failed and said so before main receives from quit. */
  function BothReported(interval: int): State {
    var periodic := interval > 0;
    State(interval, AwaitingQuit, Reported, Reported, Unspawned, Unspawned,
          if periodic then Selecting else Absent, if periodic then Armed(interval) else NoTimer,
          2, if periodic then 1 else 0, 0, 0, 0, Some(0))
  }

  lemma BothReportedIsReachable(interval: int) returns (run: seq<Action>)
    ensures Reaches(interval, run, BothReported(interval))
  {
    var s := Init(interval);
    run := [];
    run, s := Go(interval, run, s, StartGateway);
    run, s := Go(interval, run, s, GatewayFails);
    run, s := Go(interval, run, s, GatewayReports);
    run, s := Go(interval, run, s, EndStartupGc);
    run, s := Go(interval, run, s, StartApi);
    run, s := Go(interval, run, s, ApiFails);
    run, s := Go(interval, run, s, ApiReports);
    run, s := Go(interval, run, s, ArmTimer);
  }

  /** A run in which main returns before either closing goroutine has done anything. */
  lemma ReturnLeavesClosers(interval: int) returns (run: seq<Action>)
    ensures ValidRun(Init(interval), run)
    ensures var s := After(Init(interval), run);
            && s.main.Returned? && s.gateway.Reported? && s.api.Reported?
            && s.gatewayCloser.Spawned? && s.apiCloser.Spawned?
  {
    run := BothReportedIsReachable(interval);
    var s := BothReported(interval);
    run, s := Go(interval, run, s, ReceiveQuit);
    run, s := Go(interval, run, s, SpawnGatewayClose);
    run, s := Go(interval, run, s, SpawnApiClose);
    run, s := Go(interval, run, s, StopTimer);
    if interval > 0 {
      run, s := Go(interval, run, s, SendDone);
    }
    run, s := Go(interval, run, s, StopSubs);
    run, s := Go(interval, run, s, WaitReturns);
  }

  /**
   Main can return before a server's closing goroutine has finished exactly
   when that server had failed and reported it.
   */
  lemma ClosersAtReturn(interval: int, ended: Server)
    ensures (exists run :: ValidRun(Init(interval), run) && After(Init(interval), run).main.Returned?
                           && After(Init(interval), run).gateway == ended
                           && !After(Init(interval), run).gatewayCloser.Finished?) <==> ended.Reported?
    ensures (exists run :: ValidRun(Init(interval), run) && After(Init(interval), run).main.Returned?
                           && After(Init(interval), run).api == ended
                           && !After(Init(interval), run).apiCloser.Finished?) <==> ended.Reported?
  {
    if ended.Reported? {
      var run := ReturnLeavesClosers(interval);
    } else {
      forall run | ValidRun(Init(interval), run) && After(Init(interval), run).main.Returned?
        ensures var s := After(Init(interval), run);
                && (s.gateway == ended ==> s.gatewayCloser.Finished?)
                && (s.api == ended ==> s.apiCloser.Finished?)
      {
        RunKeepsInv(Init(interval), run);
      }
    }
  }

  // ----- How long shutdown takes -----

  function ServerWork(v: Server): nat { if v.Serving? then 2 else if v.Failed? then 1 else 0 }

  function CloserWork(c: Closer): nat { if c.Finished? then 0 else 1 }

  /** Steps left before main returns, not counting further collections. */
  function Work(s: State): nat {
    (11 - Pc(s.main)) + ServerWork(s.gateway) + ServerWork(s.api)
    + CloserWork(s.gatewayCloser) + CloserWork(s.apiCloser)
    + (if s.collector.Collecting? then 2 else if s.collector.Resetting? then 1 else 0)
  }

  function Steps(run: seq<Action>): nat {
    if |run| == 0 then 0 else (if IsProgram(run[0]) then 1 else 0) + Steps(run[1..])
  }

  function Fires(run: seq<Action>): nat {
    if |run| == 0 then 0 else (if run[0].TimerFires? then 1 else 0) + Fires(run[1..])
  }

  /** A step of main. */
  predicate OfMain(a: Action) {
    || a.StartGateway? || a.EndStartupGc? || a.StartApi? || a.ArmTimer? || a.ReceiveQuit?
    || a.SpawnGatewayClose? || a.SpawnApiClose? || a.StopTimer? || a.SendDone? || a.StopSubs? || a.WaitReturns?
  }

  /** A step of the collector. */
  predicate OfCollector(a: Action) { a.TimerFires? || a.EndGc? || a.ResetTimer? }

  lemma MainUsesWork(s: State, a: Action)
    requires StartedOk(s) && ShuttingDown(s) && Enabled(s, a) && OfMain(a)
    ensures ShuttingDown(Next(s, a)) && Work(Next(s, a)) < Work(s)
  {
  }

  lemma CollectorUsesWork(s: State, a: Action)
    requires ShuttingDown(s) && Enabled(s, a) && OfCollector(a)
    ensures ShuttingDown(Next(s, a)) && Work(Next(s, a)) < Work(s) + (if a.TimerFires? then 3 else 0)
  {
  }

  /** The servers and the goroutines that close them. */
  lemma ServersUseWork(s: State, a: Action)
    requires ShuttingDown(s) && Enabled(s, a) && IsProgram(a) && !OfMain(a) && !OfCollector(a)
    ensures ShuttingDown(Next(s, a)) && Work(Next(s, a)) < Work(s)
  {
  }

  lemma StepUsesWork(s: State, a: Action)
    requires Inv(s) && ShuttingDown(s) && Enabled(s, a)
    ensures ShuttingDown(Next(s, a))
    ensures Work(Next(s, a)) + (if IsProgram(a) then 1 else 0) <= Work(s) + (if a.TimerFires? then 3 else 0)
  {
    if OfMain(a) {
      MainUsesWork(s, a);
    } else if OfCollector(a) {
      CollectorUsesWork(s, a);
    } else if IsProgram(a) {
      ServersUseWork(s, a);
    }
  }

  /** Every step of a goroutine uses up work; only a further collection adds some. */
  lemma {:induction false} WorkRunsOut(s: State, run: seq<Action>)
    requires Inv(s) && ShuttingDown(s) && ValidRun(s, run)
    ensures ShuttingDown(After(s, run))
    ensures Steps(run) + Work(After(s, run)) <= Work(s) + 3 * Fires(run)
    decreases |run|
  {
    if |run| == 0 {
    } else {
      var a, t, rest := run[0], Next(s, run[0]), run[1..];
      assert ValidRun(t, rest);
      StepKeepsInv(s, a);
      StepUsesWork(s, a);
      WorkRunsOut(t, rest);
      assert After(s, run) == After(t, rest);
    }
  }

  /** While the channel suffices, somebody can step and no failed server waits. */
  lemma NobodyIsHeldUp(s: State)
    requires Inv(s) && ShuttingDown(s) && ChannelSuffices(s)
    ensures !s.main.Returned? ==> CanProgress(s)
    ensures s.gateway.Failed? ==> Enabled(s, GatewayReports)
    ensures s.api.Failed? ==> Enabled(s, ApiReports)
  {
    if !s.main.Returned? { PickIsEnabled(s); }
  }

  /**
   Once main has received from quit the goroutines take at most 14 steps plus 3
   per further collection, whatever the interleaving, and a run that uses them
   all up has seen main return.  While no server has failed, or signals and
   failures are at most four, some goroutine can always step without a server
   failing, and no failed server is held up.
   */
  lemma ShutdownCompletes(interval: int, before: seq<Action>, during: seq<Action>)
    requires ValidRun(Init(interval), before) && After(Init(interval), before).main.ClosingGateway?
    requires ValidRun(After(Init(interval), before), during)
    ensures var s := After(After(Init(interval), before), during);
            && Steps(during) <= 14 + 3 * Fires(during)
            && (Steps(during) == 14 + 3 * Fires(during) ==> s.main.Returned? && s.wg == 0)
            && (ChannelSuffices(s) && !s.main.Returned? ==> CanProgress(s))
            && (ChannelSuffices(s) && s.gateway.Failed? ==> Enabled(s, GatewayReports))
            && (ChannelSuffices(s) && s.api.Failed? ==> Enabled(s, ApiReports))
  {
    var start := After(Init(interval), before);
    var s := After(start, during);
    RunKeepsInv(Init(interval), before);
    RunKeepsInv(start, during);
    WorkRunsOut(start, during);
    assert Work(start) <= 14 by { WorkAtReceipt(start); }
    if ChannelSuffices(s) { NobodyIsHeldUp(s); }
  }

  lemma WorkAtReceipt(s: State)
    requires Inv(s) && s.main.ClosingGateway?
    ensures Work(s) <= 14
  {
  }

  /** The collector never starts a collection while main is waiting to stop it. */
  predicate StopFirst(s: State, run: seq<Action>)
    requires ValidRun(s, run)
    decreases |run|
  {
    |run| > 0 ==> !(run[0].TimerFires? && s.main.SendingDone?) && StopFirst(Next(s, run[0]), run[1..])
  }

  lemma {:induction false} StopFirstEndsCollections(s: State, run: seq<Action>)
    requires Inv(s) && Pc(s.main) >= 8 && ValidRun(s, run) && StopFirst(s, run)
    ensures Fires(run) == 0
    decreases |run|
  {
    if |run| > 0 {
      StepKeepsInv(s, run[0]);
      StopFirstEndsCollections(Next(s, run[0]), run[1..]);
    }
  }

  /** If the waiting stop is preferred, at most 11 steps follow once the timer is stopped. */
  lemma StopFirstBoundsShutdown(s: State, run: seq<Action>)
    requires Inv(s) && s.main.StoppingTimer? && ValidRun(Next(s, StopTimer), run) && StopFirst(Next(s, StopTimer), run)
    ensures Steps(run) <= 11
    ensures Steps(run) == 11 ==> After(Next(s, StopTimer), run).main.Returned?
  {
    var t := Next(s, StopTimer);
    StepKeepsInv(s, StopTimer);
    StopFirstEndsCollections(t, run);
    WorkRunsOut(t, run);
    RunKeepsInv(t, run);
  }
}
