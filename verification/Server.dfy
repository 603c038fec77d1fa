/**
 The accept loop and its handlers as an interleaved step system: every order in which the
 loop, the handlers and the cancellation can take their steps is a run.
 */
module Server {

  const BACKOFF_INITIAL: nat := 5
  const BACKOFF_MAX: nat := 1000

  /**
   A connection: held by the loop; being handled, or its panic being recovered; closed;
   its slot given back; its handler done. Or dropped by the loop, which closes it.
   */
  datatype Phase = Pending | Working | Recovering | Closed | Released | Finished | Dropped

  /** Where the accept loop is; `Waiting` is for the handlers to be done. */
  datatype Place = Accepting | BackingOff | Holding | Acquired | Added | Waiting | Returned

  /** `conns` has every connection ever accepted; `failures` counts those since the last. */
  datatype State = State(
    place: Place, cancelled: bool, listening: bool, delay: nat, failures: nat,
    slots: nat, group: int, conns: seq<Phase>, closes: nat)

  datatype Step =
    | Cancel | CloseListener
    | AcceptOk | AcceptFail | BackoffElapsed | BackoffCancelled
    | AcquireSlot | DropConn | AddToGroup | Spawn | WaitDone
    | Panic(i: nat) | Close(i: nat) | Release(i: nat) | Done(i: nat)

  function Init(): State {
    State(Accepting, false, true, 0, 0, 0, 0, [], 0)
  }

  predicate Is(s: State, i: nat, p: Phase) {
    i < |s.conns| && s.conns[i] == p
  }

  predicate Enabled(maxConns: nat, s: State, step: Step) {
    match step
    case Cancel => !s.cancelled
    case CloseListener => s.cancelled && s.listening
    case AcceptOk => s.place.Accepting? && s.listening
    case AcceptFail => s.place.Accepting?
    case BackoffElapsed => s.place.BackingOff?
    case BackoffCancelled => s.place.BackingOff? && s.cancelled
    case AcquireSlot => s.place.Holding? && s.slots < maxConns
    case DropConn => s.place.Holding? && s.cancelled && s.conns != []
    case AddToGroup => s.place.Acquired?
    case Spawn => s.place.Added? && s.conns != []
    case WaitDone => s.place.Waiting? && s.group == 0
    case Panic(i) => Is(s, i, Working)
    case Close(i) => Is(s, i, Working) || Is(s, i, Recovering)
    case Release(i) => Is(s, i, Closed) && s.slots > 0
    case Done(i) => Is(s, i, Released)
  }

  function NextDelay(delay: nat): nat {
    var d := if delay == 0 then BACKOFF_INITIAL else delay * 2;
    if d > BACKOFF_MAX then BACKOFF_MAX else d
  }

  function Apply(maxConns: nat, s: State, step: Step): State
    requires Enabled(maxConns, s, step)
  {
    match step
    case Cancel => s.(cancelled := true)
    case CloseListener => s.(listening := false)
    case AcceptOk => s.(place := Holding, delay := 0, failures := 0, conns := s.conns + [Pending])
    case AcceptFail =>
      if s.cancelled then s.(place := Waiting)
      else s.(place := BackingOff, delay := NextDelay(s.delay), failures := s.failures + 1)
    case BackoffElapsed => s.(place := Accepting)
    case BackoffCancelled => s.(place := Waiting)
    case AcquireSlot => s.(place := Acquired, slots := s.slots + 1)
    case DropConn =>
      s.(place := Waiting, conns := s.conns[|s.conns| - 1 := Dropped], closes := s.closes + 1)
    case AddToGroup => s.(place := Added, group := s.group + 1)
    case Spawn => s.(place := Accepting, conns := s.conns[|s.conns| - 1 := Working])
    case WaitDone => s.(place := Returned)
    case Panic(i) => s.(conns := s.conns[i := Recovering])
    case Close(i) => s.(conns := s.conns[i := Closed], closes := s.closes + 1)
    case Release(i) => s.(conns := s.conns[i := Released], slots := s.slots - 1)
    case Done(i) => s.(conns := s.conns[i := Finished], group := s.group - 1)
  }

  /** `states` are those a run of Serve goes through, one step from each to the next. */
  ghost predicate IsRun(maxConns: nat, states: seq<State>) {
    && states != [] && states[0] == Init()
    && forall k :: 0 <= k < |states| - 1 ==> IsStep(maxConns, states[k], states[k + 1])
  }

  ghost predicate IsStep(maxConns: nat, s: State, s': State) {
    exists step :: Enabled(maxConns, s, step) && s' == Apply(maxConns, s, step)
  }

  // ---------- Counting connections ----------

  function Sum(conns: seq<Phase>, weight: Phase -> nat): nat {
    if conns == [] then 0
    else Sum(conns[..|conns| - 1], weight) + weight(conns[|conns| - 1])
  }

  lemma {:induction false} SumOfUpdate(conns: seq<Phase>, i: nat, p: Phase, weight: Phase -> nat)
    requires i < |conns|
    ensures Sum(conns[i := p], weight) + weight(conns[i]) == Sum(conns, weight) + weight(p)
    decreases |conns|
  {
    var n := |conns| - 1;
    if i < n {
      SumOfUpdate(conns[..n], i, p, weight);
      assert conns[i := p][..n] == conns[..n][i := p];
    } else {
      assert conns[i := p][..n] == conns[..n];
    }
  }

  lemma {:induction false} SumOfAppend(conns: seq<Phase>, p: Phase, weight: Phase -> nat)
    ensures Sum(conns + [p], weight) == Sum(conns, weight) + weight(p)
  {
    assert (conns + [p])[..|conns|] == conns;
  }

  lemma {:induction false} SumAtMost(conns: seq<Phase>, a: Phase -> nat, b: Phase -> nat)
    requires forall p :: a(p) <= b(p)
    ensures Sum(conns, a) <= Sum(conns, b)
    decreases |conns|
  {
    if conns != [] {
      SumAtMost(conns[..|conns| - 1], a, b);
    }
  }

  /** A sum of nothing but zeros, and the other way round. */
  lemma {:induction false} SumIsZero(conns: seq<Phase>, weight: Phase -> nat)
    ensures Sum(conns, weight) == 0 <==> forall p <- conns :: weight(p) == 0
    decreases |conns|
  {
    if conns != [] {
      var n := |conns| - 1;
      SumIsZero(conns[..n], weight);
      assert conns == conns[..n] + [conns[n]];
    }
  }

  function One(b: bool): nat {
    if b then 1 else 0
  }

  /** Connections inside handleConn. */
  function Inside(p: Phase): nat {
    One(p.Working? || p.Recovering?)
  }

  function HoldsSlot(p: Phase): nat {
    One(p.Working? || p.Recovering? || p.Closed?)
  }

  function InGroup(p: Phase): nat {
    One(p.Working? || p.Recovering? || p.Closed? || p.Released?)
  }

  function IsClosed(p: Phase): nat {
    One(p.Closed? || p.Released? || p.Finished? || p.Dropped?)
  }

  function IsOpen(p: Phase): nat {
    One(p.Pending? || p.Working? || p.Recovering?)
  }

  function IsPending(p: Phase): nat {
    One(p.Pending?)
  }

  function IsDropped(p: Phase): nat {
    One(p.Dropped?)
  }

  function IsFinished(p: Phase): nat {
    One(p.Finished?)
  }

  // ---------- What every step keeps ----------

  /** The loop holds a connection, the newest, exactly when it has not yet been passed on. */
  predicate Carrying(place: Place) {
    place.Holding? || place.Acquired? || place.Added?
  }

  ghost predicate Accounts(maxConns: nat, s: State) {
    && s.slots <= maxConns
    && s.slots == Sum(s.conns, HoldsSlot) + One(s.place.Acquired? || s.place.Added?)
    && s.group == Sum(s.conns, InGroup) + One(s.place.Added?)
    && s.closes == Sum(s.conns, IsClosed)
    && Sum(s.conns, IsPending) == One(Carrying(s.place))
    && (Carrying(s.place) ==> s.conns != [] && s.conns[|s.conns| - 1] == Pending)
    && (!s.listening || s.place.Waiting? || s.place.Returned? ==> s.cancelled)
    && (s.place.Returned? ==> s.group == 0)
    && Sum(s.conns, IsDropped) <= One(s.place.Waiting? || s.place.Returned?)
  }

  /** The delay after `failures` failures in a row: doubled each time, up to a second. */
  function Backoff(failures: nat): nat {
    if failures == 0 then 0
    else
      var d := BACKOFF_INITIAL * Power2(failures - 1);
      if d > BACKOFF_MAX then BACKOFF_MAX else d
  }

  function Power2(n: nat): (r: nat)
    ensures r > 0
  {
    if n == 0 then 1 else 2 * Power2(n - 1)
  }

  /** The effect on every count of one connection changing its phase. */
  lemma {:induction false} PhaseChanges(conns: seq<Phase>, i: nat, p: Phase)
    requires i < |conns|
    ensures Sum(conns[i := p], HoldsSlot) + HoldsSlot(conns[i]) == Sum(conns, HoldsSlot) + HoldsSlot(p)
    ensures Sum(conns[i := p], InGroup) + InGroup(conns[i]) == Sum(conns, InGroup) + InGroup(p)
    ensures Sum(conns[i := p], IsClosed) + IsClosed(conns[i]) == Sum(conns, IsClosed) + IsClosed(p)
    ensures Sum(conns[i := p], IsPending) + IsPending(conns[i]) == Sum(conns, IsPending) + IsPending(p)
    ensures Sum(conns[i := p], IsDropped) + IsDropped(conns[i]) == Sum(conns, IsDropped) + IsDropped(p)
  {
    SumOfUpdate(conns, i, p, IsDropped);
    SumOfUpdate(conns, i, p, HoldsSlot);
    SumOfUpdate(conns, i, p, InGroup);
    SumOfUpdate(conns, i, p, IsClosed);
    SumOfUpdate(conns, i, p, IsPending);
  }

  predicate OfHandler(step: Step) {
    step.Panic? || step.Close? || step.Release? || step.Done?
  }

  predicate ByLoop(step: Step) {
    step.AcceptOk? || step.DropConn? || step.Spawn?
  }

  lemma {:induction false} StepKeepsAccounts(maxConns: nat, s: State, step: Step)
    requires Accounts(maxConns, s) && Enabled(maxConns, s, step)
    ensures Accounts(maxConns, Apply(maxConns, s, step))
  {
    hide Accounts, Apply, Enabled;
    if OfHandler(step) {
      HandlerKeepsAccounts(maxConns, s, step);
    } else if ByLoop(step) {
      LoopKeepsAccounts(maxConns, s, step);
    } else {
      PlaceKeepsAccounts(maxConns, s, step);
    }
  }

  lemma {:induction false} HandlerKeepsAccounts(maxConns: nat, s: State, step: Step)
    requires OfHandler(step)
    requires Accounts(maxConns, s) && Enabled(maxConns, s, step)
    ensures Accounts(maxConns, Apply(maxConns, s, step))
  {
    hide Sum;
    match step {
      case Panic(i) => PhaseChanges(s.conns, i, Recovering);
      case Close(i) => PhaseChanges(s.conns, i, Closed);
      case Release(i) => PhaseChanges(s.conns, i, Released);
      case Done(i) => PhaseChanges(s.conns, i, Finished);
    }
  }

  lemma {:induction false} LoopKeepsAccounts(maxConns: nat, s: State, step: Step)
    requires ByLoop(step)
    requires Accounts(maxConns, s) && Enabled(maxConns, s, step)
    ensures Accounts(maxConns, Apply(maxConns, s, step))
  {
    hide Sum;
    match step {
      case AcceptOk =>
        SumOfAppend(s.conns, Pending, HoldsSlot);
        SumOfAppend(s.conns, Pending, InGroup);
        SumOfAppend(s.conns, Pending, IsClosed);
        SumOfAppend(s.conns, Pending, IsPending);
        SumOfAppend(s.conns, Pending, IsDropped);
      case DropConn => PhaseChanges(s.conns, |s.conns| - 1, Dropped);
      case Spawn => PhaseChanges(s.conns, |s.conns| - 1, Working);
    }
  }

  lemma PlaceKeepsAccounts(maxConns: nat, s: State, step: Step)
    requires !OfHandler(step) && !ByLoop(step)
    requires Accounts(maxConns, s) && Enabled(maxConns, s, step)
    ensures Accounts(maxConns, Apply(maxConns, s, step))
  {
  }

  lemma {:induction false} StepKeepsDelay(maxConns: nat, s: State, step: Step)
    requires s.delay == Backoff(s.failures) && Enabled(maxConns, s, step)
    ensures var s' := Apply(maxConns, s, step);
            s'.delay == Backoff(s'.failures)
  {
  }

  /** In every state of every run the books balance. */
  lemma {:induction false} RunKeepsAccounts(maxConns: nat, states: seq<State>, k: nat)
    requires IsRun(maxConns, states) && k < |states|
    ensures Accounts(maxConns, states[k]) && states[k].delay == Backoff(states[k].failures)
    decreases k
  {
    if k > 0 {
      RunKeepsAccounts(maxConns, states, k - 1);
      assert IsStep(maxConns, states[k - 1], states[k - 1 + 1]);
      var step :| Enabled(maxConns, states[k - 1], step) && states[k] == Apply(maxConns, states[k - 1], step);
      StepKeepsAccounts(maxConns, states[k - 1], step);
      StepKeepsDelay(maxConns, states[k - 1], step);
    }
  }

  // ---------- Safety of every run ----------

  /** No more than `maxConns` are handled at once, and at most one more is open. */
  lemma {:induction false} HandledBounded(maxConns: nat, states: seq<State>, k: nat)
    requires IsRun(maxConns, states) && k < |states|
    ensures Sum(states[k].conns, Inside) <= states[k].slots <= maxConns
    ensures Sum(states[k].conns, IsOpen) <= maxConns + 1
  {
    var conns := states[k].conns;
    RunKeepsAccounts(maxConns, states, k);
    SumAtMost(conns, Inside, HoldsSlot);
    OpenSplit(conns);
  }

  lemma {:induction false} OpenSplit(conns: seq<Phase>)
    ensures Sum(conns, IsOpen) == Sum(conns, Inside) + Sum(conns, IsPending)
    decreases |conns|
  {
    if conns != [] {
      OpenSplit(conns[..|conns| - 1]);
    }
  }

  /** Every accepted connection is being carried, dropped, live or finished. */
  lemma {:induction false} AcceptedAccounted(maxConns: nat, states: seq<State>, k: nat)
    requires IsRun(maxConns, states) && k < |states|
    ensures var s := states[k];
      |s.conns| == One(Carrying(s.place)) + Sum(s.conns, IsDropped) + Sum(s.conns, InGroup)
                   + Sum(s.conns, IsFinished)
  {
    RunKeepsAccounts(maxConns, states, k);
    PhasesSplit(states[k].conns);
  }

  lemma {:induction false} PhasesSplit(conns: seq<Phase>)
    ensures |conns| == Sum(conns, IsPending) + Sum(conns, IsDropped) + Sum(conns, InGroup)
                       + Sum(conns, IsFinished)
    ensures |conns| == Sum(conns, IsOpen) + Sum(conns, IsClosed)
    decreases |conns|
  {
    if conns != [] {
      PhasesSplit(conns[..|conns| - 1]);
    }
  }

  /** A handler gives back its slot without waiting, and never leaves the group twice. */
  lemma {:induction false} HandlersUnblocked(maxConns: nat, states: seq<State>, k: nat, i: nat)
    requires IsRun(maxConns, states) && k < |states|
    ensures Is(states[k], i, Closed) ==> Enabled(maxConns, states[k], Release(i))
    ensures Is(states[k], i, Released) ==> states[k].group > 0
  {
    var conns := states[k].conns;
    RunKeepsAccounts(maxConns, states, k);
    SumIsZero(conns, HoldsSlot);
    SumIsZero(conns, InGroup);
    if i < |conns| {
      assert conns[i] in conns;
    }
  }

  /**
   When Serve returns it was cancelled, no handler is left, and every accepted connection
   has been closed, once: all by their handlers, except at most one that was dropped.
   */
  lemma {:induction false} ReturnedIsQuiet(maxConns: nat, states: seq<State>, k: nat)
    requires IsRun(maxConns, states) && k < |states| && states[k].place.Returned?
    ensures var s := states[k];
      && s.cancelled && s.slots == 0 && s.group == 0
      && (forall p <- s.conns :: p.Finished? || p.Dropped?)
      && s.closes == |s.conns| && Sum(s.conns, IsDropped) <= 1
  {
    var conns := states[k].conns;
    RunKeepsAccounts(maxConns, states, k);
    SumIsZero(conns, InGroup);
    SumIsZero(conns, IsPending);
    SumAtMost(conns, HoldsSlot, InGroup);
    PhasesSplit(conns);
    OpenSplit(conns);
    SumAtMost(conns, Inside, InGroup);
  }

  // ---------- Shutting down ----------

  /** The steps a handler still has to take. */
  function StepsLeft(p: Phase): nat {
    match p
    case Pending => 0
    case Working => 4
    case Recovering => 3
    case Closed => 2
    case Released => 1
    case Finished => 0
    case Dropped => 0
  }

  /** The most steps the loop has to take once the listener is closed. */
  function LoopLeft(place: Place): nat {
    match place
    case Returned => 0
    case Waiting => 1
    case Accepting => 2
    case BackingOff => 3
    case Added => 7
    case Acquired => 8
    case Holding => 9
  }

  function Rank(s: State): nat {
    LoopLeft(s.place) + Sum(s.conns, StepsLeft)
  }

  lemma {:induction false} StepLowersRank(maxConns: nat, s: State, step: Step)
    requires Accounts(maxConns, s) && Enabled(maxConns, s, step) && !s.listening
    ensures var s' := Apply(maxConns, s, step);
            !s'.listening && Rank(s') < Rank(s)
  {
    hide Sum;
    match step {
      case DropConn => SumOfUpdate(s.conns, |s.conns| - 1, Dropped, StepsLeft);
      case Spawn => SumOfUpdate(s.conns, |s.conns| - 1, Working, StepsLeft);
      case Panic(i) => SumOfUpdate(s.conns, i, Recovering, StepsLeft);
      case Close(i) => SumOfUpdate(s.conns, i, Closed, StepsLeft);
      case Release(i) => SumOfUpdate(s.conns, i, Released, StepsLeft);
      case Done(i) => SumOfUpdate(s.conns, i, Finished, StepsLeft);
      case AcceptFail =>
      case BackoffElapsed =>
      case BackoffCancelled =>
      case AcquireSlot =>
      case AddToGroup =>
      case WaitDone =>
    }
  }

  /** Once cancelled, something can always happen until Serve has returned. */
  lemma {:induction false} NoDeadlock(maxConns: nat, s: State) returns (step: Step)
    requires Accounts(maxConns, s) && s.cancelled && !s.place.Returned?
    ensures Enabled(maxConns, s, step)
  {
    match s.place {
      case Accepting => step := AcceptFail;
      case BackingOff => step := BackoffCancelled;
      case Holding => step := DropConn;
      case Acquired => step := AddToGroup;
      case Added => step := Spawn;
      case Waiting =>
        if s.group == 0 {
          step := WaitDone;
        } else {
          step := HandlerStep(maxConns, s);
        }
    }
  }

  lemma {:induction false} HandlerStep(maxConns: nat, s: State) returns (step: Step)
    requires Accounts(maxConns, s) && s.place.Waiting? && s.group != 0
    ensures Enabled(maxConns, s, step) && OfHandler(step)
  {
    SumIsZero(s.conns, InGroup);
    SumIsZero(s.conns, HoldsSlot);
    var i :| 0 <= i < |s.conns| && InGroup(s.conns[i]) != 0;
    assert s.conns[i] in s.conns;
    step := if s.conns[i].Closed? then Release(i)
            else if s.conns[i].Released? then Done(i)
            else Close(i);
  }

  /**
   Once the listener is closed a run has a bounded number of steps left, and one that cannot
   be continued has returned.
   */
  lemma {:induction false} ServeReturns(maxConns: nat, states: seq<State>, k: nat)
    requires IsRun(maxConns, states) && k < |states| && !states[k].listening
    ensures |states| - 1 - k <= Rank(states[k])
    ensures var last := states[|states| - 1];
      (forall step :: !Enabled(maxConns, last, step)) ==> last.place.Returned?
    decreases |states| - k
  {
    RunKeepsAccounts(maxConns, states, k);
    if k + 1 < |states| {
      assert IsStep(maxConns, states[k], states[k + 1]);
      var step :| Enabled(maxConns, states[k], step) && states[k + 1] == Apply(maxConns, states[k], step);
      StepLowersRank(maxConns, states[k], step);
      ServeReturns(maxConns, states, k + 1);
    } else if !states[k].place.Returned? {
      var step := NoDeadlock(maxConns, states[k]);
    }
  }

  /** A slot is free for the connection held as long as fewer than `maxConns` are taken. */
  lemma {:induction false} FreeSlotTaken(maxConns: nat, states: seq<State>, k: nat)
    requires IsRun(maxConns, states) && k < |states| && states[k].place.Holding?
    ensures Enabled(maxConns, states[k], AcquireSlot) <==> Sum(states[k].conns, HoldsSlot) < maxConns
  {
    RunKeepsAccounts(maxConns, states, k);
  }

  /** Without cancellation too something can always happen: no run gets stuck. */
  lemma {:induction false} NeverStuck(maxConns: nat, states: seq<State>)
    returns (step: Step)
    requires maxConns > 0 && IsRun(maxConns, states) && !states[|states| - 1].place.Returned?
    ensures Enabled(maxConns, states[|states| - 1], step) && step != Cancel && step != CloseListener
  {
    var s := states[|states| - 1];
    RunKeepsAccounts(maxConns, states, |states| - 1);
    match s.place {
      case Accepting => step := AcceptFail;
      case BackingOff => step := BackoffElapsed;
      case Acquired => step := AddToGroup;
      case Added => step := Spawn;
      case Holding =>
        if s.slots < maxConns {
          step := AcquireSlot;
        } else {
          step := SlotHolderStep(maxConns, s);
        }
      case Waiting =>
        if s.group == 0 {
          step := WaitDone;
        } else {
          step := HandlerStep(maxConns, s);
        }
    }
  }

  lemma {:induction false} SlotHolderStep(maxConns: nat, s: State) returns (step: Step)
    requires maxConns > 0 && Accounts(maxConns, s) && s.place.Holding? && s.slots == maxConns
    ensures Enabled(maxConns, s, step) && OfHandler(step)
  {
    SumIsZero(s.conns, HoldsSlot);
    var p :| p in s.conns && HoldsSlot(p) != 0;
    var i: nat :| i < |s.conns| && s.conns[i] == p;
    step := if s.conns[i].Closed? then Release(i) else Close(i);
  }

  /** Every run can be continued to one in which Serve has returned. */
  lemma {:induction false} CanReturn(maxConns: nat, states: seq<State>) returns (longer: seq<State>)
    requires IsRun(maxConns, states)
    ensures IsRun(maxConns, longer) && states <= longer && longer[|longer| - 1].place.Returned?
  {
    longer := states;
    if !longer[|longer| - 1].cancelled {
      longer := Continued(maxConns, longer, Cancel);
    }
    if longer[|longer| - 1].listening {
      longer := Continued(maxConns, longer, CloseListener);
    }
    longer := RunToReturn(maxConns, longer);
  }

  lemma {:induction false} Continued(maxConns: nat, states: seq<State>, step: Step) returns (longer: seq<State>)
    requires IsRun(maxConns, states) && Enabled(maxConns, states[|states| - 1], step)
    ensures longer == states + [Apply(maxConns, states[|states| - 1], step)] && IsRun(maxConns, longer)
  {
    hide Enabled, Apply;
    longer := states + [Apply(maxConns, states[|states| - 1], step)];
    forall k | 0 <= k < |longer| - 1
      ensures IsStep(maxConns, longer[k], longer[k + 1])
    {
      if k < |states| - 1 {
        assert IsStep(maxConns, states[k], states[k + 1]);
      }
    }
  }

  /** A connection that arrives after the cancellation, before the listener closes, may be dropped. */
  lemma {:induction false} LateConnectionDropped(maxConns: nat) returns (states: seq<State>)
    ensures IsRun(maxConns, states)
    ensures var s := states[|states| - 1]; s.conns == [Dropped] && s.closes == 1 && s.place.Waiting?
  {
    states := [Init()];
    states := Continued(maxConns, states, Cancel);
    states := Continued(maxConns, states, AcceptOk);
    states := Continued(maxConns, states, DropConn);
  }

  lemma {:induction false} RunToReturn(maxConns: nat, states: seq<State>) returns (longer: seq<State>)
    requires IsRun(maxConns, states) && !states[|states| - 1].listening
    ensures IsRun(maxConns, longer) && states <= longer && longer[|longer| - 1].place.Returned?
    decreases Rank(states[|states| - 1])
  {
    hide Enabled, Apply, Accounts;
    var s := states[|states| - 1];
    LastIsAccounted(maxConns, states);
    longer := states;
    if !s.place.Returned? {
      var step := NoDeadlock(maxConns, s);
      StepLowersRank(maxConns, s, step);
      longer := Continued(maxConns, states, step);
      longer := RunToReturn(maxConns, longer);
    }
  }

  lemma {:induction false} LastIsAccounted(maxConns: nat, states: seq<State>)
    requires IsRun(maxConns, states)
    ensures var s := states[|states| - 1];
            Accounts(maxConns, s) && (!s.listening ==> s.cancelled)
  {
    RunKeepsAccounts(maxConns, states, |states| - 1);
  }

  /**
   Failed attempts since the last connection was accepted, as seen in a run: a failure leads
   from accepting to backing off, an acceptance adds a connection.
   */
  function FailuresSince(states: seq<State>, k: nat): nat
    requires k < |states|
  {
    if k == 0 || |states[k].conns| > |states[k - 1].conns| then 0
    else
      FailuresSince(states, k - 1)
      + if states[k - 1].place.Accepting? && states[k].place.BackingOff? then 1 else 0
  }

  lemma {:induction false} FailuresCounted(maxConns: nat, states: seq<State>, k: nat)
    requires IsRun(maxConns, states) && k < |states|
    ensures states[k].failures == FailuresSince(states, k)
    decreases k
  {
    hide Enabled, Apply, IsStep;
    if k > 0 {
      FailuresCounted(maxConns, states, k - 1);
      assert IsStep(maxConns, states[k - 1], states[k - 1 + 1]);
      StepCounts(maxConns, states[k - 1], states[k]);
    }
  }

  lemma {:induction false} StepCounts(maxConns: nat, s: State, s': State)
    requires IsStep(maxConns, s, s')
    ensures s'.failures ==
      if |s'.conns| > |s.conns| then 0
      else s.failures + if s.place.Accepting? && s'.place.BackingOff? then 1 else 0
  {
    var step :| Enabled(maxConns, s, step) && s' == Apply(maxConns, s, step);
  }

  /** The delay before the next attempt after `k` failures in a row. */
  lemma {:induction false} DelayIsBackoff(maxConns: nat, states: seq<State>, k: nat)
    requires IsRun(maxConns, states) && k < |states|
    ensures states[k].delay == Backoff(states[k].failures) <= 1000
    ensures states[k].failures == 1 ==> states[k].delay == 5
    ensures states[k].failures > 8 ==> states[k].delay == 1000
  {
    RunKeepsAccounts(maxConns, states, k);
    if states[k].failures > 8 {
      PowerGrows(8, states[k].failures - 1);
    }
  }

  lemma {:induction false} PowerGrows(m: nat, n: nat)
    requires m <= n
    ensures Power2(m) <= Power2(n)
    decreases n
  {
    if m < n {
      PowerGrows(m, n - 1);
    }
  }
}
