/** The schema file watcher: changes restart a timer whose callback reloads, while callbacks of
    older timers and Stop may be running (internal/watch/watcher.go:93-198). Every step below is
    what one goroutine does under the mutex, or one unguarded step of a callback or of Stop. */
module Debounce {
  import opened Wrappers

  /** A timer's callback: waiting for the timer, started, or past its context check. */
  datatype Phase = Armed | Started | Checked

  datatype State = State(
    files: set<string>,
    pending: map<string, int>,
    timer: Option<nat>,
    callbacks: map<nat, Phase>,
    next: nat,
    stopped: bool,
    cancelled: bool,
    accepted: nat,
    reloads: nat)

  function Initial(files: set<string>): State {
    State(files, map[], None, map[], 0, false, false, 0, 0)
  }

  datatype Event =
    | Notify(name: string, write: bool, create: bool, now: int)
    | Fire(id: nat)
    | CheckContext(id: nat)
    | RunCallback(id: nat)
    | StopLocked
    | Cancel

  predicate Enabled(s: State, e: Event) {
    match e
    case Fire(id) => id in s.callbacks && s.callbacks[id] == Armed
    case CheckContext(id) => id in s.callbacks && s.callbacks[id] == Started
    case RunCallback(id) => id in s.callbacks && s.callbacks[id] == Checked
    case Cancel => s.stopped
    case _ => true
  }

  /** Stopping a timer cancels its callback unless it already started. */
  function Disarm(callbacks: map<nat, Phase>, timer: Option<nat>): map<nat, Phase> {
    if timer.Some? && timer.value in callbacks && callbacks[timer.value] == Armed then callbacks - {timer.value}
    else callbacks
  }

  /** A notification that handleFileChange takes up. */
  predicate Accepts(s: State, e: Event) {
    e.Notify? && e.name in s.files && (e.write || e.create) && !s.stopped
  }

  /** A callback that calls the reload function. */
  predicate Reloads(s: State, e: Event) {
    e.RunCallback? && !s.stopped && s.pending != map[]
  }

  function Step(s: State, e: Event): State
    requires Enabled(s, e)
  {
    match e
    case Notify(name, _, _, now) =>
      if !Accepts(s, e) then s
      else
        s.(pending := s.pending[name := now], timer := Some(s.next), next := s.next + 1,
           callbacks := Disarm(s.callbacks, s.timer)[s.next := Armed], accepted := s.accepted + 1)
    case Fire(id) => s.(callbacks := s.callbacks[id := Started])
    case CheckContext(id) =>
      s.(callbacks := if s.cancelled then s.callbacks - {id} else s.callbacks[id := Checked])
    case RunCallback(id) =>
      var done := s.(callbacks := s.callbacks - {id});
      if Reloads(s, e) then done.(pending := map[], reloads := s.reloads + 1) else done
    case StopLocked =>
      s.(stopped := true, timer := None, callbacks := Disarm(s.callbacks, s.timer), pending := map[])
    case Cancel => s.(cancelled := true)
  }

  // ---- The watcher ----

  class FileWatcher {
    const absFiles: set<string>
    var pending: map<string, int>
    var timer: Option<nat>
    var callbacks: map<nat, Phase>
    var next: nat
    var stopped: bool
    var cancelled: bool
    var accepted: nat
    var reloads: nat

    function Now(): State
      reads this
    {
      State(absFiles, pending, timer, callbacks, next, stopped, cancelled, accepted, reloads)
    }

    constructor (files: set<string>)
      ensures Now() == Initial(files)
    {
      absFiles := files;
      pending := map[];
      timer := None;
      callbacks := map[];
      next := 0;
      stopped := false;
      cancelled := false;
      accepted := 0;
      reloads := 0;
    }

    /** The watch loop's reaction to one file-system event. */
    method OnEvent(name: string, write: bool, create: bool, now: int)
      modifies this
      ensures Now() == Step(old(Now()), Notify(name, write, create, now))
      ensures name in absFiles && (write || create) && !old(stopped) ==>
                && accepted == old(accepted) + 1 && pending == old(pending)[name := now]
                && timer.Some? && timer.value in callbacks && callbacks[timer.value] == Armed
      ensures !(name in absFiles && (write || create) && !old(stopped)) ==> Now() == old(Now())
    {
      if name in absFiles {
        if write || create {
          HandleFileChange(name, now);
        }
      }
    }

    method HandleFileChange(name: string, now: int)
      requires name in absFiles
      modifies this
      ensures Now() == Step(old(Now()), Notify(name, true, false, now))
    {
      if stopped {
        return;
      }
      accepted := accepted + 1;
      pending := pending[name := now];
      if timer.Some? {
        StopTimer(timer.value);
      }
      callbacks := callbacks[next := Armed];
      timer := Some(next);
      next := next + 1;
    }

    method StopTimer(id: nat)
      modifies this`callbacks
      ensures callbacks == Disarm(old(callbacks), Some(id))
    {
      if id in callbacks && callbacks[id] == Armed {
        callbacks := callbacks - {id};
      }
    }

    /** The callback's context check; it runs without the mutex. */
    method PassContextCheck(id: nat)
      requires Enabled(Now(), CheckContext(id))
      modifies this
      ensures Now() == Step(old(Now()), CheckContext(id))
      ensures callbacks == if old(cancelled) then old(callbacks) - {id} else old(callbacks)[id := Checked]
    {
      if cancelled {
        callbacks := callbacks - {id};
        return;
      }
      callbacks := callbacks[id := Checked];
    }

    /** The callback's body under the mutex; the result says whether it reloads. */
    method CallbackBody(id: nat) returns (reload: bool)
      requires Enabled(Now(), RunCallback(id))
      modifies this
      ensures Now() == Step(old(Now()), RunCallback(id))
      ensures reload <==> Reloads(old(Now()), RunCallback(id))
    {
      callbacks := callbacks - {id};
      if stopped {
        return false;
      }
      if |pending| == 0 {
        return false;
      }
      pending := map[];
      reloads := reloads + 1;
      return true;
    }

    method Stop()
      modifies this
      ensures Now() == Step(Step(old(Now()), StopLocked), Cancel)
    {
      stopped := true;
      if timer.Some? {
        StopTimer(timer.value);
        timer := None;
      }
      pending := map[];
      cancelled := true;
    }
  }

  // ---- The invariant ----

  function Outstanding(s: State): nat {
    if s.pending == map[] then 0 else 1
  }

  /** Pending changes always have the current timer's callback ahead of them; only the current
      timer can be armed; a cancelled context means the watcher has stopped. */
  ghost predicate Inv(s: State) {
    && (!s.stopped && s.pending != map[] ==> s.timer.Some? && s.timer.value in s.callbacks)
    && (s.cancelled ==> s.stopped)
    && (s.stopped ==> s.pending == map[] && s.timer.None?)
    && (forall id :: id in s.callbacks ==> id < s.next)
    && (s.timer.Some? ==> s.timer.value < s.next)
    && (forall id :: id in s.callbacks && s.callbacks[id] == Armed ==> s.timer == Some(id))
    && s.reloads + Outstanding(s) <= s.accepted
  }

  lemma StepKeepsInv(s: State, e: Event)
    requires Inv(s) && Enabled(s, e)
    ensures Inv(Step(s, e))
  {
  }

  predicate IsRun(s: State, es: seq<Event>)
    decreases |es|
  {
    es == [] || (Enabled(s, es[0]) && IsRun(Step(s, es[0]), es[1..]))
  }

  function Run(s: State, es: seq<Event>): State
    requires IsRun(s, es)
    decreases |es|
  {
    if es == [] then s else Run(Step(s, es[0]), es[1..])
  }

  lemma {:induction false} RunKeepsInv(s: State, es: seq<Event>)
    requires Inv(s) && IsRun(s, es)
    ensures Inv(Run(s, es))
    decreases |es|
  {
    if es != [] {
      StepKeepsInv(s, es[0]);
      RunKeepsInv(Step(s, es[0]), es[1..]);
    }
  }

  /** Over all interleavings of changes, callbacks of old and new timers and Stop: while the watcher
      runs and changes are pending, a callback is armed or in flight, at most one timer is armed,
      and there are never more reloads than accepted changes. */
  lemma NothingIsLost(files: set<string>, es: seq<Event>)
    requires IsRun(Initial(files), es)
    ensures
      var s := Run(Initial(files), es);
      && (!s.stopped && s.pending != map[] ==> s.callbacks != map[])
      && (forall i, j ::
            i in s.callbacks && j in s.callbacks && s.callbacks[i] == Armed && s.callbacks[j] == Armed ==> i == j)
      && s.reloads <= s.accepted
  {
    RunKeepsInv(Initial(files), es);
  }

  // ---- Every accepted change is answered ----

  /** Exactly a write to or creation of a watched file, while the watcher runs, is accepted; any other
      notification changes nothing. */
  lemma AcceptedExactly(s: State, e: Event)
    requires e.Notify?
    ensures
      var s' := Step(s, e);
      if e.name in s.files && (e.write || e.create) && !s.stopped then
        s'.accepted == s.accepted + 1 && e.name in s'.pending && s'.pending[e.name] == e.now
      else s' == s
  {
  }

  /** The reload function is called exactly by a callback that gets past its context check while the
      watcher runs and something is pending. */
  lemma ReloadedExactly(s: State, e: Event)
    requires Enabled(s, e)
    ensures
      var reload := e.RunCallback? && !s.stopped && s.pending != map[];
      Step(s, e).reloads == s.reloads + (if reload then 1 else 0) && (reload ==> Step(s, e).pending == map[])
  {
  }

  /** Somewhere along the run a reload happens while the file is pending, or Stop takes over. */
  predicate Answered(s: State, es: seq<Event>, file: string)
    requires IsRun(s, es)
    decreases |es|
  {
    es != [] &&
    ((Step(s, es[0]).reloads > s.reloads && file in s.pending) || es[0] == StopLocked ||
     Answered(Step(s, es[0]), es[1..], file))
  }

  lemma {:induction false} UnansweredStaysPending(s: State, es: seq<Event>, file: string)
    requires Inv(s) && IsRun(s, es) && !s.stopped && file in s.pending
    ensures Answered(s, es, file) || (!Run(s, es).stopped && file in Run(s, es).pending)
    decreases |es|
  {
    if es != [] && !(Step(s, es[0]).reloads > s.reloads && file in s.pending) && es[0] != StopLocked {
      StepKeepsInv(s, es[0]);
      UnansweredStaysPending(Step(s, es[0]), es[1..], file);
    }
  }

  /** Every accepted change is followed by a reload while that file is pending, or by a Stop, in
      every run at whose end no callback remains armed or in flight. */
  lemma AcceptedIsAnswered(s: State, e: Event, es: seq<Event>)
    requires Inv(s) && e.Notify? && e.name in s.files && (e.write || e.create) && !s.stopped
    requires IsRun(Step(s, e), es)
    requires Run(Step(s, e), es).callbacks == map[]
    ensures Answered(Step(s, e), es, e.name)
  {
    StepKeepsInv(s, e);
    UnansweredStaysPending(Step(s, e), es, e.name);
    RunKeepsInv(Step(s, e), es);
  }

  /** The current timer's callback needs at most three more steps, and they end in a reload. */
  function DrainSteps(s: State): seq<Event> {
    if s.timer.None? || s.timer.value !in s.callbacks then []
    else
      var id := s.timer.value;
      match s.callbacks[id]
      case Armed => [Fire(id), CheckContext(id), RunCallback(id)]
      case Started => [CheckContext(id), RunCallback(id)]
      case Checked => [RunCallback(id)]
  }

  lemma OneStep(s: State, e: Event, es: seq<Event>)
    requires Enabled(s, e) && IsRun(Step(s, e), es)
    ensures IsRun(s, [e] + es) && Run(s, [e] + es) == Run(Step(s, e), es)
  {
    assert ([e] + es)[1..] == es;
  }

  lemma DrainReloads(s: State)
    requires Inv(s) && !s.stopped && s.pending != map[]
    ensures IsRun(s, DrainSteps(s)) && 1 <= |DrainSteps(s)| <= 3
    ensures
      var s' := Run(s, DrainSteps(s));
      && s'.pending == map[] && s'.reloads == s.reloads + 1
      && s'.callbacks == s.callbacks - {s.timer.value}
    decreases match s.callbacks[s.timer.value] case Armed => 2 case Started => 1 case Checked => 0
  {
    var id := s.timer.value;
    match s.callbacks[id]
    case Checked =>
      assert [RunCallback(id)] == [RunCallback(id)] + [];
      OneStep(s, RunCallback(id), []);
    case Started =>
      var s1 := Step(s, CheckContext(id));
      StepKeepsInv(s, CheckContext(id));
      DrainReloads(s1);
      OneStep(s, CheckContext(id), DrainSteps(s1));
      assert s1.callbacks - {id} == s.callbacks - {id};
      assert DrainSteps(s) == [CheckContext(id)] + DrainSteps(s1);
    case Armed =>
      var s1 := Step(s, Fire(id));
      StepKeepsInv(s, Fire(id));
      DrainReloads(s1);
      OneStep(s, Fire(id), DrainSteps(s1));
      assert s1.callbacks - {id} == s.callbacks - {id};
      assert DrainSteps(s) == [Fire(id)] + DrainSteps(s1);
  }

  // ---- Stop ----

  /** Once stopped, no reload starts, whatever callbacks are still in flight, and the watcher stays
      stopped with nothing pending. */
  lemma {:induction false} NoReloadAfterStop(s: State, es: seq<Event>)
    requires Inv(s) && s.stopped && IsRun(s, es)
    ensures Run(s, es).reloads == s.reloads && Run(s, es).accepted == s.accepted
    ensures Run(s, es).stopped && Run(s, es).pending == map[]
    decreases |es|
  {
    if es != [] {
      StepKeepsInv(s, es[0]);
      NoReloadAfterStop(Step(s, es[0]), es[1..]);
    }
  }

  /** Once the context is cancelled no callback gets past its check any more, in any run: those that
      are past it already were when it was cancelled. */
  lemma {:induction false} NonePassesCancelled(s: State, es: seq<Event>)
    requires Inv(s) && s.cancelled && IsRun(s, es)
    ensures
      var s' := Run(s, es);
      forall id :: id in s'.callbacks ==>
        id in s.callbacks && (s'.callbacks[id] == Checked ==> s.callbacks[id] == Checked)
    decreases |es|
  {
    if es != [] {
      StepKeepsInv(s, es[0]);
      NonePassesCancelled(Step(s, es[0]), es[1..]);
    }
  }

  // ---- Debouncing ----

  ghost predicate Burst(s: State, es: seq<Event>) {
    !s.stopped && forall i :: 0 <= i < |es| ==> es[i].Notify? && es[i].name in s.files && (es[i].write || es[i].create)
  }

  /** Changes that arrive before the timer fires leave one armed timer behind, whatever their
      number. */
  lemma {:induction false} BurstArmsOne(s: State, es: seq<Event>)
    requires Inv(s) && Burst(s, es) && IsRun(s, es) && es != []
    requires forall id :: id in s.callbacks ==> s.callbacks[id] == Armed
    ensures
      var s' := Run(s, es);
      && s'.callbacks == map[s'.next - 1 := Armed] && s'.timer == Some(s'.next - 1)
      && s'.next == s.next + |es| && s'.accepted == s.accepted + |es|
      && s'.reloads == s.reloads && s'.pending != map[] && !s'.stopped
    decreases |es|
  {
    var s1 := Step(s, es[0]);
    StepKeepsInv(s, es[0]);
    assert s1.callbacks == map[s.next := Armed];
    assert es[0].name in s1.pending;
    if |es| > 1 {
      assert Burst(s1, es[1..]);
      BurstArmsOne(s1, es[1..]);
    } else {
      assert es[1..] == [];
    }
  }

  /** So a burst of changes on an idle watcher leads to exactly one reload. */
  lemma BurstReloadsOnce(s: State, es: seq<Event>)
    requires Inv(s) && Burst(s, es) && IsRun(s, es) && es != [] && s.callbacks == map[]
    ensures
      var s1 := Run(s, es);
      && IsRun(s1, DrainSteps(s1))
      && Run(s1, DrainSteps(s1)).reloads == s.reloads + 1
      && Run(s1, DrainSteps(s1)).callbacks == map[] && Run(s1, DrainSteps(s1)).pending == map[]
  {
    BurstArmsOne(s, es);
    RunKeepsInv(s, es);
    DrainReloads(Run(s, es));
  }
}
