/**
  Arbitrary sequences of the events a monitor can receive after it has been
  constructed: the object's destroyed() signal, collection of the Lua
  handle, and calls of the policy setter. The Qt connection and the Lua
  manager are only event sources here: any of them may fire at any point,
  and may fire again.
 */
module Traces {
  import opened Effects
  import opened QObjectMonitor

  datatype Event =
    | FromC                    // the object's destroyed() signal
    | FromLua                  // Lua collected the handle
    | SetPolicy(destroy: bool) // setDestroyOnGC(destroy)

  /** Debug builds stop at a failed assertion; builds without assertions carry on. */
  datatype Build = Debug | Release

  function Step(m: Monitor, e: Event): Outcome {
    match e
    case FromC => DestroyedFromC(m)
    case FromLua => DestroyedFromLua(m)
    case SetPolicy(destroy) => SetDestroyOnGC(m, destroy)
  }

  /**
    Feeds the events to the monitor in order. Pointers are only ever set to
    null, and effects are only ever appended to the log.
   */
  function Run(m: Monitor, events: seq<Event>, build: Build): (r: Outcome)
    ensures m.log <= r.state.log
    ensures r.state.qobject == m.qobject || r.state.qobject.Null?
    ensures r.state.userdata == m.userdata || r.state.userdata.Null?
    ensures build == Release ==> r.Ok?
    decreases |events|
  {
    if events == [] then Ok(m)
    else
      var s := Step(m, events[0]);
      if s.Aborted? && build == Debug then s
      else Run(s.state, events[1..], build)
  }

  /** Continues a run that stopped with `r` on more events. */
  function Resume(r: Outcome, events: seq<Event>, build: Build): Outcome {
    if r.Aborted? && build == Debug then r else Run(r.state, events, build)
  }

  lemma {:induction false} RunAppend(m: Monitor, a: seq<Event>, b: seq<Event>, build: Build)
    ensures Run(m, a + b, build) == Resume(Run(m, a, build), b, build)
    decreases |a|
  {
    if a == [] {
      assert a + b == b;
    } else {
      assert (a + b)[0] == a[0];
      assert (a + b)[1..] == a[1..] + b;
      var s := Step(m, a[0]);
      if !(s.Aborted? && build == Debug) {
        RunAppend(s.state, a[1..], b, build);
      }
    }
  }

  /** An effect a monitor may issue after it was constructed for `o` and `u`. */
  predicate TeardownOf(e: Effect, o: ObjectId, u: UserdataId) {
    e == Reset(u) || e == Deleted(o)
  }

  /**
    What holds of every monitor constructed for object `o` and userdata `u`,
    whatever events it has received since:
    - each pointer still holds its constructed target or is null;
    - once the object pointer is null the handle pointer is null as well;
    - once the handle is gone under the destroy-on-GC policy, the object is gone;
    - the log starts with the two subscriptions and continues with teardown
      effects on `o` and `u` only;
    - exactly one teardown effect (a reset or a delete) has been issued once the
      object pointer is null, and none before.
   */
  predicate Wellformed(m: Monitor, o: ObjectId, u: UserdataId) {
    && (m.qobject == NonNull(o) || m.qobject == Null)
    && (m.userdata == NonNull(u) || m.userdata == Null)
    && (m.qobject.Null? ==> m.userdata.Null?)
    && (m.userdata.Null? && m.destroyOnGC ==> m.qobject.Null?)
    && |m.log| >= 2
    && m.log[0] == Connected(o)
    && m.log[1] == ManagerInstalled(u)
    && (forall i :: 2 <= i < |m.log| ==> TeardownOf(m.log[i], o, u))
    && ResetCount(m.log) + DeleteCount(m.log) == (if m.qobject.Null? then 1 else 0)
  }

  lemma ConstructedIsWellformed(o: ObjectId, u: UserdataId)
    ensures Construct(o, u, true).Constructed?
    ensures Wellformed(Construct(o, u, true).monitor, o, u)
  {
  }

  /**
    Every event keeps a well-formed monitor well-formed, and the assertion in
    the Lua-side handler never fails on one.
   */
  lemma StepPreservesWellformed(m: Monitor, e: Event, o: ObjectId, u: UserdataId)
    requires Wellformed(m, o, u)
    ensures Wellformed(Step(m, e).state, o, u)
    ensures Step(m, e).Aborted? ==> Step(m, e).site == ObjectClearedOnC
  {
  }

  lemma {:induction false} RunPreservesWellformed(m: Monitor, events: seq<Event>, build: Build, o: ObjectId, u: UserdataId)
    requires Wellformed(m, o, u)
    ensures Wellformed(Run(m, events, build).state, o, u)
    ensures Run(m, events, build).Aborted? ==> Run(m, events, build).site == ObjectClearedOnC
    decreases |events|
  {
    if events != [] {
      StepPreservesWellformed(m, events[0], o, u);
      var s := Step(m, events[0]);
      if !(s.Aborted? && build == Debug) {
        RunPreservesWellformed(s.state, events[1..], build, o, u);
      }
    }
  }

  /**
    Whatever events a constructed monitor receives, in either kind of build,
    it resets the handle at most once, deletes the object at most once, and
    never does both; a delete always targets the monitored object and a
    reset the monitored handle.
   */
  lemma AtMostOnce(m: Monitor, o: ObjectId, u: UserdataId, events: seq<Event>, build: Build)
    requires Construct(o, u, true) == Constructed(m)
    ensures var final := Run(m, events, build).state;
      && ResetCount(final.log) <= 1
      && DeleteCount(final.log) <= 1
      && ResetCount(final.log) + DeleteCount(final.log) <= 1
      && (forall e :: e in final.log && e.Deleted? ==> e == Deleted(o))
      && (forall e :: e in final.log && e.Reset? ==> e == Reset(u))
  {
    ConstructedIsWellformed(o, u);
    RunPreservesWellformed(m, events, build, o, u);
  }

  /**
    The destructor is the last thing a monitor sees, whoever owns it. Run
    after any event sequence, it keeps the invariant, so at most one reset or
    delete has happened in the monitor's whole life. A destructor whose
    assertion holds (an `Ok` outcome) leaves both pointers null; in a build
    without assertions a failed one returns with the object pointer still set.
    Its assertion can fail only when the policy is
    off and the object it still points at has outlived the collected handle.
   */
  lemma DestructorAfterRun(m: Monitor, o: ObjectId, u: UserdataId, events: seq<Event>, build: Build)
    requires Construct(o, u, true) == Constructed(m)
    ensures var before := Run(m, events, build);
            var d := Destructor(before.state);
      && Wellformed(d.state, o, u)
      && ResetCount(d.state.log) + DeleteCount(d.state.log) <= 1
      && (d.Ok? ==> d.state.qobject.Null? && d.state.userdata.Null?)
      && (d.Aborted? ==> !before.state.destroyOnGC && before.state.qobject == NonNull(o))
  {
    ConstructedIsWellformed(o, u);
    RunPreservesWellformed(m, events, build, o, u);
    StepPreservesWellformed(Run(m, events, build).state, FromC, o, u);
  }

  /**
    Monotonic nulling along a run: a pointer that is null after some prefix of
    the events stays null after any longer prefix, and the longer prefix's log
    extends the shorter one's.
   */
  lemma {:induction false} MonotonicNulling(m: Monitor, events: seq<Event>, build: Build, i: nat, j: nat)
    requires i <= j <= |events|
    ensures var early := Run(m, events[..i], build).state;
            var late := Run(m, events[..j], build).state;
      && (early.qobject.Null? ==> late.qobject.Null?)
      && (early.userdata.Null? ==> late.userdata.Null?)
      && early.log <= late.log
  {
    assert events[..j] == events[..i] + events[i..j];
    RunAppend(m, events[..i], events[i..j], build);
  }

  /** In a debug run that completes, a delivered destroyed() signal leaves nothing pointing at the object. */
  lemma {:induction false} NativeNotificationClears(m: Monitor, events: seq<Event>)
    requires FromC in events
    requires Run(m, events, Debug).Ok?
    ensures Run(m, events, Debug).state.qobject.Null?
    ensures Run(m, events, Debug).state.userdata.Null?
    decreases |events|
  {
    var s := Step(m, events[0]);
    if events[0] != FromC {
      assert FromC in events[1..];
      NativeNotificationClears(s.state, events[1..]);
    }
  }

  /** Once Lua has collected the handle, the handle pointer stays null. */
  lemma {:induction false} CollectionClearsHandle(m: Monitor, events: seq<Event>, build: Build, o: ObjectId, u: UserdataId)
    requires Wellformed(m, o, u)
    requires FromLua in events
    ensures Run(m, events, build).state.userdata.Null?
    decreases |events|
  {
    StepPreservesWellformed(m, events[0], o, u);
    var s := Step(m, events[0]);
    if s.Aborted? && build == Debug {
      // only the C++-side assertion can fail, and only with the handle already gone
    } else if events[0] != FromLua {
      assert FromLua in events[1..];
      CollectionClearsHandle(s.state, events[1..], build, o, u);
    }
  }

  /**
    Convergence under the destroy-on-GC policy: if Lua has collected the
    handle at any point and the policy ends up true, both pointers end up
    null, in either kind of build and whatever the order of the events.
   */
  lemma CollectionUnderPolicyConverges(m: Monitor, events: seq<Event>, build: Build, o: ObjectId, u: UserdataId)
    requires Wellformed(m, o, u)
    requires FromLua in events
    requires Run(m, events, build).state.destroyOnGC
    ensures Run(m, events, build).state.qobject.Null?
    ensures Run(m, events, build).state.userdata.Null?
  {
    CollectionClearsHandle(m, events, build, o, u);
    RunPreservesWellformed(m, events, build, o, u);
  }

  /** A monitor whose object pointer is null never deletes anything again. */
  lemma {:induction false} NoDeleteOnceCleared(m: Monitor, events: seq<Event>, build: Build)
    requires m.qobject.Null?
    ensures DeleteCount(Run(m, events, build).state.log) == DeleteCount(m.log)
    decreases |events|
  {
    if events != [] {
      var s := Step(m, events[0]);
      if !(s.Aborted? && build == Debug) {
        NoDeleteOnceCleared(s.state, events[1..], build);
      }
    }
  }

  /**
    In a debug build the monitor never deletes an object after that object's
    destroyed() signal: every delete in the run was issued before it.
   */
  lemma NoDeleteAfterNativeDestruction(m: Monitor, before: seq<Event>, after: seq<Event>)
    ensures var atSignal := Run(m, before + [FromC], Debug).state;
            var final := Run(m, before + [FromC] + after, Debug).state;
      DeleteCount(final.log) == DeleteCount(atSignal.log)
  {
    var prefix := before + [FromC];
    RunAppend(m, prefix, after, Debug);
    var r := Run(m, prefix, Debug);
    if r.Ok? {
      assert FromC in prefix by { assert prefix[|before|] == FromC; }
      NativeNotificationClears(m, prefix);
      NoDeleteOnceCleared(r.state, after, Debug);
    }
  }

  /**
    Both orders of the two notifications reach the same pointers when the
    policy is destroy-on-GC: the C++-first order resets the handle, the
    Lua-first order deletes the object, and neither does anything else.
   */
  lemma BothOrdersConvergeUnderPolicy(m: Monitor, build: Build, o: ObjectId, u: UserdataId)
    requires Wellformed(m, o, u)
    requires m.qobject.NonNull? && m.userdata.NonNull? && m.destroyOnGC
    ensures var cFirst := Run(m, [FromC, FromLua], build);
            var luaFirst := Run(m, [FromLua, FromC], build);
      && cFirst.Ok? && luaFirst.Ok?
      && cFirst.state.qobject == luaFirst.state.qobject == Null
      && cFirst.state.userdata == luaFirst.state.userdata == Null
      && cFirst.state.log == m.log + [Reset(u)]
      && luaFirst.state.log == m.log + [Deleted(o)]
  {
  }

  /**
    The C++-first order converges whatever the policy: the later collection
    finds the object already gone and changes nothing.
   */
  lemma NativeFirstConverges(m: Monitor, build: Build, o: ObjectId, u: UserdataId)
    requires Wellformed(m, o, u)
    requires m.qobject.NonNull? && m.userdata.NonNull?
    ensures var r := Run(m, [FromC, FromLua], build);
      && r.Ok?
      && r.state.qobject.Null? && r.state.userdata.Null?
      && r.state.log == m.log + [Reset(u)]
  {
  }

  /**
    Without the destroy-on-GC policy the Lua-first order does not converge.
    The collection leaves the object alive, and the object's later
    destroyed() signal finds the handle gone but the object pointer still set:
    a debug build fails the assertion in destroyedFromC, and a build without
    assertions returns with the pointer to the destroyed object still held.
   */
  lemma LuaFirstWithoutPolicyDiverges(m: Monitor, o: ObjectId, u: UserdataId)
    requires Wellformed(m, o, u)
    requires m.qobject.NonNull? && m.userdata.NonNull? && !m.destroyOnGC
    ensures Run(m, [FromLua], Debug) == Ok(m.(userdata := Null))
    ensures Run(m, [FromLua, FromC], Debug) == Aborted(ObjectClearedOnC, m.(userdata := Null))
    ensures Run(m, [FromLua, FromC], Release).state.qobject == NonNull(o)
  {
  }

  /**
    Continuing that trace in a build without assertions: a policy of `true`
    set after the destroyed() signal makes the monitor delete the object
    whose destruction it was told about, which the debug-build lemma
    NoDeleteAfterNativeDestruction rules out.
   */
  lemma ReleaseDeletesAfterNativeDestruction(m: Monitor, o: ObjectId, u: UserdataId)
    requires Wellformed(m, o, u)
    requires m.qobject.NonNull? && m.userdata.NonNull? && !m.destroyOnGC
    ensures var atSignal := Run(m, [FromLua, FromC], Release).state;
            var final := Run(m, [FromLua, FromC, SetPolicy(true)], Release).state;
      && DeleteCount(atSignal.log) == 0
      && final.log == atSignal.log + [Deleted(o)]
  {
  }

  /** A duplicated destroyed() signal is a no-op: the handle is reset once. */
  lemma DuplicateNativeNotification(m: Monitor, o: ObjectId, u: UserdataId)
    requires Wellformed(m, o, u)
    requires m.userdata.NonNull?
    ensures var once := Run(m, [FromC], Debug);
            var twice := Run(m, [FromC, FromC], Debug);
      && once.Ok? && twice == once
      && twice.state.log == m.log + [Reset(u)]
  {
  }

  /** A duplicated collection under the destroy-on-GC policy deletes the object once. */
  lemma DuplicateCollection(m: Monitor, build: Build, o: ObjectId, u: UserdataId)
    requires Wellformed(m, o, u)
    requires m.qobject.NonNull? && m.destroyOnGC
    ensures var twice := Run(m, [FromLua, FromLua], build);
      && twice.Ok?
      && twice.state.log == m.log + [Deleted(o)]
  {
  }

  /**
    A policy of `true` set after collection deletes the still-live object at
    once, and setting it again deletes nothing more.
   */
  lemma LatePolicyDeletesOnce(m: Monitor, build: Build, o: ObjectId, u: UserdataId)
    requires Wellformed(m, o, u)
    requires m.qobject.NonNull? && m.userdata.Null?
    ensures var once := Run(m, [SetPolicy(true)], build);
            var twice := Run(m, [SetPolicy(true), SetPolicy(true)], build);
      && once.state.qobject.Null?
      && once.state.log == m.log + [Deleted(o)]
      && twice == once
  {
  }
}
