/**
  The dual-ownership lifetime monitor of a QObject exposed to Lua
  (`lua::QObjectMonitor`).

  The monitor state is immutable; each handler is a pure transition that
  returns the next state together with the effects it issued. A C++
  `assert` that fails is an `Aborted` outcome: a debug build stops there,
  while a build without assertions carries on from the `state` the outcome
  holds, which is the state at the assertion.
 */
module QObjectMonitor {
  import opened Effects

  datatype Monitor = Monitor(
    qobject: Ptr<ObjectId>,      // non-owning; set to nullptr by the monitor's handlers
    userdata: Ptr<UserdataId>,   // non-owning; set to nullptr by the monitor's handlers
    destroyOnGC: bool,           // whether collection from Lua deletes the object
    log: seq<Effect>)            // every effect issued so far, oldest first

  /** The two assertions in the handlers. */
  datatype AssertSite =
    | ObjectClearedOnC      // destroyedFromC found userdata null but object set
    | UserdataClearedOnLua  // destroyedFromLua found object null but userdata set

  datatype Outcome =
    | Ok(state: Monitor)
    | Aborted(site: AssertSite, state: Monitor)

  /** The std::logic_error thrown by the constructor, with the effects issued before the throw. */
  datatype LogicError = LogicError(message: string, issued: seq<Effect>)

  datatype Construction =
    | Constructed(monitor: Monitor)
    | Thrown(error: LogicError)

  const NonManagedMessage: string := "Refusing to manage a non-managed userdata"

  /**
    The constructor. `managed` is the answer of `userdata->managed()`.
    The check comes before either subscription, so a refused userdata leaves
    no trace on the object or on the handle.
   */
  function Construct(qobject: ObjectId, userdata: UserdataId, managed: bool): (r: Construction)
    ensures r.Thrown? <==> !managed
    ensures r.Thrown? ==> r.error.message == NonManagedMessage && r.error.issued == []
    ensures r.Constructed? ==>
              && r.monitor.qobject == NonNull(qobject)
              && r.monitor.userdata == NonNull(userdata)
              && !r.monitor.destroyOnGC
              && r.monitor.log == [Connected(qobject), ManagerInstalled(userdata)]
  {
    if !managed then
      Thrown(LogicError(NonManagedMessage, []))
    else
      var initial := Monitor(NonNull(qobject), NonNull(userdata), false, []);
      var connected := initial.(log := initial.log + [Connected(qobject)]);
      Constructed(connected.(log := connected.log + [ManagerInstalled(userdata)]))
  }

  /**
    Slot for the object's destroyed() signal. When the Lua side is already
    gone it only asserts that the object is gone too; otherwise it clears
    both pointers and resets the handle exactly once.
   */
  function DestroyedFromC(m: Monitor): (r: Outcome)
    ensures r.state.destroyOnGC == m.destroyOnGC
    ensures r.state.qobject == m.qobject || r.state.qobject.Null?
    ensures r.state.userdata == m.userdata || r.state.userdata.Null?
    ensures m.log <= r.state.log
    ensures DeleteCount(r.state.log) == DeleteCount(m.log)
    // whatever the branch, a call whose assertion holds leaves nothing pointing at the object
    ensures r.Ok? ==> r.state.qobject.Null? && r.state.userdata.Null?
    ensures r.Aborted? <==> m.userdata.Null? && m.qobject.NonNull?
    ensures r.Aborted? ==> r.site == ObjectClearedOnC && r.state == m
    ensures m.userdata.Null? ==> r.state == m
    ensures m.userdata.NonNull? ==>
              && r.state.log == m.log + [Reset(m.userdata.target)]
              && ResetCount(r.state.log) == ResetCount(m.log) + 1
  {
    if m.userdata.Null? then
      if m.qobject.Null? then Ok(m) else Aborted(ObjectClearedOnC, m)
    else
      var handle := m.userdata.target;
      var cleared := m.(qobject := Null, userdata := Null);
      var r := Ok(cleared.(log := cleared.log + [Reset(handle)]));
      OccurrencesSnoc(cleared.log, Reset(handle), ResetKind);
      OccurrencesSnoc(cleared.log, Reset(handle), DeleteKind);
      r
  }

  /**
    The userdata's manager, run when Lua collects the handle. When the object
    is already gone it only asserts that the handle is gone too. Otherwise it
    drops the handle and, under the destroy-on-GC policy, clears the object
    pointer and then deletes the object. Deleting a QObject emits its
    destroyed() signal while the delete runs, so destroyedFromC is entered
    again at that point; it finds both pointers null and returns.
   */
  function DestroyedFromLua(m: Monitor): (r: Outcome)
    ensures r.state.destroyOnGC == m.destroyOnGC
    ensures r.state.qobject == m.qobject || r.state.qobject.Null?
    ensures r.state.userdata == m.userdata || r.state.userdata.Null?
    ensures m.log <= r.state.log
    ensures ResetCount(r.state.log) == ResetCount(m.log)
    ensures r.Aborted? <==> m.qobject.Null? && m.userdata.NonNull?
    ensures r.Aborted? ==> r.site == UserdataClearedOnLua && r.state == m
    ensures m.qobject.Null? ==> r.state == m
    ensures m.qobject.NonNull? ==> r.Ok? && r.state.userdata.Null?
    ensures m.qobject.NonNull? && m.destroyOnGC ==>
              && r.state.qobject.Null?
              && r.state.log == m.log + [Deleted(m.qobject.target)]
              && DeleteCount(r.state.log) == DeleteCount(m.log) + 1
    ensures m.qobject.NonNull? && !m.destroyOnGC ==>
              r.state.qobject == m.qobject && r.state.log == m.log
  {
    if m.qobject.Null? then
      if m.userdata.Null? then Ok(m) else Aborted(UserdataClearedOnLua, m)
    else
      var detached := m.(userdata := Null);
      if detached.destroyOnGC && detached.qobject.NonNull? then
        var doomed := detached.qobject.target;
        var nulled := detached.(qobject := Null);
        var deleted := nulled.(log := nulled.log + [Deleted(doomed)]);
        OccurrencesSnoc(nulled.log, Deleted(doomed), ResetKind);
        OccurrencesSnoc(nulled.log, Deleted(doomed), DeleteKind);
        // the destroyed() signal emitted by the delete re-enters the C++ slot
        DestroyedFromC(deleted)
      else
        Ok(detached)
  }

  /**
    The policy setter. It always records the flag; if Lua has already
    collected the handle it runs the Lua-side teardown again at once, so a
    policy of `true` decided after collection still deletes a live object.
    It never trips an assertion.
   */
  function SetDestroyOnGC(m: Monitor, destroy: bool): (r: Outcome)
    ensures r.Ok?
    ensures r.state.destroyOnGC == destroy
    ensures r.state.userdata == m.userdata
    ensures r.state.qobject == m.qobject || r.state.qobject.Null?
    ensures m.log <= r.state.log
    ensures ResetCount(r.state.log) == ResetCount(m.log)
    ensures m.userdata.NonNull? ==> r.state == m.(destroyOnGC := destroy)
    ensures m.userdata.Null? && m.qobject.NonNull? && destroy ==>
              && r.state.qobject.Null?
              && r.state.log == m.log + [Deleted(m.qobject.target)]
              && DeleteCount(r.state.log) == DeleteCount(m.log) + 1
    ensures !(m.userdata.Null? && m.qobject.NonNull? && destroy) ==>
              r.state.qobject == m.qobject && r.state.log == m.log
  {
    var flagged := m.(destroyOnGC := destroy);
    if flagged.userdata.Null? then DestroyedFromLua(flagged) else Ok(flagged)
  }

  /**
    The destructor: it runs the C++-side teardown, so a handle that still
    points at the object is reset before the monitor goes away, and a monitor
    both of whose sides are already gone is destroyed without any effect.
   */
  function Destructor(m: Monitor): (r: Outcome)
    ensures m.qobject.Null? && m.userdata.Null? ==> r == Ok(m)
    ensures r.Ok? ==> r.state.qobject.Null? && r.state.userdata.Null?
    ensures r.Aborted? ==> r.site == ObjectClearedOnC
    ensures r.state.destroyOnGC == m.destroyOnGC
    ensures m.log <= r.state.log
    ensures DeleteCount(r.state.log) == DeleteCount(m.log)
    ensures m.userdata.NonNull? ==>
              && r.Ok?
              && r.state.log == m.log + [Reset(m.userdata.target)]
              && ResetCount(r.state.log) == ResetCount(m.log) + 1
    ensures m.userdata.Null? ==> r.state == m
  {
    DestroyedFromC(m)
  }
}
