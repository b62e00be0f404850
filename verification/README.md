# QObjectMonitor lifetime model

A Dafny model of `lua::QObjectMonitor` from luacxx. A QObject exposed to
Lua has two owners: C++, which may destroy the object at any time, and the
Lua garbage collector, which may collect the userdata handle at any time.
The monitor watches both sides. It holds two non-owning pointers (`object`,
here `qobject`, because `object` is a Dafny keyword, and `userdata`) and one
policy flag, `_destroyOnGC`. It reacts to four things:

- the object's `destroyed()` signal (`destroyedFromC`);
- collection of the handle (`destroyedFromLua`, installed as the userdata's manager);
- the policy setter `setDestroyOnGC`;
- its own destructor.

It must never delete the object twice and never leave the handle pointing
at a destroyed object.

The model is functional. `QObjectMonitor.Monitor` is an immutable record.
Each handler is a pure function from one state to an `Outcome`. The
monitor's externally visible effects are kept in an append-only log:

- the two subscriptions made by the constructor;
- `userdata->reset()`;
- `delete object`.

The counters `ResetCount` and `DeleteCount` count entries in that log.

A C++ `assert` that fails becomes the outcome `Aborted(site, state)`.
`state` is the unchanged state that a build without assertions returns with.
`Traces.Run` feeds any sequence of events to a monitor. It takes a build
kind: `Debug` stops at a failed assertion, `Release` carries on.

Files:

- `effects.dfy` (module `Effects`): pointers, identities, the effect log and its counts.
- `monitor.dfy` (module `QObjectMonitor`): the state, the constructor and the four handlers.
- `traces.dfy` (module `Traces`): event sequences, the invariant every constructed monitor keeps, and the convergence results.

## When the two notifications do not converge

The two notification orders do not always end in the same state:

- Take `_destroyOnGC` false, and let Lua collect the handle first. The object stays alive and `object` stays set.
- The object's later `destroyed()` signal then reaches `destroyedFromC` with `userdata` null and `object` set.
- A debug build fails `assert(!object)` there. A build without assertions returns and keeps the pointer to the destroyed object (`Traces.LuaFirstWithoutPolicyDiverges`).
- Suppose that build keeps the monitor alive and then sets the policy to `true`. The monitor deletes the already destroyed object (`Traces.ReleaseDeletesAfterNativeDestruction`).
- In a debug build the assertion stops the run first. There, no delete follows a `destroyed()` signal (`Traces.NoDeleteAfterNativeDestruction`).
- Whether a monitor can outlive its object depends on who owns the monitor. That code is not part of this model.

Convergence is proved where it holds:

- `Traces.NativeFirstConverges`: C++ destruction comes first, under either policy.
- `Traces.BothOrdersConvergeUnderPolicy`: either order, when `_destroyOnGC` is true.
- `Traces.CollectionUnderPolicyConverges`: any sequence that contains a collection and ends with the policy true.
- `Traces.NativeNotificationClears`: any debug run that completes after a `destroyed()` signal.

## Model

| member | source | states |
|---|---|---|
| QObjectMonitor.Construct | src/Qt5Core/QObjectMonitor.cpp:7-23 | A non-managed userdata makes construction throw the logic error "Refusing to manage a non-managed userdata". No subscription is issued before the throw. On success both pointers are set, the policy is false, the log holds exactly the two subscriptions, the connection first, and nothing has been reset or deleted. |
| QObjectMonitor.DestroyedFromC | src/Qt5Core/QObjectMonitor.cpp:25-38 | With the handle still set: both pointers become null, the old handle is reset exactly once, and nothing is deleted. With the handle already null: the state is unchanged and no reset is issued. The assertion fails exactly when the object pointer is still set. A call whose assertion holds (an `Ok` outcome) leaves both pointers null. |
| QObjectMonitor.DestroyedFromLua | src/Qt5Core/QObjectMonitor.cpp:40-53 | With the object already null: the state is unchanged. The assertion fails exactly when the handle is still set. With the object live: the handle becomes null and nothing is reset. Under the policy, the object pointer becomes null and exactly one delete of that object is issued. The re-entrant `destroyed()` signal raised by the delete is then a no-op. Without the policy, the object pointer and the log are unchanged. |
| QObjectMonitor.SetDestroyOnGC | src/Qt5Core/QObjectMonitor.cpp:55-61 | Always records the flag and never fails an assertion. If the handle is already gone, the object is live and the flag is true, it deletes the object once and nulls its pointer. In every other case, neither the object pointer nor the log changes. |
| QObjectMonitor.Destructor | src/Qt5Core/QObjectMonitor.cpp:63-66 | A no-op when both pointers are already null. A handle still set is reset exactly once, and that reset targets the handle the monitor held. The policy is kept and the log is only extended. It never deletes the object. A destructor whose assertion holds (an `Ok` outcome) leaves both pointers null. A failed assertion names the one in `destroyedFromC`. |
| Traces.Run | src/Qt5Core/QObjectMonitor.cpp:25-61 | Along any event sequence, pointers are only ever set to null and effects are only ever appended. A build without assertions never stops. |
| Traces.ConstructedIsWellformed | src/Qt5Core/QObjectMonitor.cpp:10-22 | A freshly constructed monitor satisfies the lifetime invariant `Wellformed`. |
| Traces.StepPreservesWellformed | src/Qt5Core/QObjectMonitor.cpp:25-61 | Every handler keeps `Wellformed`, whose parts are listed after this table. On such a monitor, the assertion in `destroyedFromLua` never fails. |
| Traces.RunPreservesWellformed | src/Qt5Core/QObjectMonitor.cpp:25-61 | `Wellformed` holds after any event sequence, in either build. The only assertion that can stop a run is the one in `destroyedFromC`. |
| Traces.AtMostOnce | src/Qt5Core/QObjectMonitor.cpp:32-52 | Over any event sequence after construction, the handle is reset at most once and the object is deleted at most once, and never both. Every delete targets the monitored object and every reset the monitored handle. |
| Traces.MonotonicNulling | src/Qt5Core/QObjectMonitor.cpp:32-50 | Along one run, a pointer that is null after a prefix of the events stays null after any longer prefix. The log of the longer prefix extends the shorter one's. |
| Traces.NativeNotificationClears | src/Qt5Core/QObjectMonitor.cpp:25-38 | A debug run that contains a `destroyed()` signal and completes ends with both pointers null. |
| Traces.CollectionClearsHandle | src/Qt5Core/QObjectMonitor.cpp:40-53 | Once Lua has collected the handle, the handle pointer is null for the rest of the run, in either build. |
| Traces.CollectionUnderPolicyConverges | src/Qt5Core/QObjectMonitor.cpp:47-61 | If the handle was collected and the policy ends up true, both pointers end null, whatever the order of events. |
| Traces.NoDeleteOnceCleared | src/Qt5Core/QObjectMonitor.cpp:42-52 | A monitor whose object pointer is null never issues another delete. |
| Traces.NoDeleteAfterNativeDestruction | src/Qt5Core/QObjectMonitor.cpp:25-53 | In a debug build, no delete is issued after the object's `destroyed()` signal. |
| Traces.BothOrdersConvergeUnderPolicy | src/Qt5Core/QObjectMonitor.cpp:25-53 | Under the policy, the C++-first and the Lua-first orders both end with both pointers null. The first issues exactly one reset, the second exactly one delete. |
| Traces.NativeFirstConverges | src/Qt5Core/QObjectMonitor.cpp:25-46 | C++ destruction followed by collection ends with both pointers null and exactly one reset, whatever the policy. |
| Traces.LuaFirstWithoutPolicyDiverges | src/Qt5Core/QObjectMonitor.cpp:27-52 | Without the policy, collection keeps the object alive. The later `destroyed()` signal fails the assertion in a debug build, and leaves the object pointer set in a build without assertions. |
| Traces.ReleaseDeletesAfterNativeDestruction | src/Qt5Core/QObjectMonitor.cpp:27-61 | Continuing that trace without assertions, a late policy of `true` deletes the object after its `destroyed()` signal. |
| Traces.DuplicateNativeNotification | src/Qt5Core/QObjectMonitor.cpp:25-38 | A second `destroyed()` signal changes nothing, and the handle is reset once. |
| Traces.DuplicateCollection | src/Qt5Core/QObjectMonitor.cpp:40-53 | A second collection under the policy issues no second delete. |
| Traces.LatePolicyDeletesOnce | src/Qt5Core/QObjectMonitor.cpp:55-61 | Setting the policy to `true` after collection deletes the live object at once. Setting it again changes nothing. |
| Traces.DestructorAfterRun | src/Qt5Core/QObjectMonitor.cpp:63-66 | Destroying a constructed monitor after any event sequence keeps `Wellformed`, and at most one reset or delete has then happened. A destructor whose assertion holds (an `Ok` outcome) leaves both pointers null. Its assertion can fail only when the policy is off and the monitored object is still set. |

`Traces.Wellformed` is the invariant behind the trace results:

- each pointer holds its constructed target or is null;
- a null object pointer implies a null handle pointer;
- a null handle under the policy implies a null object pointer;
- the log is the two subscriptions followed only by resets of the handle and deletes of the object;
- the number of resets plus deletes is 1 once the object pointer is null, and 0 before.

## Left out

- The Qt `connect`/`SIGNAL`/`SLOT` wiring and the `std::function` manager installed with `setManager`: they are event sources. Here they are the events of `Traces.Event`, which may fire in any order and any number of times. Construction only records that both subscriptions were made.
- `userdata->managed()` is a query on a Lua collaborator whose code is not part of this model. It is the `managed` parameter of `Construct`.
- Real memory management: `delete` and `reset()` are entries in the effect log. The `destroyed()` signal that `delete` raises while it runs is modelled as a nested `DestroyedFromC` call.
- Ownership of the monitor itself, for example whether it is destroyed together with its object: that code is not part of this model. So the destructor is a separate function, not an event of `Traces.Event`.
- Threading: the code assumes all calls come from one thread, so every handler runs to completion.
- lib/LuaGlobal.hpp forwards to a Lua stack whose code is not part of this model. include/metatables.hpp holds only a declaration. Neither has logic of its own.
- Null constructor arguments: identities are natural numbers, so both pointers start non-null.
  - A null userdata would crash at line 14, which dereferences it without a check.
  - A null object is accepted unchecked at line 10, and Qt's `connect` at line 19 fails without crashing. The monitor would then start with `object` null and `userdata` set, and the first collection would fail `assert(!userdata)` at line 44. `Traces.StepPreservesWellformed` rules that assertion out only because `ObjectId` cannot be null.
- Dangling constructor arguments are not modelled either.
