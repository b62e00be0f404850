/**
  Identities and externally visible effects of the Qt/Lua lifetime monitor.

  The monitor holds two non-owning pointers: one to a native QObject and one
  to the Lua-side userdata handle. Everything it does to the outside world is
  one of four effects, recorded here in an append-only log: the two
  subscriptions made while it is constructed, `userdata->reset()` and
  `delete object`.
 */
module Effects {

  /** Address of a native QObject. */
  type ObjectId = nat

  /** Address of a Lua userdata handle. */
  type UserdataId = nat

  /** A C++ pointer: either nullptr or the address it was given, possibly stale. */
  datatype Ptr<+T> = Null | NonNull(target: T)

  datatype Effect =
    | Connected(qobject: ObjectId)             // destroyed() of the object wired to destroyedFromC
    | ManagerInstalled(userdata: UserdataId)  // the userdata's manager wired to destroyedFromLua
    | Reset(userdata: UserdataId)             // userdata->reset(): the handle forgets the object
    | Deleted(qobject: ObjectId)               // delete object, issued by the monitor itself
  {
    function Kind(): EffectKind {
      match this
      case Connected(_) => ConnectKind
      case ManagerInstalled(_) => ManagerKind
      case Reset(_) => ResetKind
      case Deleted(_) => DeleteKind
    }
  }

  datatype EffectKind = ConnectKind | ManagerKind | ResetKind | DeleteKind

  /** How many effects of the given kind the log holds. */
  function Occurrences(log: seq<Effect>, kind: EffectKind): (n: nat)
    ensures n <= |log|
    ensures n == 0 <==> forall i :: 0 <= i < |log| ==> log[i].Kind() != kind
  {
    if log == [] then 0
    else
      var prefix := log[..|log| - 1];
      assert forall i :: 0 <= i < |prefix| ==> prefix[i] == log[i];
      Occurrences(prefix, kind) + (if log[|log| - 1].Kind() == kind then 1 else 0)
  }

  /** Number of `userdata->reset()` calls in the log. */
  function ResetCount(log: seq<Effect>): nat {
    Occurrences(log, ResetKind)
  }

  /** Number of `delete object` calls in the log. */
  function DeleteCount(log: seq<Effect>): nat {
    Occurrences(log, DeleteKind)
  }

  /** Appending one effect adds one to its own kind's count and nothing to the others. */
  lemma OccurrencesSnoc(log: seq<Effect>, e: Effect, kind: EffectKind)
    ensures Occurrences(log + [e], kind) == Occurrences(log, kind) + (if e.Kind() == kind then 1 else 0)
  {
  }
}
