/** Findings of the partition checks, as data, and the list they are appended to. */
module Diagnostics {
  import opened Arith

  datatype Severity = Info | Warning | Error

  /** A process together with the virtual processor that runs it. */
  type User = (nat, nat)

  datatype Diagnostic =
    | EventCrossing(connection: nat, source: User, destination: User)
    | DataShared(resource: nat, users: seq<User>)
    | WindowOvercommitted(processor: nat, total: nat, frame: nat, partitions: nat)
    | WindowWithinFrame(processor: nat, total: nat, frame: nat, partitions: nat)
  {
    function Severity(): Severity {
      match this
      case EventCrossing(_, _, _) => Warning
      case DataShared(_, _) => Error
      case WindowOvercommitted(_, _, _, _) => Error
      case WindowWithinFrame(_, _, _, _) => Info
    }
  }

  class Log {
    var items: seq<Diagnostic>

    constructor ()
      ensures items == []
    {
      items := [];
    }

    method Push(d: Diagnostic)
      modifies this
      ensures items == old(items) + [d]
    {
      items := items + [d];
    }
  }
}
