/** The tracker's three enumerations, constructors in declaration order. */
module Enums {

  datatype Status = Open | InProgress | Resolved | Closed | Rejected

  datatype Priority = Low | Medium | High | Critical

  datatype UserRole = Developer | Tester | ProjectManager | Admin

  /** Enum.ordinal(): the position of a status in its declaration. */
  function StatusOrdinal(s: Status): nat
  {
    match s
    case Open => 0
    case InProgress => 1
    case Resolved => 2
    case Closed => 3
    case Rejected => 4
  }

  /** Enum.ordinal(): the position of a priority in its declaration. */
  function PriorityOrdinal(p: Priority): nat
  {
    match p
    case Low => 0
    case Medium => 1
    case High => 2
    case Critical => 3
  }

  /** Status.values(): every status exactly once, each at its ordinal. */
  function AllStatuses(): (r: seq<Status>)
    ensures forall s: Status :: StatusOrdinal(s) < |r| && r[StatusOrdinal(s)] == s
    ensures forall i, j :: 0 <= i < j < |r| ==> r[i] != r[j]
  {
    [Open, InProgress, Resolved, Closed, Rejected]
  }

  /** Priority.values(): every priority exactly once, each at its ordinal. */
  function AllPriorities(): (r: seq<Priority>)
    ensures forall p: Priority :: PriorityOrdinal(p) < |r| && r[PriorityOrdinal(p)] == p
    ensures forall i, j :: 0 <= i < j < |r| ==> r[i] != r[j]
  {
    [Low, Medium, High, Critical]
  }
}
