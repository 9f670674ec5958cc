/** The closed vocabularies of the debate graph, and an optional value for
    partial records and nullable inputs. */
module Types {

  /** The kind of a debate argument (a node of the graph). */
  datatype ArgumentType = Claim | Evidence | Counter | Question

  /** The kind of a directed edge between two arguments. */
  datatype RelationType = Supports | Refutes | Questions | Assumes

  /** A value that may be absent: a field left out of a partial record, or a
      connection endpoint that is null. */
  datatype Option<+T> = None | Some(value: T) {
    function GetOr(default: T): T {
      match this
      case Some(v) => v
      case None => default
    }
  }
}
