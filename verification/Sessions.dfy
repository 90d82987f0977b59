/** What a session is known by, and the life of its binding (internal/cluster). */
module Sessions {

  /** Session numbers are reused; the pair with the generation is not. */
  datatype SessionRef = SessionRef(sessionID: nat, generation: nat)

  predicate ValidRef(r: SessionRef) { r.sessionID != 0 && r.generation != 0 }

  type EdgeID = string

  datatype Life = Syncing | Active | Closing | Closed

  function Rank(l: Life): nat {
    match l case Syncing => 1 case Active => 2 case Closing => 3 case Closed => 4
  }
}
