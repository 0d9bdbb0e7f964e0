/** The contexts a session has consumed; a nil session consumes none. */
module Session {
  import opened Wrappers
  import opened BigEndian
  import opened Handshake

  type Contexts = Option<set<seq<byte>>>

  /** Refuses a context seen before, and otherwise adds it. */
  function Mark(used: Contexts, context: seq<byte>): Result<Contexts, Error> {
    if used.None? then Ok(None)
    else if context in used.value then Err(ContextReuse)
    else Ok(Some(used.value + {context}))
  }

  predicate Unused(used: Contexts, context: seq<byte>) {
    used.Some? ==> context !in used.value
  }

  function Using(used: Contexts, context: seq<byte>): Contexts {
    if used.Some? then Some(used.value + {context}) else None
  }

  class Session {
    var used: set<seq<byte>>

    constructor ()
      ensures used == {}
    {
      used := {};
    }
  }

  function UsedBy(s: Session?): Contexts
    reads s
  {
    if s == null then None else Some(s.used)
  }

  method MarkContextUsed(s: Session?, context: seq<byte>) returns (r: Option<Error>)
    modifies s
    ensures match Mark(old(UsedBy(s)), context)
            case Ok(used) => r == None && UsedBy(s) == used
            case Err(e) => r == Some(e) && UsedBy(s) == old(UsedBy(s))
    ensures s == null ==> r == None
    ensures s != null && context in old(s.used) ==> r == Some(ContextReuse) && s.used == old(s.used)
    ensures s != null && context !in old(s.used) ==> r == None && s.used == old(s.used) + {context}
  {
    if s == null {
      return None;
    }
    if context in s.used {
      return Some(ContextReuse);
    }
    s.used := s.used + {context};
    r := None;
  }
}
