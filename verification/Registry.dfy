// The session table and the packet sink (src/rpc/mod.rs:35-96).

module Registry {
  import opened Errors
  import Adapter

  datatype SessionState = SessionState(
    sessionId: Text,
    peerAgentId: Text,
    receivedCount: nat,
    adapter: Option<Adapter.AdapterVariant>,
    openedAtNs: u64)

  type Sessions = map<Text, SessionState>

  // ----- the three critical sections, on values

  function Opened(s: Sessions, id: Text, peer: Text, adapter: Option<Adapter.AdapterVariant>, now: u64): Sessions {
    s[id := SessionState(id, peer, 0, adapter, now)]
  }

  function Incremented(s: Sessions, id: Text): Result<Sessions> {
    if id !in s then Err(Internal(UnknownSession))
    else Ok(s[id := s[id].(receivedCount := s[id].receivedCount + 1)])
  }

  function Drained(s: Sessions, id: Text): Result<(Sessions, nat)> {
    if id !in s then Err(Internal(UnknownSession))
    else Ok((s - {id}, s[id].receivedCount))
  }

  /** `SessionRegistry`. The ghost set remembers every id ever handed out, drained or not. */
  class SessionRegistry {
    var sessions: Sessions
    ghost var issued: set<Text>

    ghost predicate Valid()
      reads this
    {
      sessions.Keys <= issued && forall id :: id in sessions ==> sessions[id].sessionId == id
    }

    constructor ()
      ensures Valid() && sessions == map[] && issued == {}
    {
      sessions := map[];
      issued := {};
    }

    /** `id` is the UUID drawn by the source; that it was never drawn before is what a UUID is for. */
    method Open(id: Text, peer: Text, adapter: Option<Adapter.AdapterVariant>, now: u64)
      returns (sessionId: Text)
      requires Valid() && id !in issued
      modifies this
      ensures Valid() && issued == old(issued) + {id}
      ensures sessionId == id && id !in old(sessions)
      ensures sessions == old(sessions)[id := SessionState(id, peer, 0, adapter, now)]
    {
      var state := SessionState(id, peer, 0, adapter, now);
      sessions := sessions[id := state];
      issued := issued + {id};
      sessionId := id;
    }

    method Increment(id: Text) returns (r: Result<()>)
      requires Valid()
      modifies this`sessions
      ensures Valid()
      ensures r.Ok? <==> id in old(sessions)
      ensures r.Ok? ==> sessions.Keys == old(sessions).Keys && (forall other :: other in sessions && other != id ==>
                sessions[other] == old(sessions)[other])
      ensures r.Ok? ==> sessions[id] == old(sessions)[id].(receivedCount := old(sessions)[id].receivedCount + 1)
      ensures r.Ok? ==> Incremented(old(sessions), id) == Ok(sessions)
      ensures r.Err? ==> sessions == old(sessions) && r.error == Internal(UnknownSession)
    {
      if id !in sessions {
        return Err(Internal(UnknownSession));
      }
      var state := sessions[id];
      sessions := sessions[id := state.(receivedCount := state.receivedCount + 1)];
      return Ok(());
    }

    method Drain(id: Text) returns (r: Result<nat>)
      requires Valid()
      modifies this`sessions
      ensures Valid()
      ensures r.Ok? <==> id in old(sessions)
      ensures r.Ok? ==> r.value == old(sessions)[id].receivedCount && sessions == old(sessions) - {id}
      ensures r.Ok? ==> Drained(old(sessions), id) == Ok((sessions, r.value))
      ensures r.Err? ==> sessions == old(sessions) && r.error == Internal(UnknownSession)
    {
      if id !in sessions {
        return Err(Internal(UnknownSession));
      }
      var count := sessions[id].receivedCount;
      sessions := sessions - {id};
      return Ok(count);
    }
  }
}
