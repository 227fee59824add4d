/** The sessions table of the control plane, and the registry of live sessions of the data
    plane that its kill operation reaches into. */
module SessionRows {
  import opened Texts
  import opened Authz
  import Validate

  const MAX_REASON_LEN := 500
  const REASON_GATEWAY_RESTARTED := "gateway restarted while this session was open"

  datatype Opening = Opening(userID: string, target: string, principal: string, recording: string, startedAt: string)

  datatype Closing = Closing(exitCode: int, reason: string, recordedBytes: nat)

  /** A row of `sessions`; a session is open while `endedAt` is NULL. */
  datatype Row = Row(opening: Opening, endedAt: Option<string>, exitCode: Option<int>,
                     reason: Option<string>, recordedBytes: Option<nat>)

  type Table = map<string, Row>

  predicate IsOpen(t: Table, id: string) { id in t && t[id].endedAt.None? }

  function NewRow(o: Opening): Row { Row(o, None, None, None, None) }

  /** UPDATE ... WHERE id = ? AND ended_at IS NULL */
  function Finished(t: Table, id: string, at: string, c: Closing): Table {
    if IsOpen(t, id) then
      t[id := Row(t[id].opening, Some(at), Some(c.exitCode), Some(c.reason), Some(c.recordedBytes))]
    else t
  }

  /** UPDATE ... WHERE ended_at IS NULL: exit -1, no byte count. */
  function Reconciled(t: Table, at: string): Table {
    map id | id in t :: if t[id].endedAt.None? then
                          t[id].(endedAt := Some(at), exitCode := Some(-1), reason := Some(REASON_GATEWAY_RESTARTED))
                        else t[id]
  }

  /** What any later table keeps of a session: its opening, and all of it once it ended. */
  predicate RowKept(a: Row, b: Row) {
    b.opening == a.opening && (a.endedAt.Some? ==> b == a)
  }

  predicate TableKept(s: Table, t: Table) {
    forall id :: id in s ==> id in t && RowKept(s[id], t[id])
  }

  /** A session is ended at most once, whichever of the two statements comes first. */
  lemma EndedOnce(t: Table, id: string, at: string, c: Closing, later: string)
    ensures TableKept(t, Finished(t, id, at, c)) && TableKept(t, Reconciled(t, at))
    ensures IsOpen(t, id) ==> Reconciled(Finished(t, id, at, c), later)[id] == Finished(t, id, at, c)[id]
    ensures !IsOpen(Reconciled(t, at), id) && Finished(Reconciled(t, at), id, later, c) == Reconciled(t, at)
    ensures Reconciled(Reconciled(t, at), later) == Reconciled(t, at)
  {
  }

  class Repository {
    var rows: Table

    constructor ()
      ensures rows == map[]
    {
      rows := map[];
    }

    method Insert(id: string, o: Opening) returns (ok: bool)
      modifies this
      ensures ok == (id !in old(rows))
      ensures rows == if ok then old(rows)[id := NewRow(o)] else old(rows)
    {
      ok := id !in rows;
      if ok {
        rows := rows[id := NewRow(o)];
      }
    }

    method Finish(id: string, at: string, c: Closing) returns (finished: bool)
      modifies this
      ensures finished == IsOpen(old(rows), id)
      ensures rows == Finished(old(rows), id, at, c)
      ensures TableKept(old(rows), rows)
    {
      finished := id in rows && rows[id].endedAt.None?;
      if finished {
        rows := rows[id := rows[id].(endedAt := Some(at), exitCode := Some(c.exitCode), reason := Some(c.reason),
                                     recordedBytes := Some(c.recordedBytes))];
      }
    }

    method CloseDangling(at: string) returns (closed: nat)
      modifies this
      ensures closed == |set id | id in old(rows) && IsOpen(old(rows), id)|
      ensures rows == Reconciled(old(rows), at)
      ensures forall id :: !IsOpen(rows, id)
    {
      var dangling := set id | id in rows && rows[id].endedAt.None?;
      assert dangling == set id | id in rows && IsOpen(rows, id);
      closed := |dangling|;
      rows := map id | id in rows :: if id in dangling then
                rows[id].(endedAt := Some(at), exitCode := Some(-1), reason := Some(REASON_GATEWAY_RESTARTED))
              else rows[id];
    }
  }

  // The registry --------------------------------------------------------------------------

  /** A cancellable context; cancelling is permanent. */
  class Context {
    var cancelled: bool

    constructor ()
      ensures !cancelled
    {
      cancelled := false;
    }

    method Cancel()
      modifies this
      ensures cancelled
    {
      cancelled := true;
    }
  }

  class Registry {
    var live: map<string, Context>

    constructor ()
      ensures live == map[]
    {
      live := map[];
    }

    method Add(id: string, context: Context)
      modifies this
      ensures live == old(live)[id := context]
    {
      live := live[id := context];
    }

    method Remove(id: string)
      modifies this
      ensures live == old(live) - {id}
    {
      live := live - {id};
    }

    /** Reports true exactly when the id is registered, and then cancels that session's
        context and no other. */
    method Kill(id: string) returns (killed: bool)
      modifies if id in live then {live[id]} else {}
      ensures killed == (id in live)
      ensures killed ==> live[id].cancelled
      ensures live == old(live)
      ensures forall other :: other in live.Values && (id in live ==> other != live[id])
                ==> other.cancelled == old(other.cancelled)
    {
      if id !in live {
        return false;
      }
      live[id].Cancel();
      return true;
    }
  }

  // The service ----------------------------------------------------------------------------

  function TrimReason(reason: string): (r: string)
    ensures |r| <= MAX_REASON_LEN && r <= Trim(reason)
    ensures |Trim(reason)| <= MAX_REASON_LEN ==> r == Trim(reason)
  {
    var trimmed := Trim(reason);
    if |trimmed| > MAX_REASON_LEN then trimmed[..MAX_REASON_LEN] else trimmed
  }

  /** The ids bear their prefixes, and principal and recording are given. */
  predicate WellFormed(id: string, o: Opening) {
    && Validate.HasPrefix(id, "ses") && Validate.HasPrefix(o.userID, "usr") && Validate.HasPrefix(o.target, "tgt")
    && o.principal != "" && o.recording != ""
  }

  datatype KillResult = BadID | NotFound | NotActive | NoLiveSession | Killed

  predicate Visible(t: Table, caller: Identity, id: string) {
    id in t && (caller.role == ROLE_ADMIN || t[id].opening.userID == caller.userID)
  }

  class Service {
    const repo: Repository
    const registry: Registry

    constructor (repo: Repository, registry: Registry)
      ensures this.repo == repo && this.registry == registry
    {
      this.repo, this.registry := repo, registry;
    }

    method Open(id: string, o: Opening) returns (ok: bool)
      modifies repo
      ensures ok == (WellFormed(id, o) && id !in old(repo.rows))
      ensures repo.rows == if ok then old(repo.rows)[id := NewRow(o)] else old(repo.rows)
    {
      if !Validate.HasPrefix(id, "ses") || !Validate.HasPrefix(o.userID, "usr") || !Validate.HasPrefix(o.target, "tgt") {
        return false;
      }
      if o.principal == "" || o.recording == "" {
        return false;
      }
      ok := repo.Insert(id, o);
    }

    method Close(id: string, at: string, c: Closing) returns (closed: bool)
      modifies repo
      ensures closed == (Validate.HasPrefix(id, "ses") && IsOpen(old(repo.rows), id))
      ensures repo.rows == if closed then Finished(old(repo.rows), id, at, c.(reason := TrimReason(c.reason)))
                           else old(repo.rows)
      ensures TableKept(old(repo.rows), repo.rows)
    {
      if !Validate.HasPrefix(id, "ses") {
        return false;
      }
      closed := repo.Finish(id, at, c.(reason := TrimReason(c.reason)));
    }

    /** A kill reaches the data plane only for a row the caller may see and that is open. */
    method Kill(caller: Identity, id: string) returns (r: KillResult)
      modifies registry.live.Values
      ensures r == Killed <==> Validate.HasPrefix(id, "ses") && Visible(repo.rows, caller, id)
                               && IsOpen(repo.rows, id) && id in registry.live
      ensures r == Killed ==> registry.live[id].cancelled
      ensures forall c :: c in registry.live.Values && !(r == Killed && c == registry.live[id])
                ==> c.cancelled == old(c.cancelled)
    {
      if !Validate.HasPrefix(id, "ses") {
        return BadID;
      }
      if !Visible(repo.rows, caller, id) {
        return NotFound;
      }
      if repo.rows[id].endedAt.Some? {
        return NotActive;
      }
      var killed := registry.Kill(id);
      r := if killed then Killed else NoLiveSession;
    }
  }
}
