/** The front door: `resolve` in front of `proxy`, over approvals, policies, targets and
    sessions that all keep changing while a connection is being resolved. */
module FrontDoor {
  import opened Texts
  import opened Authz
  import opened Rfc3339
  import Approval
  import Races = ApprovalRaces
  import Lifecycle
  import SessionRows
  import Validate

  datatype Target = Target(id: string, name: string, principals: seq<string>, hostKey: string)

  /** A `serveSession` call; `who` is the identity behind the public key. */
  datatype Phase =
    | Arrived
    | TargetKnown(target: Target)
    | PolicyAllowed(target: Target)
    | Granted(target: Target, requestID: string, at: Instant)
    | Proxying(target: Target, requestID: string, at: Instant)
    | Refused

  datatype Door = Door(who: Identity, user: string, phase: Phase)

  datatype Sys = Sys(approvals: Races.Sys, sessions: Lifecycle.Sys, targets: map<string, Target>, doors: map<nat, Door>)

  datatype Event =
    | Approvals(approvalEvent: Races.Event)
    | Sessions(sessionEvent: Lifecycle.Event)
    | TargetsChange(targets: map<string, Target>)
    | Arrive(d: nat, who: Identity, user: string)
    | ReadTarget(d: nat)
    | AskPolicy(d: nat)
    | AskGrant(d: nat, now: Instant, row: Option<string>)
    | Enter(d: nat, sid: string)
    | Refuse(d: nat)

  function Principal(user: string): string {
    match Validate.ParseDestination(user)
    case Parsed(dest) => dest.principal
    case _ => ""
  }

  /** The target named by the destination accepts the principal and has a pinned host key. */
  predicate Accepted(s: Sys, user: string, target: Target) {
    match Validate.ParseDestination(user)
    case Parsed(dest) =>
      (&& dest.target in s.targets && s.targets[dest.target] == target
       && dest.principal in target.principals && target.hostKey != "")
    case _ => false
  }

  ghost predicate Permitted(s: Sys, who: Identity, user: string, target: Target) {
    Approval.Permitted(s.approvals.policies, who, target.id, Principal(user))
  }

  function Question(who: Identity, user: string, target: Target): Approval.GrantQuery {
    Approval.GrantQuery(who.userID, target.id, Principal(user))
  }

  /** HasGrant: the query over the table, and what the service makes of its row. */
  ghost predicate HasGrant(s: Sys, who: Identity, user: string, target: Target, now: Instant, row: Option<string>) {
    && Approval.ClockOk(now)
    && Approval.IsActiveGrant(s.approvals.table, Question(who, user, target), Format(now), row)
    && row.Some? && row.value in s.approvals.table
    && Approval.Answer(s.approvals.table, row, now).Active?
  }

  function WithPhase(s: Sys, d: nat, phase: Phase): map<nat, Door>
    requires d in s.doors
  {
    s.doors[d := s.doors[d].(phase := phase)]
  }

  /** The session row says who went where, as resolved. */
  predicate RowMatches(s: Sys, e: Lifecycle.Event) {
    e.OpenRow? || (e.RowFails? && e.inserted) ==>
      (e.pid in s.doors && s.doors[e.pid].phase.Proxying?
       && e.opening.userID == s.doors[e.pid].who.userID
       && e.opening.target == s.doors[e.pid].phase.target.id
       && e.opening.principal == Principal(s.doors[e.pid].user))
  }

  predicate EndsProcess(e: Lifecycle.Event) { e.Crash? || e.StartupFails? }

  ghost predicate DoorStep(s: Sys, e: Event, t: Sys) {
    match e
    case Approvals(_) => t.doors == s.doors
    case Sessions(f) => !f.Enter? && RowMatches(s, f) && t.doors == if EndsProcess(f) then map[] else s.doors
    case TargetsChange(_) => t.doors == s.doors
    case Arrive(d, who, user) =>
      s.sessions.gate.Serving? && d !in s.doors && t.doors == s.doors[d := Door(who, user, Arrived)]
    case ReadTarget(d) =>
      (&& d in s.doors && s.doors[d].phase.Arrived?
       && exists target :: Accepted(s, s.doors[d].user, target) && t.doors == WithPhase(s, d, TargetKnown(target)))
    case AskPolicy(d) =>
      (&& d in s.doors && s.doors[d].phase.TargetKnown?
       && Permitted(s, s.doors[d].who, s.doors[d].user, s.doors[d].phase.target)
       && t.doors == WithPhase(s, d, PolicyAllowed(s.doors[d].phase.target)))
    case AskGrant(d, now, row) =>
      (&& d in s.doors && s.doors[d].phase.PolicyAllowed?
       && HasGrant(s, s.doors[d].who, s.doors[d].user, s.doors[d].phase.target, now, row)
       && t.doors == WithPhase(s, d, Granted(s.doors[d].phase.target, row.value, now)))
    case Enter(d, _) =>
      (&& d in s.doors && s.doors[d].phase.Granted?
       && var p := s.doors[d].phase; t.doors == WithPhase(s, d, Proxying(p.target, p.requestID, p.at)))
    case Refuse(d) =>
      (&& d in s.doors && !s.doors[d].phase.Proxying? && t.doors == WithPhase(s, d, Refused))
  }

  function ApprovalPart(e: Event): Races.Event { if e.Approvals? then e.approvalEvent else Races.Idle }

  function SessionPart(e: Event): Lifecycle.Event {
    match e
    case Sessions(f) => f
    case Enter(d, sid) => Lifecycle.Enter(d, sid)
    case _ => Lifecycle.Idle
  }

  ghost predicate Step(s: Sys, e: Event, t: Sys) {
    && Races.Step(s.approvals, ApprovalPart(e), t.approvals)
    && Lifecycle.Step(s.sessions, SessionPart(e), t.sessions)
    && t.targets == (if e.TargetsChange? then e.targets else s.targets)
    && DoorStep(s, e, t)
  }

  ghost predicate Init(s: Sys) {
    Races.Init(s.approvals) && Lifecycle.Init(s.sessions) && s.doors == map[]
  }

  ghost predicate Run(states: seq<Sys>, events: seq<Event>) {
    && |states| == |events| + 1 && Init(states[0])
    && forall i :: 0 <= i < |events| ==> Step(states[i], events[i], states[i + 1])
  }

  // The two subsystems inside a run -----------------------------------------------------------

  function ApprovalStates(states: seq<Sys>): (r: seq<Races.Sys>)
    ensures |r| == |states| && forall i :: 0 <= i < |r| ==> r[i] == states[i].approvals
  {
    seq(|states|, i requires 0 <= i < |states| => states[i].approvals)
  }

  function ApprovalEvents(events: seq<Event>): (r: seq<Races.Event>)
    ensures |r| == |events| && forall i :: 0 <= i < |r| ==> r[i] == ApprovalPart(events[i])
  {
    seq(|events|, i requires 0 <= i < |events| => ApprovalPart(events[i]))
  }

  function SessionStates(states: seq<Sys>): (r: seq<Lifecycle.Sys>)
    ensures |r| == |states| && forall i :: 0 <= i < |r| ==> r[i] == states[i].sessions
  {
    seq(|states|, i requires 0 <= i < |states| => states[i].sessions)
  }

  function SessionEvents(events: seq<Event>): (r: seq<Lifecycle.Event>)
    ensures |r| == |events| && forall i :: 0 <= i < |r| ==> r[i] == SessionPart(events[i])
  {
    seq(|events|, i requires 0 <= i < |events| => SessionPart(events[i]))
  }

  lemma Subruns(states: seq<Sys>, events: seq<Event>)
    requires Run(states, events)
    ensures Races.Run(ApprovalStates(states), ApprovalEvents(events))
    ensures Lifecycle.Run(SessionStates(states), SessionEvents(events))
  {
    hide Races.Step, Lifecycle.Step, DoorStep, Races.Init, Lifecycle.Init;
    var a, b := ApprovalStates(states), ApprovalEvents(events);
    var c, d := SessionStates(states), SessionEvents(events);
    forall i | 0 <= i < |events|
      ensures Races.Step(a[i], b[i], a[i + 1]) && Lifecycle.Step(c[i], d[i], c[i + 1])
    {
      assert Step(states[i], events[i], states[i + 1]);
    }
  }

  // What came before a proxy -----------------------------------------------------------------

  ghost predicate TargetSeen(states: seq<Sys>, i: nat, user: string, target: Target)
    requires i < |states|
  {
    Accepted(states[i], user, target)
  }

  ghost predicate PolicySeen(states: seq<Sys>, i: nat, j: nat, who: Identity, user: string, target: Target)
    requires i < |states| && j < |states|
  {
    i <= j && TargetSeen(states, i, user, target) && Permitted(states[j], who, user, target)
  }

  /** The grant was live when it was looked up. */
  ghost predicate GrantSeen(states: seq<Sys>, i: nat, j: nat, k: nat, who: Identity, user: string,
                            target: Target, id: string, at: Instant)
    requires i < |states| && j < |states| && k < |states|
  {
    && j <= k && PolicySeen(states, i, j, who, user, target)
    && Approval.Live(states[k].approvals.table, id, Question(who, user, target), at)
  }

  /** One and the same call stands at the door from state i to state n. */
  ghost predicate SameCall(states: seq<Sys>, i: nat, n: nat, d: nat, who: Identity, user: string)
    requires n < |states|
  {
    forall m :: i <= m <= n ==> d in states[m].doors && states[m].doors[d].who == who && states[m].doors[d].user == user
  }

  ghost predicate HadTarget(states: seq<Sys>, n: nat, d: nat, who: Identity, user: string, target: Target)
    requires n < |states|
  {
    exists i :: 0 <= i < n && TargetSeen(states, i, user, target) && SameCall(states, i, n, d, who, user)
  }

  ghost predicate HadPolicy(states: seq<Sys>, n: nat, d: nat, who: Identity, user: string, target: Target)
    requires n < |states|
  {
    exists i, j :: 0 <= i < n && 0 <= j < n && PolicySeen(states, i, j, who, user, target)
                   && SameCall(states, i, n, d, who, user)
  }

  ghost predicate HadGrant(states: seq<Sys>, n: nat, d: nat, who: Identity, user: string, target: Target,
                           id: string, at: Instant)
    requires n < |states|
  {
    exists i, j, k :: 0 <= i < n && 0 <= j < n && 0 <= k < n && GrantSeen(states, i, j, k, who, user, target, id, at)
                      && SameCall(states, i, n, d, who, user)
  }

  ghost predicate Evidence(states: seq<Sys>, n: nat, d: nat, door: Door)
    requires n < |states|
  {
    match door.phase
    case TargetKnown(target) => HadTarget(states, n, d, door.who, door.user, target)
    case PolicyAllowed(target) => HadPolicy(states, n, d, door.who, door.user, target)
    case Granted(target, id, at) => HadGrant(states, n, d, door.who, door.user, target, id, at)
    case Proxying(target, id, at) => HadGrant(states, n, d, door.who, door.user, target, id, at)
    case _ => true
  }

  lemma SameCallLater(states: seq<Sys>, i: nat, n: nat, d: nat, who: Identity, user: string)
    requires 0 < n < |states| && i < n && SameCall(states, i, n - 1, d, who, user)
    requires d in states[n].doors && states[n].doors[d].who == who && states[n].doors[d].user == user
    ensures SameCall(states, i, n, d, who, user)
  {
  }

  lemma EvidenceLater(states: seq<Sys>, n: nat, d: nat, door: Door)
    requires 0 < n < |states| && Evidence(states, n - 1, d, door)
    requires d in states[n].doors && states[n].doors[d].who == door.who && states[n].doors[d].user == door.user
    ensures Evidence(states, n, d, door)
  {
    hide TargetSeen, PolicySeen, GrantSeen, SameCall;
    forall i: nat | i < n && SameCall(states, i, n - 1, d, door.who, door.user)
      ensures SameCall(states, i, n, d, door.who, door.user)
    {
      SameCallLater(states, i, n, d, door.who, door.user);
    }
  }

  lemma GrantIsLive(s: Sys, who: Identity, user: string, target: Target, now: Instant, row: Option<string>)
    requires HasGrant(s, who, user, target, now, row)
    ensures Approval.Live(s.approvals.table, row.value, Question(who, user, target), now)
  {
    hide Parse, Format, InRange;
    Approval.LookupIsSound(s.approvals.table, Question(who, user, target), now, row);
  }

  /** A step of a door adds the one fact its new phase stands for. */
  lemma NewEvidence(states: seq<Sys>, n: nat, d: nat, e: Event)
    requires 0 < n < |states| && DoorStep(states[n - 1], e, states[n])
    requires d in states[n].doors
    requires d in states[n - 1].doors ==>
      Evidence(states, n - 1, d, states[n - 1].doors[d]) && states[n].doors[d] != states[n - 1].doors[d]
    ensures Evidence(states, n, d, states[n].doors[d])
  {
    hide Accepted, Permitted, HasGrant, Approval.Live, RowMatches, EndsProcess, SameCall;
    var s, door := states[n - 1], states[n].doors[d];
    if e.ReadTarget? {
      OneStepCall(states, n, d, door);
      assert TargetSeen(states, n - 1, door.user, door.phase.target);
    } else if e.AskPolicy? {
      var i :| 0 <= i < n - 1 && TargetSeen(states, i, door.user, door.phase.target)
        && SameCall(states, i, n - 1, d, door.who, door.user);
      SameCallLater(states, i, n, d, door.who, door.user);
      assert PolicySeen(states, i, n - 1, door.who, door.user, door.phase.target);
    } else if e.AskGrant? {
      var target := door.phase.target;
      var i, j :| 0 <= i < n - 1 && 0 <= j < n - 1 && PolicySeen(states, i, j, door.who, door.user, target)
        && SameCall(states, i, n - 1, d, door.who, door.user);
      SameCallLater(states, i, n, d, door.who, door.user);
      GrantIsLive(s, door.who, door.user, target, e.now, e.row);
      assert GrantSeen(states, i, j, n - 1, door.who, door.user, target, door.phase.requestID, door.phase.at);
    } else if e.Enter? {
      EvidenceLater(states, n, d, s.doors[d]);
    }
  }

  lemma OneStepCall(states: seq<Sys>, n: nat, d: nat, door: Door)
    requires 0 < n < |states| && d in states[n - 1].doors && d in states[n].doors && states[n].doors[d] == door
    requires states[n - 1].doors[d].who == door.who && states[n - 1].doors[d].user == door.user
    ensures SameCall(states, n - 1, n, d, door.who, door.user)
  {
  }

  lemma {:induction false} DoorEvidence(states: seq<Sys>, events: seq<Event>, n: nat, d: nat)
    requires Run(states, events) && n <= |events| && d in states[n].doors
    ensures Evidence(states, n, d, states[n].doors[d])
  {
    hide Races.Step, Lifecycle.Step, Evidence, DoorStep;
    assert states[0].doors == map[];
    var s, e, t := states[n - 1], events[n - 1], states[n];
    assert Step(s, e, t);
    if d in s.doors {
      DoorEvidence(states, events, n - 1, d);
    }
    if d in s.doors && t.doors[d] == s.doors[d] {
      EvidenceLater(states, n, d, s.doors[d]);
    } else {
      NewEvidence(states, n, d, e);
    }
  }

  /** Every proxy was entered through a door that is still on record as granted. */
  lemma {:induction false} ProxiesHaveDoors(states: seq<Sys>, events: seq<Event>, n: nat, pid: nat)
    requires Run(states, events) && n <= |events| && pid in states[n].sessions.proxies
    ensures pid in states[n].doors && states[n].doors[pid].phase.Proxying?
  {
    hide Races.Step, Lifecycle.Step, DoorStep;
    assert states[0].sessions.proxies == map[];
    var s, e, t := states[n - 1], events[n - 1], states[n];
    assert Step(s, e, t);
    ProxyOrigin(s.sessions, SessionPart(e), t.sessions, pid);
    if pid in s.sessions.proxies {
      ProxiesHaveDoors(states, events, n - 1, pid);
      DoorsStay(s, e, t, pid);
    } else {
      DoorOpens(s, e, t);
    }
  }

  lemma ProxyOrigin(s: Lifecycle.Sys, e: Lifecycle.Event, t: Lifecycle.Sys, pid: nat)
    requires Lifecycle.Step(s, e, t) && pid in t.proxies
    ensures !EndsProcess(e)
    ensures pid !in s.proxies ==> e.Enter? && e.pid == pid
  {
    hide Lifecycle.ProxyStep, Lifecycle.KillStep, Lifecycle.NodeStep, Lifecycle.Up;
    if Lifecycle.ProxyStep(s, e, t) {
      Lifecycle.ProxyFrame(s, e, t);
      Lifecycle.NewProxies(s, e, t, pid);
    }
    if Lifecycle.KillStep(s, e, t) { Lifecycle.KillFrame(s, e, t); }
    if Lifecycle.NodeStep(s, e, t) { Lifecycle.NodeFrame(s, e, t); }
  }

  lemma DoorsStay(s: Sys, e: Event, t: Sys, d: nat)
    requires DoorStep(s, e, t) && !EndsProcess(SessionPart(e)) && d in s.doors && s.doors[d].phase.Proxying?
    ensures d in t.doors && t.doors[d] == s.doors[d]
  {
    hide Accepted, Permitted, HasGrant, RowMatches, EndsProcess;
  }

  lemma DoorOpens(s: Sys, e: Event, t: Sys)
    requires DoorStep(s, e, t) && SessionPart(e).Enter?
    ensures SessionPart(e).pid in t.doors && t.doors[SessionPart(e).pid].phase.Proxying?
  {
    hide Accepted, Permitted, HasGrant, RowMatches, EndsProcess;
  }

  // The main result ------------------------------------------------------------------------------

  /** The row behind a grant: approved by an admin who is not the requester, and raised by
      the requester under policies that allowed it then. */
  ghost predicate Sanctioned(states: seq<Sys>, k: nat, id: string)
    requires k < |states|
  {
    var a := states[k].approvals;
    && id in a.table && a.table[id].state == Approval.Approved && Races.RowOk(a.table[id])
    && (exists c :: Races.IsWinner(a, c, id) && a.calls[c].who.role == ROLE_ADMIN
                    && a.calls[c].who.userID != a.table[id].requester)
    && (exists c, m :: Races.IsRaiser(a, c, id) && 0 <= m < k && Races.RaisedOk(a.calls[c], a.table[id])
                       && Approval.Permitted(states[m].approvals.policies, a.calls[c].who,
                                             a.table[id].target, a.table[id].principal))
  }

  lemma LiveIsSanctioned(states: seq<Sys>, events: seq<Event>, k: nat, id: string, q: Approval.GrantQuery, now: Instant)
    requires Run(states, events) && k <= |events| && Approval.Live(states[k].approvals.table, id, q, now)
    ensures Sanctioned(states, k, id)
  {
    hide Step, Races.Step, Races.RowOk, Races.RaisedOk, Approval.Permitted, Parse, Init;
    Subruns(states, events);
    var a, b := ApprovalStates(states), ApprovalEvents(events);
    Races.ApprovedRowStory(a, b, k, id);
    var c, m :| Races.IsRaiser(a[k], c, id) && 0 <= m < k && Races.RaisedOk(a[k].calls[c], a[k].table[id])
            && Approval.Permitted(a[m].policies, a[k].calls[c].who, a[k].table[id].target, a[k].table[id].principal);
    assert a[m] == states[m].approvals;
  }

  /** In every run, a session that reaches the dial was preceded, in the same call and in
      this order, by: a target that accepts the principal and has a pinned key; a policy
      naming that very user or role; a grant live at that moment, whose row was approved by
      an admin other than its requester and raised under a policy that allowed it. And at
      the dial the recording, the session row and the registry entry exist. */
  lemma DialIsAuthorised(states: seq<Sys>, events: seq<Event>, n: nat)
    requires Run(states, events) && n < |events|
    requires events[n].Sessions? && events[n].sessionEvent.Dial?
    ensures var pid, s := events[n].sessionEvent.pid, states[n];
      && pid in s.doors && s.doors[pid].phase.Proxying?
      && var door := s.doors[pid];
         (exists i, j, k :: 0 <= i < n && 0 <= j < n && 0 <= k < n
            && GrantSeen(states, i, j, k, door.who, door.user, door.phase.target, door.phase.requestID, door.phase.at)
            && SameCall(states, i, n, pid, door.who, door.user)
            && Sanctioned(states, k, door.phase.requestID))
    ensures var pid, l := events[n].sessionEvent.pid, states[n].sessions;
      && pid in l.proxies && l.proxies[pid].sid in l.files && l.proxies[pid].sid in l.rows
      && l.proxies[pid].sid in l.live && l.live[l.proxies[pid].sid] == pid
  {
    hide Races.Step, DoorStep, GrantSeen, SameCall, Sanctioned, Lifecycle.Init, Races.Init;
    var pid := events[n].sessionEvent.pid;
    assert Step(states[n], events[n], states[n + 1]);
    assert Lifecycle.ProxyStep(states[n].sessions, events[n].sessionEvent, states[n + 1].sessions);
    Subruns(states, events);
    var l, f := SessionStates(states), SessionEvents(events);
    Lifecycle.RegisterIsFresh(l, f, n);
    ProxiesHaveDoors(states, events, n, pid);
    DoorEvidence(states, events, n, pid);
    var door := states[n].doors[pid];
    var p := door.phase;
    var i, j, k :| 0 <= i < n && 0 <= j < n && 0 <= k < n
      && GrantSeen(states, i, j, k, door.who, door.user, p.target, p.requestID, p.at)
      && SameCall(states, i, n, pid, door.who, door.user);
    SeenIsSanctioned(states, events, i, j, k, door);
  }

  lemma SeenIsSanctioned(states: seq<Sys>, events: seq<Event>, i: nat, j: nat, k: nat, door: Door)
    requires Run(states, events) && i <= |events| && j <= |events| && k <= |events| && door.phase.Proxying?
    requires GrantSeen(states, i, j, k, door.who, door.user, door.phase.target, door.phase.requestID, door.phase.at)
    ensures Sanctioned(states, k, door.phase.requestID)
  {
    hide Step, Approval.Live, Accepted, Permitted, Init;
    var p := door.phase;
    LiveIsSanctioned(states, events, k, p.requestID, Question(door.who, door.user, p.target), p.at);
  }
}
