/** Any number of requesters, approvers, deniers and cancellers at once: every service call
    is cut at its statements (policy query, insert; read and checks, update), and the pieces
    of different calls interleave freely. A call may also stop at any point. */
module ApprovalRaces {
  import opened Texts
  import opened Authz
  import opened Rfc3339
  import opened Approval
  import Policy

  datatype RaisePhase = Asking | Allowed | Raised(id: string) | Unraised
  datatype SettlePhase = Reading | Ready(req: Request, at: Instant) | Won(at: Instant, told: bool) | Lost

  datatype Call =
    | Raising(who: Identity, input: CreateInput, raise: RaisePhase)
    | Settling(who: Identity, id: string, verb: State, settle: SettlePhase)

  datatype Sys = Sys(table: Table, policies: Policy.Table, calls: map<nat, Call>)

  datatype Event =
    | Begin(c: nat, call: Call)
    | Authorise(c: nat)
    | Insert(c: nat, id: string, now: Instant)
    | Read(c: nat, now: Instant)
    | CompareAndSet(c: nat, told: bool)
    | Stop(c: nat)
    | PolicyChange(policies: Policy.Table)
    | Idle

  ghost predicate Init(s: Sys) {
    s.table == map[] && s.calls == map[] && Policy.Valid(s.policies)
  }

  predicate Fresh(call: Call) {
    match call
    case Raising(_, _, phase) => phase == Asking
    case Settling(_, _, verb, phase) => verb in {Approved, Denied, Cancelled} && phase == Reading
  }

  /** One call moves to its next phase; everything else may change only as said. */
  predicate Moves(s: Sys, c: nat, call: Call, t: Sys) {
    c in s.calls && t.calls == s.calls[c := call] && t.policies == s.policies
  }

  ghost predicate Authorises(s: Sys, c: nat, t: Sys) {
    && c in s.calls && s.calls[c].Raising? && s.calls[c].raise == Asking
    && CheckInput(s.calls[c].input).Done?
    && Permitted(s.policies, s.calls[c].who, s.calls[c].input.target, s.calls[c].input.principal)
    && Moves(s, c, s.calls[c].(raise := Allowed), t) && t.table == s.table
  }

  ghost predicate Inserts(s: Sys, c: nat, id: string, now: Instant, t: Sys) {
    && c in s.calls && s.calls[c].Raising? && s.calls[c].raise == Allowed
    && CheckInput(s.calls[c].input).Done? && ClockOk(now) && id !in s.table
    && Moves(s, c, s.calls[c].(raise := Raised(id)), t)
    && t.table == s.table[id := NewRow(s.calls[c].who.userID, s.calls[c].input, CheckInput(s.calls[c].input).value, now)]
  }

  ghost predicate Reads(s: Sys, c: nat, now: Instant, t: Sys) {
    && c in s.calls && s.calls[c].Settling? && s.calls[c].settle == Reading && ClockOk(now)
    && var checked := Check(s.table, s.calls[c].who, s.calls[c].id, s.calls[c].verb, now);
       checked.Done? && Moves(s, c, s.calls[c].(settle := Ready(checked.value, now)), t) && t.table == s.table
  }

  ghost predicate ComparesAndSets(s: Sys, c: nat, told: bool, t: Sys) {
    && c in s.calls && s.calls[c].Settling? && s.calls[c].settle.Ready?
    && var call := s.calls[c];
       var at := call.settle.at;
       var expires := ExpiryFor(call.settle.req, call.verb, at);
       0 <= at && 0 <= expires
       && t.table == Update(s.table, call.id, call.verb, call.who.userID, at, expires)
       && Moves(s, c, call.(settle := if IsPending(s.table, call.id) then Won(at, told) else Lost), t)
  }

  ghost predicate Step(s: Sys, e: Event, t: Sys) {
    match e
    case Begin(c, call) => c !in s.calls && Fresh(call) && t == s.(calls := s.calls[c := call])
    case Authorise(c) => Authorises(s, c, t)
    case Insert(c, id, now) => Inserts(s, c, id, now, t)
    case Read(c, now) => Reads(s, c, now, t)
    case CompareAndSet(c, told) => ComparesAndSets(s, c, told, t)
    case Stop(c) =>
      c in s.calls && !Finished(s.calls[c]) && Moves(s, c, Stopped(s.calls[c]), t) && t.table == s.table
    case PolicyChange(p) => Policy.Valid(p) && t == s.(policies := p)
    case Idle => t == s
  }

  predicate Finished(call: Call) {
    match call
    case Raising(_, _, phase) => phase.Raised? || phase.Unraised?
    case Settling(_, _, _, phase) => phase.Won? || phase.Lost?
  }

  function Stopped(call: Call): Call {
    match call
    case Raising(_, _, _) => call.(raise := Unraised)
    case Settling(_, _, _, _) => call.(settle := Lost)
  }

  // What every reachable state keeps --------------------------------------------------

  /** Deciders are admins and not the requester; only the requester cancels. */
  predicate Rights(who: Identity, verb: State, requester: string) {
    if verb == Cancelled then who.userID == requester
    else who.role == ROLE_ADMIN && who.userID != requester
  }

  predicate SettledRow(row: Row) {
    && row.decidedBy.Some? && row.decidedAt.Some?
    && IsStamp(row.decidedAt.value) && IsStamp(row.requestExpiresAt)
    && StampTime(row.decidedAt.value) < StampTime(row.requestExpiresAt)
    && (row.state == Cancelled <==> row.decidedBy.value == row.requester)
    && (row.state == Approved <==> row.grantExpiresAt.Some?)
    && (row.state == Approved ==>
          IsStamp(row.grantExpiresAt.value)
          && StampTime(row.grantExpiresAt.value) == StampTime(row.decidedAt.value) + row.ttlSeconds * SECOND)
  }

  /** Expiry is never stored as a state; a settled row carries who settled it and when,
      inside the request window; a grant lasts exactly its stored TTL. */
  predicate RowOk(row: Row) {
    && StampedRow(row)
    && 0 <= row.ttlSeconds * SECOND <= MAX_GRANT_TTL
    && row.state != Expired
    && (if row.state == Pending then row.decidedBy == None && row.decidedAt == None && row.grantExpiresAt == None
        else SettledRow(row))
  }

  predicate ReadyOk(call: Call, row: Row)
    requires call.Settling? && call.settle.Ready?
  {
    var req, at := call.settle.req, call.settle.at;
    && ClockOk(at) && IsStamp(row.requestExpiresAt) && at < StampTime(row.requestExpiresAt)
    && req.ttl == row.ttlSeconds * SECOND
    && Rights(call.who, call.verb, row.requester)
  }

  predicate WonOk(call: Call, row: Row)
    requires call.Settling? && call.settle.Won?
  {
    && row.state == call.verb && row.decidedBy == Some(call.who.userID)
    && 0 <= call.settle.at && row.decidedAt == Some(Format(call.settle.at))
    && Rights(call.who, call.verb, row.requester)
  }

  predicate RaisedOk(call: Call, row: Row)
    requires call.Raising?
  {
    && row.requester == call.who.userID && row.target == call.input.target && row.principal == call.input.principal
    && row.reason == call.input.reason && row.ttlSeconds == Seconds(EffectiveTTL(call.input.ttl))
  }

  predicate CallOk(table: Table, call: Call) {
    match call
    case Raising(_, _, phase) => phase.Raised? ==> phase.id in table && RaisedOk(call, table[phase.id])
    case Settling(_, id, verb, phase) =>
      (&& verb in {Approved, Denied, Cancelled}
       && (phase.Ready? ==> id in table && ReadyOk(call, table[id]))
       && (phase.Won? ==> id in table && WonOk(call, table[id])))
  }

  predicate IsWinner(s: Sys, c: nat, id: string) {
    c in s.calls && s.calls[c].Settling? && s.calls[c].id == id && s.calls[c].settle.Won?
  }

  predicate IsRaiser(s: Sys, c: nat, id: string) {
    c in s.calls && s.calls[c].Raising? && s.calls[c].raise == Raised(id)
  }

  ghost predicate RowsOk(s: Sys) { forall id :: id in s.table ==> RowOk(s.table[id]) }

  ghost predicate CallsOk(s: Sys) { forall c :: c in s.calls ==> CallOk(s.table, s.calls[c]) }

  /** A request is won by at most one call, and a won request is settled. */
  ghost predicate WinnersOk(s: Sys) {
    && (forall a, b, id :: IsWinner(s, a, id) && IsWinner(s, b, id) ==> a == b)
    && (forall c, id :: IsWinner(s, c, id) ==> id in s.table && s.table[id].state != Pending)
  }

  /** Every row was raised by some call, and every settled row was won by some call. */
  ghost predicate OwnersOk(s: Sys) {
    && (forall id :: id in s.table && s.table[id].state != Pending ==> exists c :: IsWinner(s, c, id))
    && (forall id :: id in s.table ==> exists c :: IsRaiser(s, c, id))
  }

  ghost predicate Inv(s: Sys) {
    RowsOk(s) && CallsOk(s) && WinnersOk(s) && OwnersOk(s) && Policy.Valid(s.policies)
  }

  /** What a later table may have done to a row: pending rows may be settled once, settled
      rows stand, and what the requester asked for never changes. */
  predicate RowKept(a: Row, b: Row) {
    && (a.state != Pending ==> b == a)
    && b.requester == a.requester && b.target == a.target && b.principal == a.principal && b.reason == a.reason
    && b.ttlSeconds == a.ttlSeconds && b.createdAt == a.createdAt && b.requestExpiresAt == a.requestExpiresAt
  }

  predicate TableKept(s: Table, t: Table) {
    forall id :: id in s ==> id in t && RowKept(s[id], t[id])
  }

  // Single rows -------------------------------------------------------------------------

  lemma NewRowOk(who: string, input: CreateInput, now: Instant)
    requires CheckInput(input).Done? && ClockOk(now)
    ensures RowOk(NewRow(who, input, CheckInput(input).value, now))
    ensures CheckInput(input).value == EffectiveTTL(input.ttl)
  {
    hide Parse, Format, ClockOf, Validate.HasPrefix, Validate.Principal, ReasonOk;
    StampOf(now + PENDING_WINDOW);
    StampOf(now);
  }

  /** A request that passed the checks may be settled as the call intends. */
  lemma CheckedIsReady(t: Table, who: Identity, id: string, verb: State, now: Instant)
    requires id in t ==> RowOk(t[id])
    requires verb in {Approved, Denied, Cancelled} && ClockOk(now)
    requires Check(t, who, id, verb, now).Done?
    ensures id in t && ReadyOk(Settling(who, id, verb, Ready(Check(t, who, id, verb, now).value, now)), t[id])
    ensures t[id].state == Pending
  {
    hide Parse, Format, InRange;
  }

  /** Cutting decision time and expiry to whole seconds keeps the expiry exactly one TTL
      after the decision, and the decision before the end of the request window. */
  lemma SettledOk(row: Row, call: Call, told: bool)
    requires RowOk(row) && row.state == Pending
    requires call.Settling? && call.settle.Ready? && call.verb in {Approved, Denied, Cancelled} && ReadyOk(call, row)
    ensures var at := call.settle.at;
      var expires := ExpiryFor(call.settle.req, call.verb, at);
      && 0 <= at && 0 <= expires
      && var after := Settled(row, call.verb, call.who.userID, at, expires);
         RowOk(after) && RowKept(row, after) && after.state == call.verb
         && WonOk(call.(settle := Won(at, told)), after)
  {
    hide Parse, Format, ClockOf;
    var at := call.settle.at;
    var expires := ExpiryFor(call.settle.req, call.verb, at);
    StampOf(at);
    if call.verb == Approved {
      StampOf(expires);
      assert Seconds(expires) == Seconds(at) + row.ttlSeconds;
    }
  }

  /** What a successful caller is told is what is stored, up to the cut to whole seconds. */
  lemma ToldIsStored(before: Table, who: Identity, id: string, verb: State, now: Instant, after: Table, told: Request)
    requires verb in {Approved, Denied, Cancelled} && ClockOk(now)
    requires id in before ==> RowOk(before[id])
    requires IsSettlement(before, who, id, verb, now, after, Done(told))
    ensures id in after
    ensures Scan(id, after[id]) == Some(told.(decidedAt := Floor(now), grantExpiresAt := Floor(told.grantExpiresAt)))
  {
    hide Parse, Format, ClockOf;
    ParseOfFormat(now);
    var expires := told.grantExpiresAt;
    assert 0 <= expires < END_OF_RANGE;
    ParseOfFormat(expires);
  }

  // Steps ---------------------------------------------------------------------------------

  lemma CallKept(s: Table, t: Table, call: Call)
    requires TableKept(s, t) && CallOk(s, call)
    requires call.Settling? && call.settle.Won? ==> call.id in s && s[call.id].state != Pending
    ensures CallOk(t, call)
  {
    hide Parse, Format, InRange, ClockOk;
  }

  /** What one moving call may do to a row: nothing, raise it, or settle it. */
  predicate RowMove(s: Sys, c: nat, t: Sys, id: string)
    requires id in t.table
  {
    || (id in s.table && t.table[id] == s.table[id])
    || (id !in s.table && t.table[id].state == Pending && IsRaiser(t, c, id))
    || (IsPending(s.table, id) && t.table[id].state != Pending && IsWinner(t, c, id))
  }

  ghost predicate GoodMove(s: Sys, c: nat, t: Sys) {
    && c in t.calls && t.calls == s.calls[c := t.calls[c]]
    && (c in s.calls ==> !Finished(s.calls[c]))
    && t.policies == s.policies
    && TableKept(s.table, t.table)
    && (forall id :: id in t.table ==> RowOk(t.table[id]) && RowMove(s, c, t, id))
    && CallOk(t.table, t.calls[c])
    && (forall id :: IsWinner(t, c, id) ==> IsPending(s.table, id) && t.table[id].state != Pending)
  }

  lemma OthersKept(s: Sys, c: nat, t: Sys)
    requires GoodMove(s, c, t)
    ensures forall d, id :: d != c ==> (IsWinner(t, d, id) <==> IsWinner(s, d, id))
    ensures forall d, id :: d != c ==> (IsRaiser(t, d, id) <==> IsRaiser(s, d, id))
    ensures forall id :: !IsWinner(s, c, id) && !IsRaiser(s, c, id)
  {
    hide RowOk, CallOk, RowKept;
  }

  lemma CallsAfterMove(s: Sys, c: nat, t: Sys)
    requires CallsOk(s) && WinnersOk(s) && GoodMove(s, c, t)
    ensures CallsOk(t)
  {
    hide RowOk, CallOk, RowKept, RowMove;
    forall d | d in t.calls ensures CallOk(t.table, t.calls[d]) {
      if d != c {
        assert t.calls[d] == s.calls[d];
        if s.calls[d].Settling? && s.calls[d].settle.Won? {
          assert IsWinner(s, d, s.calls[d].id);
        }
        CallKept(s.table, t.table, t.calls[d]);
      }
    }
  }

  lemma OwnersAfterMove(s: Sys, c: nat, t: Sys)
    requires OwnersOk(s) && GoodMove(s, c, t)
    ensures OwnersOk(t)
  {
    hide RowOk, CallOk, RowKept, IsWinner, IsRaiser;
    OthersKept(s, c, t);
    forall id | id in t.table && t.table[id].state != Pending ensures exists d :: IsWinner(t, d, id) {
      assert RowMove(s, c, t, id);
      if !IsWinner(t, c, id) {
        var d :| IsWinner(s, d, id);
        assert IsWinner(t, d, id);
      }
    }
    forall id | id in t.table ensures exists d :: IsRaiser(t, d, id) {
      assert RowMove(s, c, t, id);
      if !IsRaiser(t, c, id) {
        var d :| IsRaiser(s, d, id);
        assert IsRaiser(t, d, id);
      }
    }
  }

  lemma WinnersAfterMove(s: Sys, c: nat, t: Sys)
    requires WinnersOk(s) && GoodMove(s, c, t)
    ensures WinnersOk(t)
  {
    hide RowOk, CallOk, IsWinner, IsRaiser, RowMove;
    OthersKept(s, c, t);
    forall d, id | IsWinner(t, d, id) ensures id in t.table && t.table[id].state != Pending {
      if d != c {
        assert IsWinner(s, d, id);
        assert RowKept(s.table[id], t.table[id]);
      }
    }
    forall a, b, id | IsWinner(t, a, id) && IsWinner(t, b, id) ensures a == b {
      if a != c { assert IsWinner(s, a, id); }
      if b != c { assert IsWinner(s, b, id); }
    }
  }

  lemma MoveKeeps(s: Sys, c: nat, t: Sys)
    requires Inv(s) && GoodMove(s, c, t)
    ensures Inv(t)
  {
    hide CallsOk, WinnersOk, OwnersOk, RowOk, CallOk, RowMove, TableKept, Policy.Valid;
    CallsAfterMove(s, c, t);
    OwnersAfterMove(s, c, t);
    WinnersAfterMove(s, c, t);
  }

  // The events ------------------------------------------------------------------------------

  /** Moves that touch no row and win nothing. */
  lemma QuietMove(s: Sys, c: nat, t: Sys)
    requires RowsOk(s) && t.table == s.table && t.policies == s.policies
    requires c in t.calls && t.calls == s.calls[c := t.calls[c]] && CallOk(t.table, t.calls[c])
    requires c in s.calls ==> !Finished(s.calls[c])
    requires t.calls[c].Settling? ==> !t.calls[c].settle.Won?
    ensures GoodMove(s, c, t)
  {
    hide RowOk, CallOk;
  }

  lemma InsertIsGood(s: Sys, c: nat, id: string, now: Instant, t: Sys)
    requires RowsOk(s) && Inserts(s, c, id, now, t)
    ensures GoodMove(s, c, t)
  {
    hide CheckInput, Format, RowOk;
    NewRowOk(s.calls[c].who.userID, s.calls[c].input, now);
  }

  lemma ReadIsGood(s: Sys, c: nat, now: Instant, t: Sys)
    requires RowsOk(s) && CallsOk(s) && Reads(s, c, now, t)
    ensures GoodMove(s, c, t)
  {
    hide RowOk, ReadyOk, Check, ClockOk;
    var call := s.calls[c];
    assert CallOk(s.table, call);
    CheckedIsReady(s.table, call.who, call.id, call.verb, now);
    QuietMove(s, c, t);
  }

  lemma CompareAndSetIsGood(s: Sys, c: nat, told: bool, t: Sys)
    requires RowsOk(s) && CallsOk(s) && ComparesAndSets(s, c, told, t)
    ensures GoodMove(s, c, t)
  {
    hide RowOk, ReadyOk, WonOk, Settled, ExpiryFor;
    var call := s.calls[c];
    assert CallOk(s.table, call);
    if IsPending(s.table, call.id) {
      SettledOk(s.table[call.id], call, told);
    } else {
      QuietMove(s, c, t);
    }
  }

  lemma StepKeeps(s: Sys, e: Event, t: Sys)
    requires Inv(s) && Step(s, e, t)
    ensures Inv(t) && TableKept(s.table, t.table)
  {
    hide Inserts, Reads, ComparesAndSets, Inv;
    match e {
      case Begin(c, call) =>
        QuietStep(s, c, t);
      case Authorise(c) =>
        QuietStep(s, c, t);
      case Insert(c, id, now) =>
        InvParts(s);
        InsertIsGood(s, c, id, now, t);
        MoveKeeps(s, c, t);
      case Read(c, now) =>
        InvParts(s);
        ReadIsGood(s, c, now, t);
        MoveKeeps(s, c, t);
      case CompareAndSet(c, told) =>
        InvParts(s);
        CompareAndSetIsGood(s, c, told, t);
        MoveKeeps(s, c, t);
      case Stop(c) =>
        QuietStep(s, c, t);
      case PolicyChange(p) =>
        OtherTablesKeep(s, t);
      case Idle =>
    }
  }

  lemma InvParts(s: Sys)
    requires Inv(s)
    ensures RowsOk(s) && CallsOk(s)
  {
  }

  lemma QuietStep(s: Sys, c: nat, t: Sys)
    requires Inv(s) && t.table == s.table && t.policies == s.policies
    requires c in t.calls && t.calls == s.calls[c := t.calls[c]]
    requires c !in s.calls ==> Fresh(t.calls[c])
    requires c in s.calls ==> !Finished(s.calls[c])
    requires c in s.calls ==>
      (t.calls[c] == Stopped(s.calls[c]) || (s.calls[c].Raising? && t.calls[c] == s.calls[c].(raise := Allowed)))
    ensures Inv(t)
  {
    hide RowOk, ReadyOk, WonOk, WinnersOk, OwnersOk, Policy.Valid;
    if c in s.calls { assert CallOk(s.table, s.calls[c]); }
    QuietMove(s, c, t);
    MoveKeeps(s, c, t);
  }

  lemma OtherTablesKeep(s: Sys, t: Sys)
    requires Inv(s) && t == s.(policies := t.policies) && Policy.Valid(t.policies)
    ensures Inv(t) && TableKept(s.table, t.table)
  {
    hide RowOk, CallOk, Policy.Valid;
    assert forall d, id :: IsWinner(t, d, id) <==> IsWinner(s, d, id);
    assert forall d, id :: IsRaiser(t, d, id) <==> IsRaiser(s, d, id);
    forall id | id in t.table ensures exists d :: IsRaiser(t, d, id) {
      var d :| IsRaiser(s, d, id);
      assert IsRaiser(t, d, id);
    }
    forall id | id in t.table && t.table[id].state != Pending ensures exists d :: IsWinner(t, d, id) {
      var d :| IsWinner(s, d, id);
      assert IsWinner(t, d, id);
    }
  }

  // Runs ------------------------------------------------------------------------------------

  ghost predicate Run(states: seq<Sys>, events: seq<Event>) {
    && |states| == |events| + 1 && Init(states[0])
    && forall i :: 0 <= i < |events| ==> Step(states[i], events[i], states[i + 1])
  }

  lemma {:induction false} RunKeeps(states: seq<Sys>, events: seq<Event>, n: nat)
    requires Run(states, events) && n <= |events|
    ensures Inv(states[n])
  {
    hide Step, Inv;
    if n == 0 {
      InitOk(states[0]);
    } else {
      RunKeeps(states, events, n - 1);
      StepKeeps(states[n - 1], events[n - 1], states[n]);
    }
  }

  lemma InitOk(s: Sys)
    requires Init(s)
    ensures Inv(s)
  {
  }

  /** A request leaves pending at most once: once a row is settled, its state, decider,
      decision time and expiry are the same in every later state. */
  lemma {:induction false} SettledForever(states: seq<Sys>, events: seq<Event>, i: nat, j: nat)
    requires Run(states, events) && i <= j <= |events|
    ensures TableKept(states[i].table, states[j].table)
    decreases j
  {
    hide Step, Inv;
    if i < j {
      SettledForever(states, events, i, j - 1);
      RunKeeps(states, events, j - 1);
      StepKeeps(states[j - 1], events[j - 1], states[j]);
    }
  }

  /** In every reachable state a settled request has exactly one call whose update took
      effect, and that call is the row's decider; every other call on it was refused. */
  lemma OneWinner(states: seq<Sys>, events: seq<Event>, n: nat, id: string)
    requires Run(states, events) && n <= |events| && id in states[n].table
    ensures var s := states[n];
      if s.table[id].state == Pending then forall c :: !IsWinner(s, c, id)
      else exists c :: IsWinner(s, c, id) && WonOk(s.calls[c], s.table[id])
                       && forall d :: IsWinner(s, d, id) ==> d == c
  {
    hide Step, RowOk, WonOk;
    RunKeeps(states, events, n);
    var s := states[n];
    if s.table[id].state != Pending {
      var c :| IsWinner(s, c, id);
      assert CallOk(s.table, s.calls[c]);
    }
  }

  /** Every stored request was raised by its requester with the policies of an earlier
      state allowing exactly this requester, target and principal. */
  lemma {:induction false} AuthorisedWhenRaised(states: seq<Sys>, events: seq<Event>, n: nat, c: nat)
    requires Run(states, events) && n <= |events| && c in states[n].calls && states[n].calls[c].Raising?
    requires states[n].calls[c].raise.Allowed? || states[n].calls[c].raise.Raised?
    ensures var call := states[n].calls[c];
      exists k :: 0 <= k < n && Permitted(states[k].policies, call.who, call.input.target, call.input.principal)
  {
    hide Permitted, Check, CheckInput, NewRow, Update, Policy.Valid;
    assert n > 0;
    assert Step(states[n - 1], events[n - 1], states[n]);
    var s, t := states[n - 1], states[n];
    if events[n - 1].Authorise? && events[n - 1].c == c {
      assert Permitted(s.policies, t.calls[c].who, t.calls[c].input.target, t.calls[c].input.principal);
    } else {
      assert c in s.calls && s.calls[c].Raising?;
      assert s.calls[c].who == t.calls[c].who && s.calls[c].input == t.calls[c].input;
      AuthorisedWhenRaised(states, events, n - 1, c);
    }
  }

  lemma DeciderOf(s: Sys, id: string)
    requires Inv(s) && id in s.table && s.table[id].state == Approved
    ensures RowOk(s.table[id])
    ensures exists c :: IsWinner(s, c, id) && WonOk(s.calls[c], s.table[id])
  {
    hide RowOk, WonOk;
    var w :| IsWinner(s, w, id);
    assert CallOk(s.table, s.calls[w]);
  }

  lemma RaiserOf(s: Sys, id: string)
    requires Inv(s) && id in s.table
    ensures exists c :: IsRaiser(s, c, id) && RaisedOk(s.calls[c], s.table[id])
  {
    hide RowOk, WonOk;
    var r :| IsRaiser(s, r, id);
    assert CallOk(s.table, s.calls[r]);
  }

  /** The whole story of a stored grant, in every reachable state: raised by its requester
      under a policy that then allowed it, approved by an admin other than the requester
      inside the request window, for exactly the stored TTL of at most twelve hours. */
  lemma ApprovedRowStory(states: seq<Sys>, events: seq<Event>, n: nat, id: string)
    requires Run(states, events) && n <= |events|
    requires id in states[n].table && states[n].table[id].state == Approved
    ensures var s := states[n]; var row := s.table[id];
      && RowOk(row)
      && (exists c :: IsWinner(s, c, id) && s.calls[c].verb == Approved
            && row.decidedBy == Some(s.calls[c].who.userID)
            && s.calls[c].who.role == ROLE_ADMIN && s.calls[c].who.userID != row.requester)
      && (exists c, k :: IsRaiser(s, c, id) && 0 <= k < n && RaisedOk(s.calls[c], row)
            && Permitted(states[k].policies, s.calls[c].who, row.target, row.principal))
  {
    hide Step, Inv, Permitted, RowOk, Format;
    RunKeeps(states, events, n);
    var s := states[n];
    DeciderOf(s, id);
    RaiserOf(s, id);
    var w :| IsWinner(s, w, id) && WonOk(s.calls[w], s.table[id]);
    var r :| IsRaiser(s, r, id) && RaisedOk(s.calls[r], s.table[id]);
    AuthorisedWhenRaised(states, events, n, r);
    var input := s.calls[r].input;
    var k :| 0 <= k < n && Permitted(states[k].policies, s.calls[r].who, input.target, input.principal);
  }

  /** In every reachable state the grant lookup is exact. */
  lemma LookupInRuns(states: seq<Sys>, events: seq<Event>, n: nat, q: GrantQuery, now: Instant, r: Option<string>)
    requires Run(states, events) && n <= |events|
    requires ClockOk(now) && IsActiveGrant(states[n].table, q, Format(now), r)
    ensures var t := states[n].table;
      && Answer(t, r, now) != Unreadable
      && (Answer(t, r, now).Active? <==> exists id :: Live(t, id, q, now))
      && (Answer(t, r, now).Active? ==> Live(t, Answer(t, r, now).requestID, q, now))
  {
    hide Step, Parse, Format, InRange, Live, StampedRow, IsActiveGrant;
    RunKeeps(states, events, n);
    ClockInWindow(now);
    LookupIsExact(states[n].table, q, now, r);
  }

  lemma ClockInWindow(now: Instant)
    requires ClockOk(now)
    ensures InRange(now)
  {
  }
}
