/** Just-in-time access requests: the rows, their derived states and the grant lookup. */
module Approval {
  import opened Texts
  import opened Authz
  import opened Rfc3339
  import Policy
  import Validate

  const PENDING_WINDOW := 24 * HOUR
  const DEFAULT_GRANT_TTL := HOUR
  const MAX_GRANT_TTL := 12 * HOUR
  const MAX_REASON_LEN := 500

  datatype State = Pending | Approved | Denied | Cancelled | Expired

  /** A row of `access_requests`; the nullable columns are options. */
  datatype Row = Row(requester: string, target: string, principal: string, reason: string, state: State,
                     ttlSeconds: int, createdAt: string, requestExpiresAt: string,
                     decidedBy: Option<string>, decidedAt: Option<string>, grantExpiresAt: Option<string>)

  type Table = map<string, Row>

  /** A row as it is read: absent texts become zero values. */
  datatype Request = Request(id: string, requester: string, target: string, principal: string, reason: string,
                             state: State, ttl: int, createdAt: Instant, requestExpiresAt: Instant,
                             decidedBy: string, decidedAt: Instant, grantExpiresAt: Instant)

  datatype CreateInput = CreateInput(target: string, principal: string, reason: string, ttl: int)

  datatype GrantQuery = GrantQuery(userID: string, target: string, principal: string)

  // Derived states -----------------------------------------------------------------

  function EffectiveState(r: Request, now: Instant): State {
    if r.state == Pending && now >= r.requestExpiresAt then Expired
    else if r.state == Approved && now >= r.grantExpiresAt then Expired
    else r.state
  }

  predicate GrantsAccess(r: Request, now: Instant) {
    r.state == Approved && now < r.grantExpiresAt
  }

  // Rows ----------------------------------------------------------------------------

  function ParseOptional(text: Option<string>): Option<Instant> {
    match text
    case None => Some(ZERO_TIME)
    case Some(s) => Parse(s)
  }

  function Scan(id: string, row: Row): Option<Request> {
    match (Parse(row.createdAt), Parse(row.requestExpiresAt), ParseOptional(row.decidedAt),
           ParseOptional(row.grantExpiresAt))
    case (Some(created), Some(expires), Some(decided), Some(grant)) =>
      Some(Request(id, row.requester, row.target, row.principal, row.reason, row.state,
                   row.ttlSeconds * SECOND, created, expires,
                   if row.decidedBy.Some? then row.decidedBy.value else "", decided, grant))
    case _ => None
  }

  /** Clock readings after the zero time whose windows stay within year 9999. */
  predicate ClockOk(now: Instant) {
    ZERO_TIME < now && InRange(now + PENDING_WINDOW)
  }

  /** The request `create` builds, and the row it is stored as. The stored TTL is
      int64(ttl.Seconds()). */
  function NewRow(requester: string, input: CreateInput, ttl: int, now: Instant): Row
    requires 0 <= now
  {
    Row(requester, input.target, input.principal, input.reason, Pending, Seconds(ttl),
        Format(now), Format(now + PENDING_WINDOW), None, None, None)
  }

  /** SET state, decided_by, decided_at, grant_expires_at; a zero expiry is stored as NULL. */
  function Settled(row: Row, state: State, decider: string, at: Instant, expires: Instant): Row
    requires 0 <= at && 0 <= expires
  {
    row.(state := state, decidedBy := Some(decider), decidedAt := Some(Format(at)),
         grantExpiresAt := if expires == ZERO_TIME then None else Some(Format(expires)))
  }

  predicate IsPending(t: Table, id: string) { id in t && t[id].state == Pending }

  /** UPDATE ... WHERE id = ? AND state = 'pending' */
  function Update(t: Table, id: string, state: State, decider: string, at: Instant, expires: Instant): Table
    requires 0 <= at && 0 <= expires
  {
    if IsPending(t, id) then t[id := Settled(t[id], state, decider, at, expires)] else t
  }

  /** WHERE requester, target, principal, state = 'approved' AND grant_expires_at > now.
      A comparison with NULL is not true. */
  predicate Selected(row: Row, q: GrantQuery, now: string) {
    && row.requester == q.userID && row.target == q.target && row.principal == q.principal
    && row.state == Approved
    && row.grantExpiresAt.Some? && Less(now, row.grantExpiresAt.value)
  }

  /** ORDER BY grant_expires_at DESC LIMIT 1: any row of greatest text may come first. */
  ghost predicate IsActiveGrant(t: Table, q: GrantQuery, now: string, r: Option<string>) {
    match r
    case None => forall id :: id in t ==> !Selected(t[id], q, now)
    case Some(id) =>
      (&& id in t && Selected(t[id], q, now)
       && forall other :: other in t && Selected(t[other], q, now) ==>
            AtMost(t[other].grantExpiresAt.value, t[id].grantExpiresAt.value))
  }

  lemma {:induction false} GreatestExists(t: Table, ids: set<string>) returns (top: string)
    requires ids != {} && ids <= t.Keys && forall id :: id in ids ==> t[id].grantExpiresAt.Some?
    ensures top in ids
    ensures forall id :: id in ids ==> AtMost(t[id].grantExpiresAt.value, t[top].grantExpiresAt.value)
    decreases |ids|
  {
    var id :| id in ids;
    top := id;
    var rest := ids - {id};
    if rest != {} {
      var g := GreatestExists(t, rest);
      var a, b := t[id].grantExpiresAt.value, t[g].grantExpiresAt.value;
      LessTotal(a, b);
      if Less(a, b) {
        top := g;
      } else {
        forall other | other in ids ensures AtMost(t[other].grantExpiresAt.value, a) {
          var x := t[other].grantExpiresAt.value;
          if Less(x, b) && Less(b, a) { LessTransitive(x, b, a); }
        }
      }
    }
  }

  // The repository --------------------------------------------------------------------

  class Repository {
    var rows: Table

    constructor ()
      ensures rows == map[]
    {
      rows := map[];
    }

    method Insert(id: string, row: Row) returns (ok: bool)
      modifies this
      ensures ok == (id !in old(rows))
      ensures rows == if ok then old(rows)[id := row] else old(rows)
    {
      ok := id !in rows;
      if ok {
        rows := rows[id := row];
      }
    }

    method Decide(id: string, state: State, decider: string, at: Instant, expires: Instant) returns (decided: bool)
      requires 0 <= at && 0 <= expires
      modifies this
      ensures decided == IsPending(old(rows), id)
      ensures rows == Update(old(rows), id, state, decider, at, expires)
    {
      decided := id in rows && rows[id].state == Pending;
      if decided {
        rows := rows[id := Settled(rows[id], state, decider, at, expires)];
      }
    }

    method ActiveGrant(q: GrantQuery, now: string) returns (r: Option<string>)
      ensures IsActiveGrant(rows, q, now, r)
    {
      var found := set id | id in rows && Selected(rows[id], q, now);
      if found == {} {
        assert forall id :: id in rows ==> Selected(rows[id], q, now) ==> id in found;
        return None;
      }
      ghost var top := GreatestExists(rows, found);
      var id :| id in found && forall other :: other in found ==>
        AtMost(rows[other].grantExpiresAt.value, rows[id].grantExpiresAt.value);
      return Some(id);
    }
  }

  // The service -------------------------------------------------------------------------

  datatype Refusal = InvalidTarget | InvalidPrincipal | InvalidReason | InvalidTTL | InvalidID | InvalidUser
                   | NoPolicy | NotFound | SelfApproval | NotTheRequester | NotPending | Internal

  datatype Outcome<+T> = Done(value: T) | Refused(why: Refusal)

  predicate ReasonOk(reason: string) { 0 < |Trim(reason)| <= MAX_REASON_LEN }

  /** Zero asks for the default. */
  function EffectiveTTL(ttl: int): int { if ttl == 0 then DEFAULT_GRANT_TTL else ttl }

  function CheckInput(input: CreateInput): Outcome<int> {
    if !Validate.HasPrefix(input.target, "tgt") then Refused(InvalidTarget)
    else if !Validate.Principal(input.principal) then Refused(InvalidPrincipal)
    else if !ReasonOk(input.reason) then Refused(InvalidReason)
    else
      var ttl := EffectiveTTL(input.ttl);
      if ttl < 0 || ttl > MAX_GRANT_TTL then Refused(InvalidTTL) else Done(ttl)
  }

  function PolicyQuestion(who: Identity, target: string, principal: string): Policy.Request {
    Policy.Request(who.userID, who.role, target, principal)
  }

  /** What policies.Authorize lets through. */
  ghost predicate Permitted(p: Policy.Table, who: Identity, target: string, principal: string) {
    var q := PolicyQuestion(who, target, principal);
    Policy.ValidRequest(q) && Policy.Authorised(p, q)
  }

  predicate MayRead(who: Identity, r: Request) {
    who.role == ROLE_ADMIN || r.requester == who.userID
  }

  function Get(t: Table, who: Identity, id: string): Outcome<Request> {
    if !Validate.HasPrefix(id, "req") then Refused(InvalidID)
    else if id !in t then Refused(NotFound)
    else match Scan(id, t[id])
      case None => Refused(Internal)
      case Some(r) => if MayRead(who, r) then Done(r) else Refused(NotFound)
  }

  /** The read and the checks in front of the update of `approve` and `deny`. */
  function CheckDecide(t: Table, who: Identity, id: string, now: Instant): Outcome<Request> {
    match Get(t, who, id)
    case Refused(why) => Refused(why)
    case Done(r) =>
      if r.requester == who.userID then Refused(SelfApproval)
      else if EffectiveState(r, now) != Pending then Refused(NotPending)
      else Done(r)
  }

  function CheckCancel(t: Table, who: Identity, id: string, now: Instant): Outcome<Request> {
    match Get(t, who, id)
    case Refused(why) => Refused(why)
    case Done(r) =>
      if r.requester != who.userID then Refused(NotTheRequester)
      else if EffectiveState(r, now) != Pending then Refused(NotPending)
      else Done(r)
  }

  function Check(t: Table, who: Identity, id: string, verb: State, now: Instant): Outcome<Request> {
    if verb == Cancelled then CheckCancel(t, who, id, now) else CheckDecide(t, who, id, now)
  }

  /** The expiry handed to the update. */
  function ExpiryFor(r: Request, verb: State, now: Instant): Instant {
    if verb == Approved then now + r.ttl else ZERO_TIME
  }

  /** The request handed back to a successful caller; `cancel` leaves the expiry alone. */
  function Decided(r: Request, who: Identity, verb: State, now: Instant): Request {
    r.(state := verb, decidedBy := who.userID, decidedAt := now,
       grantExpiresAt := if verb == Cancelled then r.grantExpiresAt else ExpiryFor(r, verb, now))
  }

  /** An undisturbed call: a refusal by the checks changes nothing; a call that passes
      them always moves the row. */
  ghost predicate IsSettlement(before: Table, who: Identity, id: string, verb: State, now: Instant,
                               after: Table, r: Outcome<Request>)
  {
    match Check(before, who, id, verb, now)
    case Refused(why) => after == before && r == Refused(why)
    case Done(req) =>
      (&& 0 <= now && 0 <= ExpiryFor(req, verb, now) && IsPending(before, id)
       && after == Update(before, id, verb, who.userID, now, ExpiryFor(req, verb, now))
       && r == Done(Decided(req, who, verb, now)))
  }

  datatype GrantAnswer = Inactive | Active(requestID: string, expiresAt: Instant, reason: string) | Unreadable

  /** What `grant` makes of the row the query returned. */
  function Answer(t: Table, r: Option<string>, now: Instant): GrantAnswer
    requires r.Some? ==> r.value in t
  {
    match r
    case None => Inactive
    case Some(id) =>
      match Scan(id, t[id])
      case None => Unreadable
      case Some(req) =>
        if GrantsAccess(req, now) then Active(id, req.grantExpiresAt, req.reason) else Inactive
  }

  predicate ValidQuery(q: GrantQuery) {
    Validate.HasPrefix(q.userID, "usr") && Validate.HasPrefix(q.target, "tgt") && Validate.Principal(q.principal)
  }

  class Service {
    const repo: Repository
    const policies: Policy.Service

    constructor (repo: Repository, policies: Policy.Service)
      ensures this.repo == repo && this.policies == policies
    {
      this.repo, this.policies := repo, policies;
    }

    /** `id` is the random id of the new request. */
    method Create(who: Identity, input: CreateInput, id: string, now: Instant) returns (r: Outcome<Row>)
      requires 0 <= now && Policy.Valid(policies.repo.Contents())
      modifies repo
      ensures r.Done? <==> CheckInput(input).Done? && id !in old(repo.rows)
                           && Permitted(policies.repo.Contents(), who, input.target, input.principal)
      ensures r.Done? ==> r.value == NewRow(who.userID, input, CheckInput(input).value, now)
      ensures repo.rows == if r.Done? then old(repo.rows)[id := r.value] else old(repo.rows)
    {
      hide Format;
      var checked := CheckInput(input);
      if checked.Refused? {
        return Refused(checked.why);
      }
      var q := PolicyQuestion(who, input.target, input.principal);
      var verdict := policies.Evaluate(q);
      Policy.AllowedIffAuthorised(policies.repo.Contents(), q, verdict);
      if !verdict.Allowed? {
        return Refused(NoPolicy);
      }
      var row := NewRow(who.userID, input, checked.value, now);
      var ok := repo.Insert(id, row);
      r := if ok then Done(row) else Refused(Internal);
    }

    /** approve, deny and cancel, when nobody else comes between the read and the update;
        module ApprovalRaces takes the two as separate steps. */
    method Settle(who: Identity, id: string, verb: State, now: Instant) returns (r: Outcome<Request>)
      requires verb in {Approved, Denied, Cancelled} && 0 <= now
      requires id in repo.rows ==> 0 <= now + repo.rows[id].ttlSeconds * SECOND
      modifies repo
      ensures IsSettlement(old(repo.rows), who, id, verb, now, repo.rows, r)
    {
      hide Parse, Format;
      var checked := Check(repo.rows, who, id, verb, now);
      if checked.Refused? {
        return Refused(checked.why);
      }
      var req := checked.value;
      var expires := ExpiryFor(req, verb, now);
      var decided := repo.Decide(id, verb, who.userID, now, expires);
      if !decided {
        return Refused(NotPending);
      }
      return Done(Decided(req, who, verb, now));
    }

    method Grant(q: GrantQuery, now: Instant) returns (g: Outcome<GrantAnswer>)
      requires 0 <= now
      ensures g.Refused? <==> !ValidQuery(q)
      ensures g.Done? ==> exists r :: IsActiveGrant(repo.rows, q, Format(now), r) && g.value == Answer(repo.rows, r, now)
    {
      hide Parse, Format;
      if !Validate.HasPrefix(q.userID, "usr") {
        return Refused(InvalidUser);
      }
      if !Validate.HasPrefix(q.target, "tgt") {
        return Refused(InvalidTarget);
      }
      if !Validate.Principal(q.principal) {
        return Refused(InvalidPrincipal);
      }
      var r := repo.ActiveGrant(q, Format(now));
      return Done(Answer(repo.rows, r, now));
    }
  }

  // The grant lookup --------------------------------------------------------------------

  /** A text this service wrote: UTC, whole seconds, years 0 to 9999. */
  predicate IsStamp(s: string) {
    Parse(s).Some? && InRange(Parse(s).value) && Format(Parse(s).value) == s
  }

  function StampTime(s: string): Instant
    requires IsStamp(s)
  {
    Parse(s).value
  }

  lemma StampOf(t: Instant)
    requires InRange(t)
    ensures IsStamp(Format(t)) && StampTime(Format(t)) == Floor(t)
  {
    hide Parse, Format, ClockOf;
    ParseOfFormat(t);
    FormatSortsAsTime(Floor(t), t);
  }

  lemma StampWhole(s: string)
    requires IsStamp(s)
    ensures StampTime(s) % SECOND == 0
  {
    hide Parse, Format;
    ParseOfFormat(Parse(s).value);
  }

  /** Comparing stamps as text compares them with the clock as instants: cutting both to
      whole seconds does not move the strict comparison. */
  lemma StampAfter(now: Instant, s: string)
    requires InRange(now) && IsStamp(s)
    ensures Less(Format(now), s) <==> now < StampTime(s)
  {
    hide Parse, Format, InRange, Less;
    StampWhole(s);
    FormatSortsAsTime(now, StampTime(s));
  }

  lemma StampOrder(a: string, b: string)
    requires IsStamp(a) && IsStamp(b)
    ensures AtMost(a, b) <==> StampTime(a) <= StampTime(b)
  {
    hide Parse, Format, InRange, Less;
    StampWhole(a);
    StampWhole(b);
    FormatSortsAsTime(StampTime(a), StampTime(b));
  }

  predicate StampedRow(row: Row) {
    && IsStamp(row.createdAt) && IsStamp(row.requestExpiresAt)
    && (row.decidedAt.Some? ==> IsStamp(row.decidedAt.value))
    && (row.grantExpiresAt.Some? ==> IsStamp(row.grantExpiresAt.value))
  }

  /** The simple form: an approved row for exactly this question that is unexpired. */
  predicate Live(t: Table, id: string, q: GrantQuery, now: Instant) {
    && id in t && t[id].requester == q.userID && t[id].target == q.target && t[id].principal == q.principal
    && Scan(id, t[id]).Some? && EffectiveState(Scan(id, t[id]).value, now) == Approved
  }

  lemma ScanStamped(id: string, row: Row)
    requires StampedRow(row)
    ensures Scan(id, row).Some?
    ensures Scan(id, row).value.grantExpiresAt ==
            (if row.grantExpiresAt.Some? then StampTime(row.grantExpiresAt.value) else ZERO_TIME)
    ensures Scan(id, row).value.requestExpiresAt == StampTime(row.requestExpiresAt)
  {
    hide Parse, Format, InRange;
  }

  lemma SelectedIsLive(t: Table, id: string, q: GrantQuery, now: Instant)
    requires id in t && StampedRow(t[id]) && ZERO_TIME <= now && InRange(now)
    ensures Selected(t[id], q, Format(now)) <==> Live(t, id, q, now)
  {
    hide Parse, Format, InRange, Less;
    ScanStamped(id, t[id]);
    if t[id].grantExpiresAt.Some? {
      StampAfter(now, t[id].grantExpiresAt.value);
    }
  }

  /** The fast lookup (text comparison, descending order, first row, second check) agrees
      with the simple question, and the row it reports is one of latest expiry. */
  lemma LookupIsExact(t: Table, q: GrantQuery, now: Instant, r: Option<string>)
    requires forall id :: id in t ==> StampedRow(t[id])
    requires ZERO_TIME <= now && InRange(now)
    requires IsActiveGrant(t, q, Format(now), r)
    ensures Answer(t, r, now) != Unreadable
    ensures Answer(t, r, now).Active? <==> exists id :: Live(t, id, q, now)
    ensures Answer(t, r, now).Active? ==>
      && Live(t, Answer(t, r, now).requestID, q, now)
      && forall id :: Live(t, id, q, now) ==> Scan(id, t[id]).value.grantExpiresAt <= Answer(t, r, now).expiresAt
  {
    hide Parse, Format, InRange, Less, Scan, IsStamp;
    forall id | id in t ensures Selected(t[id], q, Format(now)) <==> Live(t, id, q, now) {
      SelectedIsLive(t, id, q, now);
    }
    if r.Some? {
      var top := r.value;
      ScanStamped(top, t[top]);
      assert Live(t, top, q, now);
      forall id | Live(t, id, q, now)
        ensures Scan(id, t[id]).value.grantExpiresAt <= Scan(top, t[top]).value.grantExpiresAt
      {
        ScanStamped(id, t[id]);
        StampOrder(t[id].grantExpiresAt.value, t[top].grantExpiresAt.value);
      }
    }
  }

  /** Whatever the texts in the table, an active answer is an approved, unexpired row. */
  lemma LookupIsSound(t: Table, q: GrantQuery, now: Instant, r: Option<string>)
    requires 0 <= now && IsActiveGrant(t, q, Format(now), r)
    ensures (Answer(t, r, now).Active? ==>
      && Live(t, Answer(t, r, now).requestID, q, now)
      && Answer(t, r, now).reason == t[Answer(t, r, now).requestID].reason
      && now < Answer(t, r, now).expiresAt)
  {
    hide Parse, Format, Less;
  }

  /** A reading of a local clock, with its offset (section 4.2 of RFC 3339). */
  function OffsetStamp(local: Instant, zone: string): string
    requires InRange(local)
  {
    InRangeYears(local);
    Format(local)[..19] + zone
  }

  /** The instant such a text stands for. */
  function OffsetTime(local: Instant, zone: string): Instant
    requires Offset(zone).Some?
  {
    Floor(local) - Offset(zone).value * SECOND
  }

  lemma OffsetText(local: Instant, zone: string)
    requires InRange(local) && Offset(zone).Some?
    ensures Parse(OffsetStamp(local, zone)) == Some(OffsetTime(local, zone))
  {
    hide ClockText, ClockOf, ClockIn, SecondNumber, Parse, ValidClock;
    var c := ClockOf(local);
    InRangeYears(local);
    ClockTextLayout(c);
    ClockInText(c);
    Rezoned(ClockText(c), c, zone);
  }

  lemma Rezoned(utc: string, c: Clock, zone: string)
    requires |utc| == 20 && ClockIn(utc) == Some(c) && Offset(zone).Some?
    ensures Parse(utc[..19] + zone) == Some((SecondNumber(c) - Offset(zone).value) * SECOND)
  {
    assert |zone| >= 1;
    hide ClockIn, SecondNumber, ValidClock, Offset;
    var s := utc[..19] + zone;
    SamePrefix(utc, s);
    assert s[19..] == zone;
  }

  /** `Z` comes after both signs, so the zone decides nothing. */
  lemma ZoneOrder(zone: string)
    requires Offset(zone).Some?
    ensures !Less("Z", zone)
  {
    LessIrreflexive("Z");
  }

  /** The query compares what the local clock shows. */
  lemma OffsetOrder(local: Instant, zone: string, now: Instant)
    requires InRange(local) && InRange(now) && Offset(zone).Some?
    ensures Less(Format(now), OffsetStamp(local, zone)) <==> Seconds(now) < Seconds(local)
  {
    hide ClockText, ClockOf, Less, Offset;
    FormatSortsAsTime(now, local);
    InRangeYears(local);
    InRangeYears(now);
    ClockTextLayout(ClockOf(local));
    ClockTextLayout(ClockOf(now));
    var p, q := Format(local)[..19], Format(now)[..19];
    assert Format(local) == p + "Z" && Format(now) == q + "Z";
    LessByField(q, p, "Z", "Z");
    LessIrreflexive("Z");
    LessByField(q, p, "Z", zone);
    ZoneOrder(zone);
  }

  /** A row that answers the question, with a numeric offset or `Z` in its expiry. */
  ghost predicate OffsetRow(row: Row, q: GrantQuery, local: Instant, zone: string) {
    && row.requester == q.userID && row.target == q.target && row.principal == q.principal
    && row.state == Approved && row.decidedAt.Some?
    && Parse(row.createdAt).Some? && Parse(row.requestExpiresAt).Some? && Parse(row.decidedAt.value).Some?
    && InRange(local) && Offset(zone).Some? && row.grantExpiresAt == Some(OffsetStamp(local, zone))
  }

  /** Which rows are selected, and which are live: the one goes by the local clock, the other by
      the instant. */
  lemma OffsetRowSelected(t: Table, id: string, q: GrantQuery, local: Instant, zone: string, now: Instant)
    requires id in t && OffsetRow(t[id], q, local, zone) && InRange(now)
    ensures Selected(t[id], q, Format(now)) <==> Seconds(now) < Seconds(local)
    ensures Live(t, id, q, now) <==> now < OffsetTime(local, zone)
    ensures Answer(t, Some(id), now) == Inactive <==> !Live(t, id, q, now)
  {
    hide Parse, Format, InRange, Less, Offset, OffsetStamp, OffsetTime;
    OffsetText(local, zone);
    OffsetOrder(local, zone, now);
  }

  /** Whatever parses in the table, the lookup is right exactly if no row is live or the one it
      came upon is. */
  lemma LookupRightIff(t: Table, q: GrantQuery, now: Instant, r: Option<string>)
    requires forall id :: id in t ==> Scan(id, t[id]).Some?
    requires 0 <= now && IsActiveGrant(t, q, Format(now), r)
    ensures Answer(t, r, now) != Unreadable
    ensures ((Answer(t, r, now).Active? <==> exists id :: Live(t, id, q, now))
      <==> (forall id :: !Live(t, id, q, now)) || (r.Some? && Live(t, r.value, q, now)))
  {
    hide Parse, Format, Less, Scan;
  }

  /** With a numeric offset in the row the text order is no longer the time order. A row that
      stands alone is live and not found exactly if its local clock has come to now, cut to
      seconds, and its instant has not. Rows this service writes carry no offset. */
  lemma OffsetRowIsMissed(id: string, row: Row, q: GrantQuery, local: Instant, zone: string, now: Instant,
                          r: Option<string>)
    requires OffsetRow(row, q, local, zone) && InRange(now) && IsActiveGrant(map[id := row], q, Format(now), r)
    ensures var t: Table := map[id := row];
      (Live(t, id, q, now) && Answer(t, r, now) == Inactive
      <==> Seconds(local) <= Seconds(now) && now < OffsetTime(local, zone))
  {
    hide Parse, Format, InRange, Less, Offset, OffsetStamp, OffsetTime, OffsetRow;
    var t: Table := map[id := row];
    OffsetRowSelected(t, id, q, local, zone, now);
    assert id in t;
    if r.Some? { assert r.value == id; }
  }

  /** How two such texts compare: by the local clocks first. */
  lemma OffsetStampsOrder(a: Instant, x: string, b: Instant, y: string)
    requires InRange(a) && InRange(b) && Offset(x).Some? && Offset(y).Some?
    ensures (AtMost(OffsetStamp(a, x), OffsetStamp(b, y))
      <==> Seconds(a) < Seconds(b) || (Seconds(a) == Seconds(b) && AtMost(x, y)))
  {
    hide ClockText, ClockOf, Less, Offset;
    FormatSortsAsTime(a, b);
    InRangeYears(a);
    InRangeYears(b);
    ClockTextLayout(ClockOf(a));
    ClockTextLayout(ClockOf(b));
    var p, q := Format(a)[..19], Format(b)[..19];
    assert Format(a) == p + "Z" && Format(b) == q + "Z";
    LessByField(p, q, "Z", "Z");
    LessIrreflexive("Z");
    LessByField(p, q, x, y);
    assert (p + x)[..19] == p && (p + x)[19..] == x && (q + y)[..19] == q && (q + y)[19..] == y;
  }

  /** A live UTC row is hidden by another row, through ORDER BY and LIMIT 1, exactly if the other
      has expired while its local clock is ahead of the UTC row's expiry. */
  lemma OffsetRowShadows(utc: string, row: Row, until: Instant, other: string, otherRow: Row, local: Instant, zone: string,
                         q: GrantQuery, now: Instant, r: Option<string>)
    requires utc != other && OffsetRow(row, q, until, "Z") && OffsetRow(otherRow, q, local, zone) && zone != "Z"
    requires InRange(now) && IsActiveGrant(map[utc := row, other := otherRow], q, Format(now), r)
    requires Live(map[utc := row, other := otherRow], utc, q, now)
    ensures var t: Table := map[utc := row, other := otherRow];
      (Answer(t, r, now) == Inactive <==> OffsetTime(local, zone) <= now && Seconds(until) < Seconds(local))
  {
    hide Parse, Format, InRange, Less, OffsetStamp, OffsetTime, AtMost, OffsetRow;
    var t: Table := map[utc := row, other := otherRow];
    assert t[utc] == row && t[other] == otherRow;
    OffsetRowSelected(t, utc, q, until, "Z", now);
    OffsetRowSelected(t, other, q, local, zone, now);
    TopOfTwo(row, until, otherRow, local, zone, q);
    UtcTime(until, now);
    hide Answer, Live;
    assert utc in t && other in t;
    assert r.Some?;
    assert r == Some(utc) || r == Some(other);
  }

  lemma UtcTime(until: Instant, now: Instant)
    ensures Offset("Z") == Some(0) && OffsetTime(until, "Z") == Floor(until)
    ensures now < Floor(until) ==> Seconds(now) < Seconds(until)
  {
  }

  lemma TopOfTwo(row: Row, until: Instant, otherRow: Row, local: Instant, zone: string, q: GrantQuery)
    requires OffsetRow(row, q, until, "Z") && OffsetRow(otherRow, q, local, zone) && zone != "Z"
    ensures AtMost(otherRow.grantExpiresAt.value, row.grantExpiresAt.value) <==> Seconds(local) <= Seconds(until)
    ensures AtMost(row.grantExpiresAt.value, otherRow.grantExpiresAt.value) <==> Seconds(until) < Seconds(local)
  {
    assert Less(zone, "Z") && !AtMost("Z", zone) by { ZoneBeforeZ(zone); }
    hide Parse, Format, InRange, Less, OffsetStamp;
    OffsetStampsOrder(local, zone, until, "Z");
    OffsetStampsOrder(until, "Z", local, zone);
  }

  lemma ZoneBeforeZ(zone: string)
    requires Offset(zone).Some? && zone != "Z"
    ensures Less(zone, "Z") && !AtMost("Z", zone)
  {
    assert zone[0] == '+' || zone[0] == '-';
  }

  /** Only the first nineteen characters carry the date and time. */
  lemma SamePrefix(a: string, b: string)
    requires |a| >= 20 && |b| >= 20 && a[..19] == b[..19]
    ensures ClockIn(a) == ClockIn(b)
  {
    hide Number, ValidDate;
    forall i | 0 <= i < 19 ensures a[i] == b[i] {
      assert a[i] == a[..19][i] && b[i] == b[..19][i];
    }
    assert a[0..4] == b[0..4] && a[5..7] == b[5..7] && a[8..10] == b[8..10];
    assert a[11..13] == b[11..13] && a[14..16] == b[14..16] && a[17..19] == b[17..19];
  }
}
