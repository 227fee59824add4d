/** Who is asking, as both planes pass it around. */
module Authz {
  const ROLE_VIEWER := "viewer"
  const ROLE_OPERATOR := "operator"
  const ROLE_ADMIN := "admin"
  const ROLES := [ROLE_VIEWER, ROLE_OPERATOR, ROLE_ADMIN]

  datatype Identity = Identity(userID: string, name: string, role: string, credentialID: string)
}

/** Standing policies: which user or role may use which principal on which target. */
module Policy {
  import opened Texts
  import opened Authz
  import Validate

  const MAX_PRINCIPALS := 32
  const SUBJECT_USER := "user"
  const SUBJECT_ROLE := "role"

  datatype Row = Row(name: string, kind: string, subject: string, target: string)

  /** The tables `policies` and `policy_principals`. */
  datatype Table = Table(policies: map<string, Row>, principals: set<(string, string)>)

  datatype Request = Request(userID: string, role: string, target: string, principal: string)

  // Lookup -----------------------------------------------------------------------

  predicate Grants(t: Table, id: string, q: Request) {
    && id in t.policies
    && t.policies[id].target == q.target
    && (id, q.principal) in t.principals
    && ((t.policies[id].kind == SUBJECT_USER && t.policies[id].subject == q.userID)
        || (t.policies[id].kind == SUBJECT_ROLE && t.policies[id].subject == q.role))
  }

  /** ORDER BY subject_kind, name */
  predicate NotAfter(a: Row, b: Row) {
    Less(a.kind, b.kind) || (a.kind == b.kind && AtMost(a.name, b.name))
  }

  /** The answers the query may give: LIMIT 1 of the matches in order, or no row. */
  ghost predicate IsMatching(t: Table, q: Request, r: Option<string>) {
    match r
    case None => forall id :: !Grants(t, id, q)
    case Some(id) =>
      (Grants(t, id, q)
       && forall other :: Grants(t, other, q) ==> NotAfter(t.policies[id], t.policies[other]))
  }

  lemma NotAfterChain(a: Row, b: Row, c: Row)
    ensures NotAfter(a, b) || NotAfter(b, a)
    ensures NotAfter(a, b) && NotAfter(b, c) ==> NotAfter(a, c)
  {
    hide Less;
    LessTotal(a.kind, b.kind);
    LessTotal(a.name, b.name);
    AtMostTransitive(a.name, b.name, c.name);
    AtMostTransitive(a.kind, b.kind, c.kind);
    if a.kind == c.kind && Less(a.kind, b.kind) { LessAsymmetric(a.kind, b.kind); }
  }

  lemma {:induction false} FirstExists(t: Table, ids: set<string>) returns (first: string)
    requires ids != {} && ids <= t.policies.Keys
    ensures first in ids && forall id :: id in ids ==> NotAfter(t.policies[first], t.policies[id])
    decreases |ids|
  {
    hide NotAfter;
    var id :| id in ids;
    var rest := ids - {id};
    if rest == {} {
      first := id;
      NotAfterChain(t.policies[id], t.policies[id], t.policies[id]);
      assert ids == {id} + rest;
    } else {
      var f := FirstExists(t, rest);
      NotAfterChain(t.policies[f], t.policies[id], t.policies[id]);
      NotAfterChain(t.policies[id], t.policies[id], t.policies[id]);
      first := if NotAfter(t.policies[f], t.policies[id]) then f else id;
      forall other | other in ids ensures NotAfter(t.policies[first], t.policies[other]) {
        NotAfterChain(t.policies[first], t.policies[f], t.policies[other]);
      }
    }
  }

  // What the tables keep ------------------------------------------------------------

  function PrincipalsOf(t: Table, id: string): set<string> {
    set x | x in t.principals && x.0 == id :: x.1
  }

  ghost predicate Valid(t: Table) {
    && (forall a, b :: a in t.policies && b in t.policies && t.policies[a].name == t.policies[b].name ==> a == b)
    && (forall x :: x in t.principals ==> x.0 in t.policies)
    && (forall id :: id in t.policies ==> 1 <= |PrincipalsOf(t, id)| <= MAX_PRINCIPALS)
    && (forall id :: id in t.policies && t.policies[id].kind == SUBJECT_ROLE ==> t.policies[id].subject in ROLES)
  }

  /** Names are unique, so the query has one possible answer. */
  lemma MatchingUnique(t: Table, q: Request, a: Option<string>, b: Option<string>)
    requires Valid(t) && IsMatching(t, q, a) && IsMatching(t, q, b)
    ensures a == b
  {
    if a.Some? && b.Some? {
      var x, y := t.policies[a.value], t.policies[b.value];
      LessIrreflexive(x.kind);
      if Less(x.name, y.name) { LessAsymmetric(x.name, y.name); }
      if Less(x.kind, y.kind) { LessAsymmetric(x.kind, y.kind); }
    }
  }

  // Evaluation -----------------------------------------------------------------------

  datatype Verdict = Invalid | Denied | Allowed(policyID: string)

  predicate ValidRequest(q: Request) {
    && Validate.HasPrefix(q.userID, "usr")
    && Validate.HasPrefix(q.target, "tgt")
    && Validate.Principal(q.principal)
    && (q.role != "" ==> q.role in ROLES)
  }

  ghost predicate IsVerdict(t: Table, q: Request, v: Verdict) {
    if !ValidRequest(q) then v == Invalid
    else exists r :: IsMatching(t, q, r) && v == (match r case None => Denied case Some(id) => Allowed(id))
  }

  /** A policy that names that exact user, or that exact non-empty role. */
  ghost predicate Justifies(t: Table, id: string, q: Request) {
    && id in t.policies && t.policies[id].target == q.target && q.principal in PrincipalsOf(t, id)
    && var row := t.policies[id];
       (row.kind == SUBJECT_USER && row.subject == q.userID)
       || (row.kind == SUBJECT_ROLE && q.role != "" && row.subject == q.role)
  }

  ghost predicate Authorised(t: Table, q: Request) {
    exists id :: Justifies(t, id, q)
  }

  /** On a well-formed question the evaluation allows exactly when some stored policy
      justifies it; an empty role matches no role policy. */
  lemma AllowedIffAuthorised(t: Table, q: Request, v: Verdict)
    requires Valid(t) && IsVerdict(t, q, v)
    ensures v.Allowed? <==> ValidRequest(q) && Authorised(t, q)
    ensures v.Denied? <==> ValidRequest(q) && !Authorised(t, q)
    ensures v.Allowed? ==> Justifies(t, v.policyID, q)
  {
    forall id ensures Grants(t, id, q) <==> Justifies(t, id, q) {
      assert id in t.policies && t.policies[id].kind == SUBJECT_ROLE ==> t.policies[id].subject != "";
    }
  }

  // Changes ---------------------------------------------------------------------------

  predicate NameTaken(t: Table, name: string) {
    exists id :: id in t.policies && t.policies[id].name == name
  }

  function Inserted(t: Table, id: string, row: Row, principals: seq<string>): Table {
    Table(t.policies[id := row], t.principals + set p | p in principals :: (id, p))
  }

  /** DELETE FROM policies, with its cascade. */
  function Deleted(t: Table, id: string): Table {
    Table(t.policies - {id}, set x | x in t.principals && x.0 != id)
  }

  ghost predicate Distinct(s: seq<string>) {
    forall i, j :: 0 <= i < j < |s| ==> s[i] != s[j]
  }

  datatype InsertResult = Ok | Taken | Failed

  class Repository {
    var policies: map<string, Row>
    var principals: set<(string, string)>

    function Contents(): Table
      reads this
    {
      Table(policies, principals)
    }

    constructor ()
      ensures Contents() == Table(map[], {})
    {
      policies, principals := map[], {};
    }

    /** One transaction; the primary keys of both tables can make it fail. */
    method Insert(id: string, row: Row, names: seq<string>) returns (r: InsertResult)
      modifies this
      ensures r == Taken <==> NameTaken(old(Contents()), row.name)
      ensures r == Ok <==> !NameTaken(old(Contents()), row.name) && id !in old(policies)
                           && Distinct(names) && forall p :: p in names ==> (id, p) !in old(principals)
      ensures Contents() == if r == Ok then Inserted(old(Contents()), id, row, names) else old(Contents())
    {
      if exists other :: other in policies && policies[other].name == row.name {
        return Taken;
      }
      if id in policies {
        return Failed;
      }
      var staged := principals;
      for n := 0 to |names|
        invariant Distinct(names[..n]) && forall p :: p in names[..n] ==> (id, p) !in principals
        invariant staged == principals + set p | p in names[..n] :: (id, p)
        invariant Contents() == old(Contents())
      {
        assert names[..n + 1] == names[..n] + [names[n]];
        if (id, names[n]) in staged {
          assert (id, names[n]) in principals || exists i :: 0 <= i < n && names[i] == names[n];
          return Failed;
        }
        staged := staged + {(id, names[n])};
      }
      assert names[..|names|] == names;
      policies, principals := policies[id := row], staged;
      return Ok;
    }

    method Delete(id: string) returns (deleted: bool)
      modifies this
      ensures deleted == (id in old(policies))
      ensures Contents() == if deleted then Deleted(old(Contents()), id) else old(Contents())
    {
      deleted := id in policies;
      if deleted {
        principals := set x | x in principals && x.0 != id;
        policies := policies - {id};
      }
    }

    method Matching(q: Request) returns (r: Option<string>)
      ensures IsMatching(Contents(), q, r)
    {
      var t := Contents();
      var matches := set id | id in policies && Grants(t, id, q);
      assert forall id :: Grants(t, id, q) ==> id in matches;
      if matches == {} {
        return None;
      }
      ghost var first := FirstExists(t, matches);
      var id :| id in matches && forall other :: other in matches ==> NotAfter(policies[id], policies[other]);
      return Some(id);
    }
  }

  // The service ------------------------------------------------------------------------

  datatype Checked = Principals(list: seq<string>) | BadPrincipals

  datatype Input = Input(name: string, kind: string, subject: string, target: string, principals: seq<string>)

  /** What `checkPrincipals` promises about a list it accepts. */
  ghost predicate IsChecked(given: seq<string>, accepted: seq<string>, list: seq<string>) {
    && StrictlySorted(list) && 1 <= |list| <= MAX_PRINCIPALS
    && (forall p :: p in list <==> p in given)
    && (forall p :: p in list ==> Validate.Principal(p) && p in accepted)
  }

  ghost predicate Acceptable(given: seq<string>, accepted: seq<string>) {
    && 1 <= |given| <= MAX_PRINCIPALS
    && forall p :: p in given ==> Validate.Principal(p) && p in accepted
  }

  /** What is accepted depends on the set of principals given, not on order or repetition. */
  lemma CheckedUnique(given: seq<string>, again: seq<string>, accepted: seq<string>, a: seq<string>, b: seq<string>)
    requires IsChecked(given, accepted, a) && IsChecked(again, accepted, b)
    requires forall p :: p in given <==> p in again
    ensures a == b
  {
    StrictlySortedUnique(a, b);
  }

  method Compact(s: seq<string>) returns (u: seq<string>)
    requires Sorted(s)
    ensures StrictlySorted(u) && |u| <= |s|
    ensures forall p :: p in u <==> p in s
  {
    u := [];
    for n := 0 to |s|
      invariant StrictlySorted(u) && |u| <= n
      invariant forall p :: p in u <==> p in s[..n]
      invariant u != [] ==> n > 0 && u[|u| - 1] == s[n - 1]
      invariant u == [] ==> n == 0
    {
      assert s[..n + 1] == s[..n] + [s[n]];
      if n == 0 || s[n] != s[n - 1] {
        if n > 0 { assert AtMost(s[n - 1], s[n]); }
        forall i | 0 <= i < |u| ensures Less(u[i], s[n]) {
          if i < |u| - 1 { LessTransitive(u[i], u[|u| - 1], s[n]); }
        }
        u := u + [s[n]];
      }
    }
    assert s[..|s|] == s;
  }

  method CheckPrincipals(given: seq<string>, accepted: seq<string>) returns (r: Checked)
    ensures r.Principals? <==> Acceptable(given, accepted)
    ensures r.Principals? ==> IsChecked(given, accepted, r.list)
  {
    if |given| == 0 || |given| > MAX_PRINCIPALS {
      return BadPrincipals;
    }
    for n := 0 to |given|
      invariant forall i :: 0 <= i < n ==> Validate.Principal(given[i])
    {
      if !Validate.Principal(given[n]) {
        return BadPrincipals;
      }
    }
    var sorted := Sort(given);
    SameMembers(sorted, given);
    var unique := Compact(sorted);
    for n := 0 to |unique|
      invariant forall i :: 0 <= i < n ==> unique[i] in accepted
    {
      if unique[n] !in accepted {
        assert unique[n] in given;
        return BadPrincipals;
      }
    }
    assert given[0] in unique;
    return Principals(unique);
  }

  lemma SameMembers(a: seq<string>, b: seq<string>)
    requires multiset(a) == multiset(b)
    ensures |a| == |b| && forall p :: p in a <==> p in b
  {
    assert |multiset(a)| == |a| && |multiset(b)| == |b|;
    forall p ensures p in a <==> p in b {
      assert p in a <==> p in multiset(a);
      assert p in b <==> p in multiset(b);
    }
  }

  datatype CreateResult = Created | Refused | NameConflict | Internal

  predicate ValidInput(in_: Input) {
    && Validate.Name(in_.name)
    && in_.kind in [SUBJECT_USER, SUBJECT_ROLE]
    && (in_.kind == SUBJECT_USER ==> Validate.HasPrefix(in_.subject, "usr"))
    && (in_.kind == SUBJECT_ROLE ==> in_.subject in ROLES)
    && Validate.HasPrefix(in_.target, "tgt")
  }

  function RowOf(in_: Input): Row { Row(in_.name, in_.kind, in_.subject, in_.target) }

  class Service {
    const repo: Repository

    constructor (repo: Repository)
      ensures this.repo == repo
    {
      this.repo := repo;
    }

    /** `id` is the fresh random id, `accepted` what the target answers. The row insert
        cannot meet a duplicate principal: only an id collision can fail it. */
    method Create(in_: Input, id: string, accepted: seq<string>) returns (r: CreateResult)
      requires Valid(repo.Contents())
      modifies repo
      ensures Valid(repo.Contents())
      ensures r == Refused <==> !ValidInput(in_) || !Acceptable(in_.principals, accepted)
      ensures r == Internal ==> id in old(repo.policies)
      ensures r == NameConflict ==> NameTaken(old(repo.Contents()), in_.name)
      ensures r == Created ==>
                (exists list :: IsChecked(in_.principals, accepted, list)
                  && repo.Contents() == Inserted(old(repo.Contents()), id, RowOf(in_), list))
      ensures r != Created ==> repo.Contents() == old(repo.Contents())
    {
      if !ValidInput(in_) {
        return Refused;
      }
      var checked := CheckPrincipals(in_.principals, accepted);
      if checked.BadPrincipals? {
        return Refused;
      }
      var list := checked.list;
      StrictlySortedDistinct(list);
      var done := repo.Insert(id, RowOf(in_), list);
      match done
      case Taken => return NameConflict;
      case Failed => return Internal;
      case Ok =>
        InsertKeepsValid(old(repo.Contents()), id, RowOf(in_), in_.principals, accepted, list);
        return Created;
    }

    /** `found` is what the read in front of the delete saw. */
    method Remove(id: string) returns (removed: bool)
      requires Valid(repo.Contents())
      modifies repo
      ensures Valid(repo.Contents())
      ensures removed == (Validate.HasPrefix(id, "pol") && id in old(repo.policies))
      ensures repo.Contents() == if removed then Deleted(old(repo.Contents()), id) else old(repo.Contents())
    {
      if !Validate.HasPrefix(id, "pol") || id !in repo.policies {
        return false;
      }
      DeleteKeepsValid(repo.Contents(), id);
      removed := repo.Delete(id);
    }

    method Evaluate(q: Request) returns (v: Verdict)
      ensures IsVerdict(repo.Contents(), q, v)
    {
      if !ValidRequest(q) {
        return Invalid;
      }
      var r := repo.Matching(q);
      match r
      case None => return Denied;
      case Some(id) => return Allowed(id);
    }
  }

  // Over runs ---------------------------------------------------------------------------

  lemma InsertedPrincipals(t: Table, id: string, row: Row, list: seq<string>, other: string)
    requires Valid(t) && id !in t.policies
    ensures PrincipalsOf(Inserted(t, id, row, list), other) ==
            if other == id then (set p | p in list) else PrincipalsOf(t, other)
  {
    var u := Inserted(t, id, row, list);
    assert forall p :: (id, p) in u.principals <==> p in list;
    assert forall p :: p in PrincipalsOf(u, other) <==> (other, p) in u.principals;
    assert forall p :: p in PrincipalsOf(t, other) <==> (other, p) in t.principals;
  }

  lemma {:induction false} SetOfDistinct(s: seq<string>)
    requires Distinct(s)
    ensures |set p | p in s| == |s|
  {
    if s != [] {
      var n := |s| - 1;
      SetOfDistinct(s[..n]);
      assert s == s[..n] + [s[n]];
      assert (set p | p in s) == (set p | p in s[..n]) + {s[n]};
    }
  }

  lemma InsertKeepsValid(t: Table, id: string, row: Row, given: seq<string>, accepted: seq<string>, list: seq<string>)
    requires Valid(t) && id !in t.policies && !NameTaken(t, row.name)
    requires row.kind == SUBJECT_ROLE ==> row.subject in ROLES
    requires IsChecked(given, accepted, list)
    ensures Valid(Inserted(t, id, row, list))
  {
    var u := Inserted(t, id, row, list);
    StrictlySortedDistinct(list);
    SetOfDistinct(list);
    forall other | other in u.policies ensures 1 <= |PrincipalsOf(u, other)| <= MAX_PRINCIPALS {
      InsertedPrincipals(t, id, row, list, other);
    }
  }

  lemma DeleteKeepsValid(t: Table, id: string)
    requires Valid(t)
    ensures Valid(Deleted(t, id))
  {
    forall other | other in Deleted(t, id).policies
      ensures PrincipalsOf(Deleted(t, id), other) == PrincipalsOf(t, other)
    {
      assert forall p :: p in PrincipalsOf(t, other) <==> (other, p) in t.principals;
    }
  }

  /** Adding a policy never turns allow into deny. */
  lemma InsertMonotone(t: Table, id: string, row: Row, list: seq<string>, q: Request)
    requires Valid(t) && id !in t.policies && Authorised(t, q)
    ensures Authorised(Inserted(t, id, row, list), q)
  {
    var other :| Justifies(t, other, q);
    InsertedPrincipals(t, id, row, list, other);
    assert Justifies(Inserted(t, id, row, list), other, q);
  }

  /** Deleting a policy never turns deny into allow. */
  lemma DeleteMonotone(t: Table, id: string, q: Request)
    requires Authorised(Deleted(t, id), q)
    ensures Authorised(t, q)
  {
    var other :| Justifies(Deleted(t, id), other, q);
    assert q.principal in PrincipalsOf(t, other);
    assert Justifies(t, other, q);
  }

  /** What one creation grants: the principals given, on that target, to that user or to
      everyone with that role; and it takes nothing away. */
  lemma CreationGrantsExactly(t: Table, id: string, in_: Input, accepted: seq<string>, list: seq<string>, q: Request)
    requires Valid(t) && id !in t.policies && ValidInput(in_) && IsChecked(in_.principals, accepted, list)
    ensures (Authorised(Inserted(t, id, RowOf(in_), list), q) <==>
      || Authorised(t, q)
      || (q.target == in_.target && q.principal in in_.principals
          && (if in_.kind == SUBJECT_USER then in_.subject == q.userID else q.role != "" && in_.subject == q.role)))
  {
    var u := Inserted(t, id, RowOf(in_), list);
    forall other ensures Justifies(u, other, q) <==> if other == id then Justifies(u, id, q) else Justifies(t, other, q) {
      InsertedPrincipals(t, id, RowOf(in_), list, other);
    }
    InsertedPrincipals(t, id, RowOf(in_), list, id);
    assert Justifies(u, id, q) ==> Authorised(u, q);
    if Authorised(t, q) {
      var other :| Justifies(t, other, q);
      assert Justifies(u, other, q);
    }
  }

  /** What one deletion leaves: exactly what some other policy justifies. */
  lemma DeletionLeavesExactly(t: Table, id: string, q: Request)
    ensures Authorised(Deleted(t, id), q) <==> exists other :: other != id && Justifies(t, other, q)
  {
    var u := Deleted(t, id);
    forall other ensures Justifies(u, other, q) <==> other != id && Justifies(t, other, q) {
      assert other != id ==> forall p :: p in PrincipalsOf(u, other) <==> p in PrincipalsOf(t, other);
    }
  }

  datatype Change =
    | Insertion(id: string, input: Input, accepted: seq<string>, list: seq<string>)
    | Deletion(id: string)

  /** One committed change; creations come out of `Service.Create`. */
  ghost predicate Changes(t: Table, c: Change, u: Table) {
    match c
    case Insertion(id, input, accepted, list) =>
      (&& ValidInput(input) && IsChecked(input.principals, accepted, list)
       && id !in t.policies && !NameTaken(t, input.name)
       && u == Inserted(t, id, RowOf(input), list))
    case Deletion(id) => u == Deleted(t, id)
  }

  ghost predicate Run(tables: seq<Table>, changes: seq<Change>) {
    && |tables| == |changes| + 1 && tables[0] == Table(map[], {})
    && forall i :: 0 <= i < |changes| ==> Changes(tables[i], changes[i], tables[i + 1])
  }

  /** Policy `id` stands as the creation c stored it. */
  ghost predicate StoredBy(t: Table, id: string, c: Change) {
    && c.Insertion? && c.id == id
    && id in t.policies && t.policies[id] == RowOf(c.input)
    && PrincipalsOf(t, id) == (set p | p in c.list)
    && IsChecked(c.input.principals, c.accepted, c.list)
  }

  lemma StoredByItself(t: Table, c: Change, u: Table)
    requires Valid(t) && c.Insertion? && Changes(t, c, u)
    ensures StoredBy(u, c.id, c)
  {
    InsertedPrincipals(t, c.id, RowOf(c.input), c.list, c.id);
  }

  lemma StoredByKept(t: Table, c: Change, u: Table, id: string, d: Change)
    requires Valid(t) && Changes(t, c, u) && StoredBy(t, id, d)
    requires id in u.policies && !(c.Insertion? && c.id == id)
    ensures StoredBy(u, id, d)
  {
    if c.Insertion? {
      InsertedPrincipals(t, c.id, RowOf(c.input), c.list, id);
    } else {
      assert forall p :: p in PrincipalsOf(t, id) <==> (id, p) in t.principals;
      assert PrincipalsOf(u, id) == PrincipalsOf(t, id);
    }
  }

  lemma NothingIsValid()
    ensures Valid(Table(map[], {}))
  {
  }

  lemma ChangeKeepsValid(t: Table, c: Change, u: Table)
    requires Valid(t) && Changes(t, c, u)
    ensures Valid(u)
    ensures forall id :: id in u.policies ==> id in t.policies || (c.Insertion? && c.id == id)
  {
    hide Valid, IsChecked;
    match c {
      case Insertion(id, input, accepted, list) =>
        InsertKeepsValid(t, id, RowOf(input), input.principals, accepted, list);
      case Deletion(id) =>
        DeleteKeepsValid(t, id);
    }
  }

  /** In every run the tables stay valid, and the principals of every stored policy are
      the checked list of the creation that stored it: strictly sorted, 1 to 32 of them,
      each accepted by the target at that time. */
  lemma {:induction false} RunKeeps(tables: seq<Table>, changes: seq<Change>)
    requires Run(tables, changes)
    ensures Valid(tables[|changes|])
    ensures forall id :: id in tables[|changes|].policies ==>
              (exists i :: 0 <= i < |changes| && StoredBy(tables[|changes|], id, changes[i]))
  {
    hide Valid, StoredBy, Changes;
    var n := |changes|;
    if n == 0 {
      NothingIsValid();
    } else {
      var before, c, after := tables[n - 1], changes[n - 1], tables[n];
      RunKeeps(tables[..n], changes[..n - 1]);
      assert Changes(before, c, after);
      ChangeKeepsValid(before, c, after);
      forall id | id in after.policies
        ensures exists i :: 0 <= i < n && StoredBy(after, id, changes[i])
      {
        if c.Insertion? && c.id == id {
          StoredByItself(before, c, after);
          assert StoredBy(after, id, changes[n - 1]);
        } else {
          var i :| 0 <= i < n - 1 && StoredBy(before, id, changes[..n - 1][i]);
          StoredByKept(before, c, after, id, changes[i]);
        }
      }
    }
  }
}
