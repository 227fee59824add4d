/** Names, account names and SSH destinations. */
module Validate {
  import opened Texts

  const MAX_NAME_LEN := 63
  const MAX_PRINCIPAL_LEN := 32

  predicate IsLower(c: char) { 'a' <= c <= 'z' }
  predicate IsAlnum(c: char) { IsLower(c) || '0' <= c <= '9' }

  // The patterns, as regular expressions ----------------------------------------

  datatype Class = Alnum | AlnumHyphen | LowerUnderscore | Account

  predicate InClass(c: Class, x: char) {
    match c
    case Alnum => IsAlnum(x)
    case AlnumHyphen => IsAlnum(x) || x == '-'
    case LowerUnderscore => IsLower(x) || x == '_'
    case Account => IsAlnum(x) || x == '_' || x == '-'
  }

  datatype Regex =
    | One(cls: Class)
    | UpTo(cls: Class, max: nat)
    | Then(first: Regex, second: Regex)
    | Maybe(inner: Regex)

  ghost predicate Matches(r: Regex, s: string) {
    match r
    case One(c) => |s| == 1 && InClass(c, s[0])
    case UpTo(c, max) => |s| <= max && forall i :: 0 <= i < |s| ==> InClass(c, s[i])
    case Then(a, b) => exists k :: 0 <= k <= |s| && Matches(a, s[..k]) && Matches(b, s[k..])
    case Maybe(a) => s == "" || Matches(a, s)
  }

  /** ^[a-z0-9]([a-z0-9-]{0,61}[a-z0-9])?$ */
  const NAME := Then(One(Alnum), Maybe(Then(UpTo(AlnumHyphen, 61), One(Alnum))))

  /** ^[a-z_][a-z0-9_-]{0,31}$ */
  const PRINCIPAL := Then(One(LowerUnderscore), UpTo(Account, 31))

  // The same languages, as scanners ----------------------------------------------

  predicate Name(v: string) {
    && 1 <= |v| <= MAX_NAME_LEN
    && IsAlnum(v[0]) && IsAlnum(v[|v| - 1])
    && forall i :: 0 <= i < |v| ==> IsAlnum(v[i]) || v[i] == '-'
  }

  predicate Principal(v: string) {
    && 1 <= |v| <= MAX_PRINCIPAL_LEN
    && InClass(LowerUnderscore, v[0])
    && forall i :: 0 <= i < |v| ==> InClass(Account, v[i])
  }

  predicate NameTail(t: string) {
    1 <= |t| <= 62 && IsAlnum(t[|t| - 1]) && forall i :: 0 <= i < |t| ==> InClass(AlnumHyphen, t[i])
  }

  lemma NameTailMatches(t: string)
    requires NameTail(t)
    ensures Matches(NAME.second.inner, t)
  {
    var k := |t| - 1;
    assert t[k..] == [t[k]];
    assert Matches(UpTo(AlnumHyphen, 61), t[..k]) && Matches(One(Alnum), t[k..]);
  }

  lemma NameTailMatched(t: string)
    requires Matches(NAME.second.inner, t)
    ensures NameTail(t)
  {
    var k :| 0 <= k <= |t| && Matches(UpTo(AlnumHyphen, 61), t[..k]) && Matches(One(Alnum), t[k..]);
    assert k == |t| - 1 && t[k..][0] == t[k];
    forall i | 0 <= i < |t| ensures InClass(AlnumHyphen, t[i]) {
      if i < k { assert t[i] == t[..k][i]; }
    }
  }

  lemma NameMatches(v: string)
    requires Name(v)
    ensures Matches(NAME, v)
  {
    assert v[..1] == [v[0]];
    if |v| > 1 {
      assert forall i :: 0 <= i < |v| - 1 ==> v[1..][i] == v[i + 1];
      NameTailMatches(v[1..]);
    }
    assert Matches(NAME.first, v[..1]) && Matches(NAME.second, v[1..]);
  }

  lemma NameMatched(v: string)
    requires Matches(NAME, v)
    ensures Name(v)
  {
    var k :| 0 <= k <= |v| && Matches(NAME.first, v[..k]) && Matches(NAME.second, v[k..]);
    assert k == 1 && v[..1] == [v[0]];
    var t := v[1..];
    if t != "" {
      NameTailMatched(t);
      assert forall i :: 1 <= i < |v| ==> v[i] == t[i - 1];
    }
  }

  /** The check of a name accepts exactly the language of its pattern; the length
      test in front of the pattern never decides. */
  lemma NameIsPattern(v: string)
    ensures Name(v) <==> Matches(NAME, v)
  {
    if Name(v) { NameMatches(v); }
    if Matches(NAME, v) { NameMatched(v); }
  }

  lemma PrincipalIsPattern(v: string)
    ensures Principal(v) <==> Matches(PRINCIPAL, v)
  {
    if Principal(v) {
      assert Matches(PRINCIPAL.first, v[..1]) && Matches(PRINCIPAL.second, v[1..]);
    }
    if Matches(PRINCIPAL, v) {
      var k :| 0 <= k <= |v| && Matches(PRINCIPAL.first, v[..k]) && Matches(PRINCIPAL.second, v[k..]);
      assert v[..1][0] == v[0];
      forall i | 0 <= i < |v| ensures InClass(Account, v[i]) {
        if i > 0 { assert v[i] == v[1..][i - 1]; }
      }
    }
  }

  predicate HasPrefix(id: string, prefix: string) { prefix + "-" <= id }

  // Destinations -------------------------------------------------------------------

  datatype Destination = Destination(principal: string, target: string)

  datatype DestinationResult =
    | Parsed(destination: Destination)
    | NoColon
    | ManyColons
    | BadPrincipal
    | BadTarget

  function IndexOf(s: string, c: char): (k: nat)
    ensures k <= |s| && (k < |s| ==> s[k] == c) && c !in s[..k]
  {
    if s == "" then 0
    else if s[0] == c then 0
    else
      var k := 1 + IndexOf(s[1..], c);
      assert s[..k] == [s[0]] + s[1..][..k - 1];
      k
  }

  function ParseDestination(user: string): DestinationResult {
    var k := IndexOf(user, ':');
    if k == |user| then NoColon
    else
      var principal, target := user[..k], user[k + 1..];
      if ':' in target then ManyColons
      else if !Principal(principal) then BadPrincipal
      else if !Name(target) then BadTarget
      else Parsed(Destination(principal, target))
  }

  function DestinationText(d: Destination): string { d.principal + ":" + d.target }

  predicate ValidDestination(d: Destination) { Principal(d.principal) && Name(d.target) }

  lemma NoColonInside(d: Destination)
    requires ValidDestination(d)
    ensures ':' !in d.principal && ':' !in d.target
  {
  }

  /** Parsing and printing undo each other, in both directions: a text is accepted
      with d exactly when it is the text of the valid destination d. */
  lemma DestinationRoundTrip(user: string, d: Destination)
    ensures ParseDestination(user) == Parsed(d) <==> ValidDestination(d) && user == DestinationText(d)
  {
    var k := IndexOf(user, ':');
    if k < |user| {
      assert user == user[..k] + [':'] + user[k + 1..];
      if ValidDestination(d) && user == DestinationText(d) {
        NoColonInside(d);
        CutUnique(user[..k], d.principal, ':', user[k + 1..], d.target);
      }
    }
    assert user[..|user|] == user;
    assert user == DestinationText(d) ==> user[|d.principal|] == ':';
  }

  /** Each refusal names its cause. */
  lemma DestinationRefusals(user: string)
    ensures ParseDestination(user) == NoColon <==> ':' !in user
    ensures ParseDestination(user) == ManyColons <==>
            exists i, j :: 0 <= i < j < |user| && user[i] == ':' && user[j] == ':'
  {
    var k := IndexOf(user, ':');
    assert user[..|user|] == user;
    if k < |user| {
      var target := user[k + 1..];
      if ':' in target {
        var j :| 0 <= j < |target| && target[j] == ':';
        assert user[k] == ':' && user[k + 1 + j] == ':';
      }
      forall i, j | 0 <= i < j < |user| && user[i] == ':' && user[j] == ':' ensures ':' in target {
        assert forall l :: 0 <= l < k ==> user[l] == user[..k][l];
        assert target[j - k - 1] == ':';
      }
    }
  }
}
