/**
 The event log of the authentication service, read without the tables: which tokens a log
 leaves alive, where each came from, and the effect of one event on the tables.
 */
module History {
  import opened Wrappers
  import opened Accounts

  /******* Events on the tables *******/

  function Apply(s: Store, e: Event): Store {
    match e
    case Registered(user, row) =>
      s.(users := s.users[user := row], profiles := s.profiles[user := Profile(None)])
    case ConfirmationSent(user, token, at, validUntil) =>
      s.(confirmations := s.confirmations[token := ExpiringToken(user, validUntil, at)])
    case Confirmed(user, token, at) =>
      s.(users := if user !in s.users then s.users else
           s.users[user := s.users[user].(isActive := true, requiresConfirmation := false, updatedAt := at)],
         confirmations := s.confirmations - {token})
    case ResetSent(user, token, at, validUntil) =>
      s.(resets := s.resets[token := ExpiringToken(user, validUntil, at)])
    case PasswordSet(user, hash, at) =>
      s.(users := if user !in s.users then s.users else
           s.users[user := s.users[user].(password := Some(hash), updatedAt := at)],
         access := NotOwnedBy(s.access, user),
         refresh := RefreshNotOwnedBy(s.refresh, user))
    case Issued(user, access, refresh, cause, at, validUntil) =>
      var kept := if cause.ByRotation? then s.refresh - {cause.parent} else s.refresh;
      s.(users := if user !in s.users then s.users else
           s.users[user := s.users[user].(lastAuthenticatedAt := Some(at), updatedAt := at)],
         access := s.access[access := ExpiringToken(user, validUntil, at)],
         refresh := kept[refresh := RefreshToken(user, at)])
    case LoggedOut(access, refresh) =>
      s.(access := s.access - {access},
         refresh := if refresh.Some? then s.refresh - {refresh.value} else s.refresh)
    case Deactivated(user) =>
      s.(users := if user !in s.users then s.users else s.users[user := s.users[user].(isActive := false)])
    case Deleted(user) => DeleteUser(s, user)
  }

  function ApplyAll(s: Store, es: seq<Event>): Store
    decreases |es|
  {
    if es == [] then s else ApplyAll(Apply(s, es[0]), es[1..])
  }

  /******* Which tokens are alive *******/

  /** What a live access token stands for. */
  datatype Grant = Grant(user: Id, at: Time, validUntil: Time)

  predicate RevokesAll(e: Event, user: Id) {
    (e.PasswordSet? || e.Deleted?) && e.user == user
  }

  predicate RevokesAccess(e: Event, token: Token, user: Id) {
    RevokesAll(e, user) || (e.LoggedOut? && e.access == token)
  }

  predicate RevokesRefresh(e: Event, token: Token, user: Id) {
    || RevokesAll(e, user)
    || (e.LoggedOut? && e.loggedOutRefresh == Some(token))
    || (e.Issued? && e.cause == ByRotation(token))
  }

  function AccessAfter(before: Option<Grant>, e: Event, token: Token): Option<Grant> {
    if e.Issued? && e.access == token then Some(Grant(e.user, e.at, e.validUntil))
    else if before.Some? && RevokesAccess(e, token, before.value.user) then None
    else before
  }

  function RefreshAfter(before: Option<Grant>, e: Event, token: Token): Option<Grant> {
    if e.Issued? && e.refresh == token then Some(Grant(e.user, e.at, e.validUntil))
    else if before.Some? && RevokesRefresh(e, token, before.value.user) then None
    else before
  }

  function LiveAccess(log: seq<Event>, token: Token): Option<Grant> {
    if log == [] then None
    else AccessAfter(LiveAccess(log[..|log| - 1], token), log[|log| - 1], token)
  }

  function LiveRefresh(log: seq<Event>, token: Token): Option<Grant> {
    if log == [] then None
    else RefreshAfter(LiveRefresh(log[..|log| - 1], token), log[|log| - 1], token)
  }

  /** Where the lineage of a refresh token starts: the log index of a credential event, or none. */
  function Root(log: seq<Event>, token: Token): Option<nat>
    decreases |log|, 0
  {
    if log == [] then None
    else RootAfter(log[..|log| - 1], log[|log| - 1], token)
  }

  function RootAfter(before: seq<Event>, e: Event, token: Token): Option<nat>
    decreases |before|, 1
  {
    if e.Issued? && e.refresh == token then
      if e.cause.ByRotation? then Root(before, e.cause.parent) else Some(|before|)
    else Root(before, token)
  }

  lemma LogExtends(log: seq<Event>, e: Event, token: Token)
    ensures LiveAccess(log + [e], token) == AccessAfter(LiveAccess(log, token), e, token)
    ensures LiveRefresh(log + [e], token) == RefreshAfter(LiveRefresh(log, token), e, token)
    ensures Root(log + [e], token) == RootAfter(log, e, token)
  {
    assert (log + [e])[..|log|] == log;
  }

  /******* What aliveness means *******/

  predicate IssuesAccess(e: Event, token: Token, g: Grant) {
    e.Issued? && e.access == token && Grant(e.user, e.at, e.validUntil) == g
  }

  predicate IssuesRefresh(e: Event, token: Token, g: Grant) {
    e.Issued? && e.refresh == token && Grant(e.user, e.at, e.validUntil) == g
  }

  /** A live access token was issued by some event, and nothing after that event revoked it. */
  lemma {:induction false} LiveAccessMeans(log: seq<Event>, token: Token) returns (i: nat)
    requires LiveAccess(log, token).Some?
    ensures i < |log| && IssuesAccess(log[i], token, LiveAccess(log, token).value)
    ensures forall j :: i < j < |log| ==> !RevokesAccess(log[j], token, LiveAccess(log, token).value.user)
  {
    var last := |log| - 1;
    if IssuesAccess(log[last], token, LiveAccess(log, token).value) {
      i := last;
    } else {
      i := LiveAccessMeans(log[..last], token);
    }
  }

  lemma {:induction false} LiveRefreshMeans(log: seq<Event>, token: Token) returns (i: nat)
    requires LiveRefresh(log, token).Some?
    ensures i < |log| && IssuesRefresh(log[i], token, LiveRefresh(log, token).value)
    ensures forall j :: i < j < |log| ==> !RevokesRefresh(log[j], token, LiveRefresh(log, token).value.user)
  {
    var last := |log| - 1;
    if IssuesRefresh(log[last], token, LiveRefresh(log, token).value) {
      i := last;
    } else {
      i := LiveRefreshMeans(log[..last], token);
    }
  }

  /******* The latest issue *******/

  predicate IssueOf(e: Event, user: Id) {
    e.Issued? && e.user == user
  }

  /** An issue for a credential shown in that call, not for a refresh token. */
  predicate CredentialOf(e: Event, user: Id) {
    IssueOf(e, user) && !e.cause.ByRotation?
  }

  function LastIssue(log: seq<Event>, user: Id): (r: Option<nat>)
    ensures r.Some? ==> r.value < |log| && IssueOf(log[r.value], user)
    ensures forall j :: (if r.Some? then r.value + 1 else 0) <= j < |log| ==> !IssueOf(log[j], user)
  {
    if log == [] then None
    else if IssueOf(log[|log| - 1], user) then Some(|log| - 1)
    else LastIssue(log[..|log| - 1], user)
  }

  function LastCredential(log: seq<Event>, user: Id): (r: Option<nat>)
    ensures r.Some? ==> r.value < |log| && CredentialOf(log[r.value], user)
    ensures forall j :: (if r.Some? then r.value + 1 else 0) <= j < |log| ==> !CredentialOf(log[j], user)
  {
    if log == [] then None
    else if CredentialOf(log[|log| - 1], user) then Some(|log| - 1)
    else LastCredential(log[..|log| - 1], user)
  }

  lemma LatestExtends(log: seq<Event>, e: Event, user: Id)
    ensures LastIssue(log + [e], user) == if IssueOf(e, user) then Some(|log|) else LastIssue(log, user)
    ensures LastCredential(log + [e], user) == if CredentialOf(e, user) then Some(|log|) else LastCredential(log, user)
  {
    assert (log + [e])[..|log|] == log;
  }

  /******* Lineage *******/

  /** No two events issue the same token. */
  ghost predicate TokensUnique(log: seq<Event>) {
    forall i, j :: 0 <= i < j < |log| && log[i].Issued? && log[j].Issued? ==>
      log[i].access != log[j].access && log[i].refresh != log[j].refresh
  }

  /** A chain of issuing events: it starts at a credential and each next one rotates the one before. */
  ghost predicate Lineage(log: seq<Event>, chain: seq<nat>) {
    && chain != []
    && (forall k :: 0 <= k < |chain| ==> chain[k] < |log| && log[chain[k]].Issued?)
    && !log[chain[0]].cause.ByRotation?
    && (forall k :: 0 < k < |chain| ==>
          chain[k - 1] < chain[k] && log[chain[k]].cause == ByRotation(log[chain[k - 1]].refresh))
  }

  ghost predicate LineageOf(log: seq<Event>, chain: seq<nat>, token: Token) {
    Lineage(log, chain) && log[chain[|chain| - 1]].refresh == token
  }

  lemma LineageEnd(log: seq<Event>, chain: seq<nat>)
    requires Lineage(log, chain)
    ensures log[chain[|chain| - 1]].cause.ByRotation? <==> |chain| > 1
    ensures |chain| > 1 ==> Lineage(log, chain[..|chain| - 1])
  {
    if |chain| > 1 {
      var k := |chain| - 1;
      assert log[chain[k]].cause == ByRotation(log[chain[k - 1]].refresh);
    }
  }

  /** Lineages of one token are equal: a token traces back to exactly one credential event. */
  lemma {:induction false} LineageUnique(log: seq<Event>, c: seq<nat>, d: seq<nat>, token: Token)
    requires TokensUnique(log) && LineageOf(log, c, token) && LineageOf(log, d, token)
    ensures c == d
    decreases |c|
  {
    var i, j := |c| - 1, |d| - 1;
    assert c[i] == d[j];
    LineageEnd(log, c);
    LineageEnd(log, d);
    if i > 0 {
      LineageUnique(log, c[..i], d[..j], log[c[i - 1]].refresh);
    }
    assert c == c[..i] + [c[i]] && d == d[..j] + [d[j]];
  }

  /** Root computes where the lineage starts. */
  lemma {:induction false} RootIsLineage(log: seq<Event>, token: Token) returns (chain: seq<nat>)
    requires Root(log, token).Some?
    ensures LineageOf(log, chain, token) && chain[0] == Root(log, token).value
  {
    var before, e := log[..|log| - 1], log[|log| - 1];
    if e.Issued? && e.refresh == token {
      if e.cause.ByRotation? {
        var prefix := RootIsLineage(before, e.cause.parent);
        chain := prefix + [|before|];
      } else {
        chain := [|before|];
      }
    } else {
      chain := RootIsLineage(before, token);
    }
  }
}
