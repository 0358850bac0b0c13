/**
 Push tokens: replacing one (internal/data/local/service_push.go) and pruning those the providers call
 invalid (internal/push/service.go). The replacement reads and deletes inside a transaction but inserts
 outside it, so a rollback keeps the new token.
 */
module PushTokens {
  import opened Wrappers

  type Id = nat
  datatype Row = Row(token: string, userId: string, provider: string)
  type Rows = map<Id, Row>

  /** The UNIQUE constraint on the token column. */
  ghost predicate Unique(rows: Rows) {
    forall i, j :: i in rows && j in rows && rows[i].token == rows[j].token ==> i == j
  }

  predicate Exists(rows: Rows, token: string) {
    exists i :: i in rows && rows[i].token == token
  }

  /** The row with this token, as user and provider; unique among unique rows. */
  ghost predicate Holds(rows: Rows, token: string, userId: string, provider: string) {
    exists i :: i in rows && rows[i] == Row(token, userId, provider)
  }

  /******* UpdatePushToken *******/

  datatype Request = Request(userId: string, token: string, provider: string, existing: Option<string>)

  /** Which of the database calls succeed; id is the key of the inserted row. */
  datatype Env = Env(begin: bool, check: bool, insert: bool, find: bool, delete: bool, commit: bool, id: Id)

  datatype Reply = Done | Conflict | OldNotFound | DatabaseError

  predicate OwnsOld(rows: Rows, req: Request) {
    req.existing.Some? && exists i :: i in rows && rows[i].token == req.existing.value && rows[i].userId == req.userId
  }

  /** The new row is stored: nothing failed up to the insert, and the token was not there. */
  predicate Inserts(rows: Rows, req: Request, env: Env) {
    env.begin && env.check && !Exists(rows, req.token) && env.insert
  }

  function Inserted(rows: Rows, req: Request, env: Env): Rows {
    rows[env.id := Row(req.token, req.userId, req.provider)]
  }

  class LocalService {
    var rows: Rows

    /**
     Everything before the delete reads the committed rows; the insert goes straight to them. The delete
     is in the transaction, so it takes effect with the commit, whose own failure nobody hears of.
     */
    method UpdatePushToken(req: Request, env: Env) returns (reply: Reply)
      requires Unique(rows) && env.id !in rows
      modifies this
      ensures Unique(rows)
      ensures reply == Answer(old(rows), req, env)
      ensures rows == After(old(rows), req, env)
    {
      if !env.begin || !env.check {
        return DatabaseError;
      }
      if Exists(rows, req.token) {
        return Conflict;
      }
      if !env.insert {
        return DatabaseError;
      }
      rows := rows[env.id := Row(req.token, req.userId, req.provider)];
      if req.existing.None? {
        return Done;
      }
      if !env.find {
        return DatabaseError;
      }
      if !OwnsOld(rows, req) {
        return OldNotFound;
      }
      var old_ := FindOld(req);
      if !env.delete {
        return DatabaseError;
      }
      if env.commit {
        rows := rows - {old_};
      }
      return Done;
    }

    method FindOld(req: Request) returns (i: Id)
      requires OwnsOld(rows, req)
      ensures i in rows && rows[i].token == req.existing.value && rows[i].userId == req.userId
    {
      i :| i in rows && rows[i].token == req.existing.value && rows[i].userId == req.userId;
    }
  }

  function Answer(rows: Rows, req: Request, env: Env): Reply {
    if !env.begin || !env.check then DatabaseError
    else if Exists(rows, req.token) then Conflict
    else if !env.insert then DatabaseError
    else if req.existing.None? then Done
    else if !env.find then DatabaseError
    else if !OwnsOld(Inserted(rows, req, env), req) then OldNotFound
    else if !env.delete then DatabaseError
    else Done
  }

  function After(rows: Rows, req: Request, env: Env): Rows {
    if !Inserts(rows, req, env) then rows
    else
      var rows' := Inserted(rows, req, env);
      if OwnsOld(rows', req) && env.find && env.delete && env.commit then
        DeleteTokens(rows', req.userId, {req.existing.value})
      else rows'
  }

  /** DELETE by user and token, whatever the row's provider. */
  function DeleteTokens(rows: Rows, userId: string, tokens: set<string>): Rows {
    map i | i in rows && !(rows[i].userId == userId && rows[i].token in tokens) :: rows[i]
  }

  lemma HoldsDeleted(rows: Rows, userId: string, tokens: set<string>, t: string, u: string, p: string)
    ensures Holds(DeleteTokens(rows, userId, tokens), t, u, p) <==>
      Holds(rows, t, u, p) && !(u == userId && t in tokens)
  {
    var rows' := DeleteTokens(rows, userId, tokens);
    if Holds(rows, t, u, p) && !(u == userId && t in tokens) {
      var i :| i in rows && rows[i] == Row(t, u, p);
      assert i in rows' && rows'[i] == Row(t, u, p);
    }
  }

  lemma HoldsInserted(rows: Rows, req: Request, env: Env, t: string, u: string, p: string)
    requires env.id !in rows
    ensures Holds(Inserted(rows, req, env), t, u, p) <==>
      Holds(rows, t, u, p) || (t, u, p) == (req.token, req.userId, req.provider)
  {
    var rows' := Inserted(rows, req, env);
    if Holds(rows, t, u, p) {
      var i :| i in rows && rows[i] == Row(t, u, p);
      assert i in rows' && rows'[i] == Row(t, u, p);
    } else if (t, u, p) == (req.token, req.userId, req.provider) {
      assert rows'[env.id] == Row(t, u, p);
    }
  }

  lemma OwnsInserted(rows: Rows, req: Request, env: Env)
    requires env.id !in rows
    ensures OwnsOld(Inserted(rows, req, env), req) <==> OwnsOld(rows, req) || req.existing == Some(req.token)
  {
    var rows' := Inserted(rows, req, env);
    if OwnsOld(rows, req) {
      var i :| i in rows && rows[i].token == req.existing.value && rows[i].userId == req.userId;
      assert i in rows' && rows'[i] == rows[i];
    } else if req.existing == Some(req.token) {
      assert rows'[env.id].token == req.token && rows'[env.id].userId == req.userId;
    }
  }

  /** The token that a call deletes, if any: the old one, when it belongs to the user, or is the new one. */
  predicate Removes(rows: Rows, req: Request, env: Env, token: string) {
    && Inserts(rows, req, env)
    && req.existing == Some(token)
    && (OwnsOld(rows, req) || token == req.token)
    && env.find
    && env.delete
    && env.commit
  }

  /** The effect of a call token by token: what is there afterwards is what was, plus the new, minus the removed. */
  lemma ExactEffect(rows: Rows, req: Request, env: Env, token: string, userId: string, provider: string)
    requires Unique(rows) && env.id !in rows
    ensures Unique(After(rows, req, env))
    ensures Holds(After(rows, req, env), token, userId, provider) <==>
      && !Removes(rows, req, env, token)
      && (|| Holds(rows, token, userId, provider)
          || (Inserts(rows, req, env) && (token, userId, provider) == (req.token, req.userId, req.provider)))
  {
    if Inserts(rows, req, env) {
      HoldsInserted(rows, req, env, token, userId, provider);
      OwnsInserted(rows, req, env);
      if req.existing.Some? {
        HoldsDeleted(Inserted(rows, req, env), req.userId, {req.existing.value}, token, userId, provider);
      }
    }
  }

  /** The user already has the old token that is to be replaced. */
  ghost predicate HoldsOld(rows: Rows, req: Request) {
    req.existing.Some? && exists provider :: Holds(rows, req.existing.value, req.userId, provider)
  }

  lemma OwnsIsHolds(rows: Rows, req: Request)
    ensures OwnsOld(rows, req) <==> HoldsOld(rows, req)
  {
    if OwnsOld(rows, req) {
      var i :| i in rows && rows[i].token == req.existing.value && rows[i].userId == req.userId;
      assert rows[i] == Row(req.existing.value, req.userId, rows[i].provider);
      assert Holds(rows, req.existing.value, req.userId, rows[i].provider);
    }
  }

  /** Whose token it is does not matter for the conflict. */
  ghost predicate HeldBySomebody(rows: Rows, token: string) {
    exists userId, provider :: Holds(rows, token, userId, provider)
  }

  lemma ExistsIsHeld(rows: Rows, token: string)
    ensures Exists(rows, token) <==> HeldBySomebody(rows, token)
  {
    if Exists(rows, token) {
      var i :| i in rows && rows[i].token == token;
      assert rows[i] == Row(token, rows[i].userId, rows[i].provider);
      assert Holds(rows, token, rows[i].userId, rows[i].provider);
    }
  }

  /** When the new token is stored: nothing failed up to the insert, and nobody has it. */
  lemma InsertsExactly(rows: Rows, req: Request, env: Env)
    ensures Inserts(rows, req, env) <==> env.begin && env.check && !HeldBySomebody(rows, req.token) && env.insert
    ensures Inserts(rows, req, env) ==> Answer(rows, req, env) != Conflict
  {
    ExistsIsHeld(rows, req.token);
  }

  /** Which reply a call gets: by what is stored before the call, and by the first step that fails. */
  lemma RepliesExactly(rows: Rows, req: Request, env: Env)
    requires env.id !in rows
    ensures
      var reply, isTaken := Answer(rows, req, env), HeldBySomebody(rows, req.token);
      var found := HoldsOld(rows, req) || req.existing == Some(req.token);
      && (reply == Conflict <==> env.begin && env.check && isTaken)
      && (reply == OldNotFound <==>
            env.begin && env.check && !isTaken && env.insert && req.existing.Some? && env.find && !found)
      && (reply == Done <==>
            && env.begin
            && env.check
            && !isTaken
            && env.insert
            && (req.existing.Some? ==> env.find && found && env.delete))
  {
    ExistsIsHeld(rows, req.token);
    OwnsIsHolds(rows, req);
    OwnsInserted(rows, req, env);
  }

  /** The four outcomes for an old token that differs from the new one. */
  lemma Outcomes(rows: Rows, req: Request, env: Env)
    requires Unique(rows) && env.id !in rows && req.existing != Some(req.token)
    ensures
      var rows', reply := After(rows, req, env), Answer(rows, req, env);
      && (reply.Conflict? ==> rows' == rows && Exists(rows, req.token))
      && (reply.OldNotFound? ==> rows' == Inserted(rows, req, env) && !OwnsOld(rows, req))
      && (reply.Done? ==> Holds(rows', req.token, req.userId, req.provider))
      && (reply.Done? && env.commit && req.existing.Some? ==>
        OwnsOld(rows, req) && !Exists(rows', req.existing.value))
      && (reply.Done? && !env.commit ==> rows' == Inserted(rows, req, env))
      && (reply.DatabaseError? ==> rows' == rows || rows' == Inserted(rows, req, env))
  {
    if Inserts(rows, req, env) {
      OwnsInserted(rows, req, env);
      HoldsInserted(rows, req, env, req.token, req.userId, req.provider);
      if req.existing.Some? {
        HoldsDeleted(Inserted(rows, req, env), req.userId, {req.existing.value}, req.token, req.userId, req.provider);
      }
    }
  }

  /** Replacing a token by itself, when nothing fails, succeeds and leaves the user without it. */
  lemma ReplacedByItself(rows: Rows, req: Request, env: Env)
    requires Unique(rows) && env.id !in rows && req.existing == Some(req.token)
    requires env.begin && env.check && env.insert && env.find && env.delete && env.commit && !Exists(rows, req.token)
    ensures Answer(rows, req, env) == Done && After(rows, req, env) == rows
  {
    assert Inserted(rows, req, env)[env.id].token == req.token;
  }

  /**
   A call that fails after the insert cannot be repeated: the new token is there, so every later call with
   it is a conflict, and the old token stays for good.
   */
  lemma RetryConflicts(rows: Rows, req: Request, env: Env, env': Env)
    requires Unique(rows) && env.id !in rows && Inserts(rows, req, env) && Answer(rows, req, env) != Done
    requires env'.begin && env'.check
    ensures
      var rows' := After(rows, req, env);
      && Answer(rows', req, env') == Conflict
      && After(rows', req, env') == rows'
      && forall i :: i in rows ==> i in rows' && rows'[i] == rows[i]
  {
    assert Inserted(rows, req, env)[env.id].token == req.token;
  }

  /******* SendToUser *******/

  datatype Response = Response(token: string, valid: bool)

  /** Send of a provider, for one message: the response names the token it speaks of. */
  type Provider = string -> Response

  /** What sending to this token reports invalid. */
  function Accused(send: Provider, token: string): Option<string> {
    if send(token).valid then None else Some(send(token).token)
  }

  /** The tokens reported when a provider is sent all tokens that the user has there. */
  function Accusations(rows: Rows, userId: string, name: string, send: Provider): set<string> {
    set i | i in rows && rows[i].userId == userId && rows[i].provider == name && !send(rows[i].token).valid ::
      send(rows[i].token).token
  }

  /** One round of the loop: the provider, sent the user's tokens, reports some tokens invalid, and they are deleted. */
  ghost predicate Round(rows: Rows, rows': Rows, userId: string, name: string, send: Provider, report: set<string>) {
    && report == Accusations(rows, userId, name, send)
    && rows' == DeleteTokens(rows, userId, report)
  }

  /** A run of the loop: the table it starts from, and for each round the provider, its report and the new table. */
  datatype Trace = Start(rows: Rows) | Then(before: Trace, name: string, report: set<string>, rows: Rows)

  ghost predicate Rounds(t: Trace, userId: string, providers: map<string, Provider>) {
    t.Then? ==>
      && Rounds(t.before, userId, providers)
      && t.name in providers
      && Round(t.before.rows, t.rows, userId, t.name, providers[t.name], t.report)
  }

  function First(t: Trace): Rows {
    if t.Then? then First(t.before) else t.rows
  }

  function Visited(t: Trace): set<string> {
    if t.Then? then Visited(t.before) + {t.name} else {}
  }

  /** No provider is visited twice. */
  predicate Once(t: Trace) {
    t.Then? ==> Once(t.before) && t.name !in Visited(t.before)
  }

  /** Everything the providers of a run reported. */
  function Reported(t: Trace): set<string> {
    if t.Then? then Reported(t.before) + t.report else {}
  }

  lemma Extends(t: Trace, userId: string, providers: map<string, Provider>, name: string, report: set<string>,
                rows: Rows)
    requires Rounds(t, userId, providers) && Once(t) && name in providers && name !in Visited(t)
    requires Round(t.rows, rows, userId, name, providers[name], report)
    ensures
      var t' := Then(t, name, report, rows);
      && Rounds(t', userId, providers)
      && Once(t')
      && First(t') == First(t)
      && (forall p :: p in Visited(t') <==> p in Visited(t) || p == name)
  {
  }

  /** The query's result: the tokens of the user at this provider, in any order. */
  ghost predicate Lists(tokens: seq<string>, rows: Rows, userId: string, name: string) {
    && (forall t :: t in tokens <==> Holds(rows, t, userId, name))
    && (forall i, j :: 0 <= i < j < |tokens| ==> tokens[i] != tokens[j])
  }

  /** The tokens that are answered as invalid; the answer may name another token. */
  function Invalid(send: Provider, tokens: seq<string>): set<string> {
    set t | t in tokens && !send(t).valid :: send(t).token
  }

  lemma InvalidIsAccusations(tokens: seq<string>, rows: Rows, userId: string, name: string, send: Provider)
    requires Lists(tokens, rows, userId, name)
    ensures Invalid(send, tokens) == Accusations(rows, userId, name, send)
  {
    forall i | i in rows && rows[i].userId == userId && rows[i].provider == name ensures rows[i].token in tokens {
      assert Holds(rows, rows[i].token, userId, name);
    }
    forall t | t in tokens ensures exists i :: i in rows && rows[i] == Row(t, userId, name) {
      assert Holds(rows, t, userId, name);
    }
  }

  /** The helper behind SendMulticast of both providers: one Send after the other. */
  method SendMulticast(send: Provider, tokens: seq<string>) returns (responseSlice: seq<Response>)
    ensures |responseSlice| == |tokens| && forall i :: 0 <= i < |tokens| ==> responseSlice[i] == send(tokens[i])
  {
    responseSlice := [];
    for i := 0 to |tokens|
      invariant |responseSlice| == i && forall k :: 0 <= k < i ==> responseSlice[k] == send(tokens[k])
    {
      responseSlice := responseSlice + [send(tokens[i])];
    }
  }

  class Service {
    var rows: Rows
    var provider: map<string, Provider>

    method RegisterProvider(name: string, p: Provider)
      modifies this`provider
      ensures provider == old(provider)[name := p]
    {
      provider := provider[name := p];
    }

    method ResetProviders()
      modifies this`provider
      ensures provider == map[]
    {
      provider := map[];
    }

    /**
     The providers are visited in the order of a Go map, which is none. works says which of the providers'
     database calls succeed; the first that does not ends the loop.
     */
    method SendToUser(userId: string, works: map<string, bool>) returns (ok: bool, ghost trace: Trace)
      requires Unique(rows) && works.Keys == provider.Keys
      modifies this`rows
      ensures Unique(rows)
      ensures Rounds(trace, userId, provider) && Once(trace) && First(trace) == old(rows) && trace.rows == rows
      ensures ok <==> provider != map[] && forall p :: p in works ==> works[p]
      ensures ok ==> Visited(trace) == provider.Keys
    {
      trace := Start(rows);
      if |provider| < 1 {
        assert provider == map[];
        return false, trace;
      }
      var left := provider.Keys;
      while left != {}
        invariant left <= provider.Keys
        invariant Unique(rows)
        invariant Rounds(trace, userId, provider) && Once(trace)
        invariant First(trace) == old(rows) && trace.rows == rows
        invariant forall p :: p in Visited(trace) <==> p in provider && p !in left
        invariant forall p :: p in works && p !in left ==> works[p]
        decreases left
      {
        var name :| name in left;
        if !works[name] {
          return false, trace;
        }
        ghost var report := SendVia(userId, name);
        Extends(trace, userId, provider, name, report, rows);
        left := left - {name};
        trace := Then(trace, name, report, rows);
      }
      return true, trace;
    }

    /** Sends to the user's tokens at one provider and deletes those it calls invalid. */
    method SendVia(userId: string, name: string) returns (ghost report: set<string>)
      requires Unique(rows) && name in provider
      modifies this`rows
      ensures Unique(rows) && Round(old(rows), rows, userId, name, provider[name], report)
    {
      var tokens := TokensOf(userId, name);
      var responseSlice := SendMulticast(provider[name], tokens);
      var tokenToDelete := {};
      for k := 0 to |responseSlice|
        invariant tokenToDelete == Invalid(provider[name], tokens[..k])
      {
        assert tokens[..k + 1] == tokens[..k] + [tokens[k]];
        if !responseSlice[k].valid {
          tokenToDelete := tokenToDelete + {responseSlice[k].token};
        }
      }
      assert tokens[..|tokens|] == tokens;
      InvalidIsAccusations(tokens, rows, userId, name, provider[name]);
      rows := DeleteTokens(rows, userId, tokenToDelete);
      report := tokenToDelete;
    }

    method TokensOf(userId: string, name: string) returns (tokens: seq<string>)
      requires Unique(rows)
      ensures Lists(tokens, rows, userId, name)
    {
      tokens := [];
      var left := rows.Keys;
      while left != {}
        invariant left <= rows.Keys
        invariant forall t ::
          t in tokens <==> exists i :: i in rows && i !in left && rows[i] == Row(t, userId, name)
        invariant forall i, j :: 0 <= i < j < |tokens| ==> tokens[i] != tokens[j]
        decreases |left|
      {
        var i :| i in left;
        if rows[i].userId == userId && rows[i].provider == name {
          assert rows[i] == Row(rows[i].token, userId, name);
          tokens := tokens + [rows[i].token];
        }
        left := left - {i};
      }
    }
  }

  /******* What a run leaves *******/

  /** What is left is exactly what no provider visited reported for this user; other users keep everything. */
  lemma {:induction false} LeavesUnreported(t: Trace, userId: string, providers: map<string, Provider>)
    requires Rounds(t, userId, providers)
    ensures t.rows == DeleteTokens(First(t), userId, Reported(t))
  {
    if t.Then? {
      LeavesUnreported(t.before, userId, providers);
    }
  }

  /** Row i is the user's, and sending to it at its provider would report y. */
  predicate Accuses(rows: Rows, userId: string, providers: map<string, Provider>, i: Id, y: string) {
    && i in rows
    && rows[i].userId == userId
    && rows[i].provider in providers
    && Accused(providers[rows[i].provider], rows[i].token) == Some(y)
  }

  lemma AccusationHasRow(rows: Rows, userId: string, name: string, send: Provider, y: string) returns (i: Id)
    requires y in Accusations(rows, userId, name, send)
    ensures i in rows && rows[i].userId == userId && rows[i].provider == name
    ensures Accused(send, rows[i].token) == Some(y)
  {
    i :| && i in rows
         && rows[i].userId == userId
         && rows[i].provider == name
         && !send(rows[i].token).valid
         && send(rows[i].token).token == y;
  }

  /** What is reported is what some token of the first table accuses. */
  lemma {:induction false} ReportedIsAccused(t: Trace, userId: string, providers: map<string, Provider>, y: string)
    returns (i: Id)
    requires Rounds(t, userId, providers) && y in Reported(t)
    ensures Accuses(First(t), userId, providers, i, y) && First(t)[i].provider in Visited(t)
  {
    if y in Reported(t.before) {
      i := ReportedIsAccused(t.before, userId, providers, y);
    } else {
      LeavesUnreported(t.before, userId, providers);
      i := AccusationHasRow(t.before.rows, userId, t.name, providers[t.name], y);
    }
  }

  /**
   A token x at one provider accuses another token y, which at another provider would accuse a third party, so
   that it matters who is visited first.
   */
  predicate Chain(providers: map<string, Provider>, p: string, q: string, x: string, y: string) {
    && p in providers
    && q in providers
    && p != q
    && x != y
    && Accused(providers[p], x) == Some(y)
    && Accused(providers[q], y).Some?
    && Accused(providers[q], y) != Some(y)
  }

  ghost predicate Unchained(providers: map<string, Provider>) {
    forall p, q, x, y :: !Chain(providers, p, q, x, y)
  }

  /** Without chains every accusation of a visited provider's token is reported, or was already. */
  lemma {:induction false} AccusedIsReported(t: Trace, userId: string, providers: map<string, Provider>, i: Id,
                                             y: string)
    requires Rounds(t, userId, providers) && Unchained(providers) && Unique(First(t))
    requires Accuses(First(t), userId, providers, i, y) && First(t)[i].provider in Visited(t)
    ensures y in Reported(t)
  {
    var row := First(t)[i];
    if row.provider in Visited(t.before) {
      AccusedIsReported(t.before, userId, providers, i, y);
    } else {
      LeavesUnreported(t.before, userId, providers);
      if i in t.before.rows {
        assert y in Accusations(t.before.rows, userId, row.provider, providers[row.provider]);
      } else {
        var j := ReportedIsAccused(t.before, userId, providers, row.token);
        assert !Chain(providers, First(t)[j].provider, row.provider, First(t)[j].token, row.token);
      }
    }
  }

  /** Every provider was visited, and only once, starting from these rows: a run that the loop can take. */
  ghost predicate Complete(t: Trace, rows: Rows, userId: string, providers: map<string, Provider>) {
    Rounds(t, userId, providers) && Once(t) && First(t) == rows && Visited(t) == providers.Keys
  }

  lemma UnchainedOrderIrrelevant(t: Trace, t': Trace, rows: Rows, userId: string, providers: map<string, Provider>)
    requires Unchained(providers) && Unique(rows)
    requires Complete(t, rows, userId, providers) && Complete(t', rows, userId, providers)
    ensures t.rows == t'.rows
  {
    forall y ensures y in Reported(t) <==> y in Reported(t') {
      if y in Reported(t) {
        var i := ReportedIsAccused(t, userId, providers, y);
        AccusedIsReported(t', userId, providers, i, y);
      }
      if y in Reported(t') {
        var i := ReportedIsAccused(t', userId, providers, y);
        AccusedIsReported(t, userId, providers, i, y);
      }
    }
    LeavesUnreported(t, userId, providers);
    LeavesUnreported(t', userId, providers);
  }

  /******* A chain makes the order matter *******/

  lemma IdleRound(rows: Rows, userId: string, name: string, send: Provider)
    requires forall i :: i in rows && rows[i].userId == userId ==> rows[i].provider != name
    ensures Round(rows, rows, userId, name, send, {})
  {
  }

  /** Visiting providers at which the user has no tokens changes nothing. */
  lemma {:induction false} VisitIdle(t: Trace, left: set<string>, userId: string, providers: map<string, Provider>)
    returns (t': Trace)
    requires Rounds(t, userId, providers) && Once(t) && left <= providers.Keys
    requires left !! Visited(t)
    requires forall i :: i in t.rows && t.rows[i].userId == userId ==> t.rows[i].provider !in left
    ensures Rounds(t', userId, providers) && Once(t') && t'.rows == t.rows && First(t') == First(t)
    ensures forall p :: p in Visited(t') <==> p in Visited(t) || p in left
    decreases |left|
  {
    if left == {} {
      t' := t;
    } else {
      var name :| name in left;
      IdleRound(t.rows, userId, name, providers[name]);
      Extends(t, userId, providers, name, {}, t.rows);
      var next := Then(t, name, {}, t.rows);
      t' := VisitIdle(next, left - {name}, userId, providers);
    }
  }

  /** A name that none of these is. */
  lemma {:induction false} FreshName(names: set<string>) returns (s: string)
    ensures s !in names && forall n :: n in names ==> |n| < |s|
    decreases |names|
  {
    if names == {} {
      s := "";
    } else {
      var n :| n in names;
      var s' := FreshName(names - {n});
      s := s' + n + "x";
      assert forall m :: m in names ==> m == n || m in names - {n};
    }
  }

  lemma VisitOne(t: Trace, providers: map<string, Provider>, userId: string, name: string, i: Id, y: string, rows: Rows)
    requires Rounds(t, userId, providers) && Once(t) && name in providers && name !in Visited(t)
    requires i in t.rows && t.rows[i].userId == userId && t.rows[i].provider == name
    requires forall j :: j in t.rows && t.rows[j].provider == name ==> j == i
    requires Accused(providers[name], t.rows[i].token) == Some(y) && rows == DeleteTokens(t.rows, userId, {y})
    ensures
      var t' := Then(t, name, {y}, rows);
      && Rounds(t', userId, providers)
      && Once(t')
      && First(t') == First(t)
      && (forall p :: p in Visited(t') <==> p in Visited(t) || p == name)
  {
    assert Accusations(t.rows, userId, name, providers[name]) == {y};
    Extends(t, userId, providers, name, {y}, rows);
  }

  /** The rows of a chain: x at p, y at q, and what y accuses, unless that is x, at no registered provider. */
  function ChainRows(p: string, q: string, other: string, x: string, y: string, z: string): Rows {
    var rows: Rows := map[0 := Row(x, "u", p), 1 := Row(y, "u", q)];
    if z == x then rows else rows[2 := Row(z, "u", other)]
  }

  /** With p first, y is deleted before it can accuse z. */
  lemma AccuserFirst(providers: map<string, Provider>, p: string, q: string, other: string, x: string, y: string,
                     z: string)
    returns (t: Trace)
    requires Chain(providers, p, q, x, y) && Accused(providers[q], y) == Some(z) && other !in providers
    ensures Complete(t, ChainRows(p, q, other, x, y, z), "u", providers)
    ensures 0 in t.rows && (z != x ==> 2 in t.rows)
  {
    var rows := ChainRows(p, q, other, x, y, z);
    var rows1 := DeleteTokens(rows, "u", {y});
    VisitOne(Start(rows), providers, "u", p, 0, y, rows1);
    var t1 := Then(Start(rows), p, {y}, rows1);
    t := VisitIdle(t1, providers.Keys - {p}, "u", providers);
  }

  /** With q first, z is deleted. If z is x itself, p then accuses nobody. */
  lemma AccusedFirst(providers: map<string, Provider>, p: string, q: string, other: string, x: string, y: string,
                     z: string)
    returns (t: Trace)
    requires Chain(providers, p, q, x, y) && Accused(providers[q], y) == Some(z) && other !in providers
    ensures Complete(t, ChainRows(p, q, other, x, y, z), "u", providers)
    ensures z == x ==> 0 !in t.rows
    ensures z != x ==> 2 !in t.rows
  {
    if z != x {
      t := ThirdAccused(providers, p, q, other, x, y, z);
    } else {
      var rows := ChainRows(p, q, other, x, y, z);
      var rows1 := DeleteTokens(rows, "u", {z});
      VisitOne(Start(rows), providers, "u", q, 1, z, rows1);
      t := VisitIdle(Then(Start(rows), q, {z}, rows1), providers.Keys - {q}, "u", providers);
    }
  }

  lemma ThirdAccused(providers: map<string, Provider>, p: string, q: string, other: string, x: string, y: string,
                     z: string)
    returns (t: Trace)
    requires Chain(providers, p, q, x, y) && Accused(providers[q], y) == Some(z) && other !in providers && z != x
    ensures Complete(t, ChainRows(p, q, other, x, y, z), "u", providers) && 2 !in t.rows
  {
    var rows := ChainRows(p, q, other, x, y, z);
    var rows1 := DeleteTokens(rows, "u", {z});
    VisitOne(Start(rows), providers, "u", q, 1, z, rows1);
    var t1 := Then(Start(rows), q, {z}, rows1);
    var rows2 := DeleteTokens(rows1, "u", {y});
    VisitOne(t1, providers, "u", p, 0, y, rows2);
    t := VisitIdle(Then(t1, p, {y}, rows2), providers.Keys - {p, q}, "u", providers);
  }

  lemma ChainOrderMatters(providers: map<string, Provider>, p: string, q: string, x: string, y: string)
    returns (rows: Rows, t: Trace, t': Trace)
    requires Chain(providers, p, q, x, y)
    ensures Unique(rows) && Complete(t, rows, "u", providers) && Complete(t', rows, "u", providers) && t.rows != t'.rows
  {
    var z := Accused(providers[q], y).value;
    var other := FreshName(providers.Keys);
    rows := ChainRows(p, q, other, x, y, z);
    t := AccuserFirst(providers, p, q, other, x, y, z);
    t' := AccusedFirst(providers, p, q, other, x, y, z);
  }

  ghost predicate OrderIrrelevant(providers: map<string, Provider>) {
    forall rows, userId, t, t' ::
      Unique(rows) && Complete(t, rows, userId, providers) && Complete(t', rows, userId, providers) ==>
        t.rows == t'.rows
  }

  /**
   The order in which the providers are visited is irrelevant, for every table and user, if and only if the
   providers have no chain of accusations.
   */
  lemma OrderIrrelevantExactly(providers: map<string, Provider>)
    ensures OrderIrrelevant(providers) <==> Unchained(providers)
  {
    if Unchained(providers) {
      forall rows, userId, t, t' |
        Unique(rows) && Complete(t, rows, userId, providers) && Complete(t', rows, userId, providers)
        ensures t.rows == t'.rows
      {
        UnchainedOrderIrrelevant(t, t', rows, userId, providers);
      }
    } else {
      var p, q, x, y :| Chain(providers, p, q, x, y);
      var rows, t, t' := ChainOrderMatters(providers, p, q, x, y);
    }
  }

  /******* The providers of the repository *******/

  /** The response is about the token that was sent. */
  ghost predicate Echoes(send: Provider) {
    forall token :: send(token).token == token
  }

  ghost predicate AllEcho(providers: map<string, Provider>) {
    forall p :: p in providers ==> Echoes(providers[p])
  }

  const EXPECTED_TOKEN_LENGTH := 40

  /** The mock goes by the length of the token. */
  function MockSend(token: string): Response {
    Response(token, |token| >= EXPECTED_TOKEN_LENGTH)
  }

  /** code is the error code that the cloud service answers with, if it answers with an error of its own. */
  function FcmSend(code: string -> Option<int>): Provider {
    token => Response(token, code(token) != Some(404) && code(token) != Some(400))
  }

  /** With both providers, whatever the cloud service answers, the order is irrelevant. */
  lemma RepositoryProvidersEcho(code: string -> Option<int>)
    ensures AllEcho(map["fcm" := FcmSend(code), "apn" := MockSend])
    ensures OrderIrrelevant(map["fcm" := FcmSend(code), "apn" := MockSend])
  {
    var providers: map<string, Provider> := map["fcm" := FcmSend(code), "apn" := MockSend];
    EchoIsUnchained(providers);
    OrderIrrelevantExactly(providers);
  }

  lemma EchoIsUnchained(providers: map<string, Provider>)
    requires AllEcho(providers)
    ensures Unchained(providers)
  {
  }

  /** The user's tokens without those that their own provider, if it was visited, calls invalid. */
  ghost function Pruned(rows: Rows, userId: string, visited: set<string>, providers: map<string, Provider>): Rows {
    map i | i in rows &&
            !(&& rows[i].userId == userId
              && rows[i].provider in visited
              && rows[i].provider in providers
              && !providers[rows[i].provider](rows[i].token).valid) :: rows[i]
  }

  /**
   SendToUser with such providers leaves exactly the tokens their own providers, as far as visited, do not call
   invalid.
   */
  lemma LeavesValid(t: Trace, userId: string, providers: map<string, Provider>)
    requires Rounds(t, userId, providers) && Unique(First(t)) && AllEcho(providers)
    ensures t.rows == Pruned(First(t), userId, Visited(t), providers)
  {
    var rows := First(t);
    LeavesUnreported(t, userId, providers);
    EchoIsUnchained(providers);
    forall i | i in rows && rows[i].userId == userId
      ensures rows[i].token in Reported(t) <==>
        && rows[i].provider in Visited(t)
        && rows[i].provider in providers
        && !providers[rows[i].provider](rows[i].token).valid
    {
      var y := rows[i].token;
      if y in Reported(t) {
        var j := ReportedIsAccused(t, userId, providers, y);
        assert rows[j].token == y;
      } else if rows[i].provider in Visited(t) && Accuses(rows, userId, providers, i, y) {
        AccusedIsReported(t, userId, providers, i, y);
      }
    }
  }
}
