/**
 The eager loaders of the generated models on the heap: LoadUser hangs each access token below its
 user (internal/models/access_tokens.go), LoadAccessTokens hangs the tokens of each user below it
 (internal/models/users.go). The query's result is given; what is proved is that the nested loops
 rebuild the foreign-key join with pointers in both directions.
 */
module EagerLoading {

  class AccessToken {
    const token: string
    const userId: string
    var r: AccessTokenR?

    constructor (token: string, userId: string)
      ensures this.token == token && this.userId == userId && r == null
    {
      this.token, this.userId, r := token, userId, null;
    }
  }

  class AccessTokenR {
    var user: User?

    constructor ()
      ensures user == null
    {
      user := null;
    }
  }

  class User {
    const id: string
    var r: UserR?

    constructor (id: string)
      ensures this.id == id && r == null
    {
      this.id, r := id, null;
    }
  }

  class UserR {
    var accessTokens: seq<AccessToken>

    constructor ()
      ensures accessTokens == []
    {
      accessTokens := [];
    }
  }

  /** The first user with this id, if there is one. */
  ghost function FindUser(users: seq<User>, id: string): (u: User?)
    ensures u != null ==> u in users && u.id == id
    ensures u == null ==> forall v :: v in users ==> v.id != id
  {
    if users == [] then null
    else if users[0].id == id then users[0]
    else
      var u := FindUser(users[1..], id);
      assert users == [users[0]] + users[1..];
      u
  }

  lemma {:induction false} FindsFirst(users: seq<User>, k: nat)
    requires k < |users| && forall j :: 0 <= j < k ==> users[j].id != users[k].id
    ensures FindUser(users, users[k].id) == users[k]
  {
    if k > 0 {
      FindsFirst(users[1..], k - 1);
    }
  }

  /** Where a token with this UserID points after the scan, when it pointed at p before. */
  ghost function Target(users: seq<User>, id: string, p: User?): User? {
    var u := FindUser(users, id);
    if u == null then p else u
  }

  /** What the scan for this token appends to the list of u. */
  ghost function Gain(token: AccessToken, users: seq<User>, u: User): seq<AccessToken> {
    if FindUser(users, token.userId) == u then [token] else []
  }

  /** The tokens that a scan of the users for the first match gives to u, in order. */
  ghost function Joined(tokens: seq<AccessToken>, users: seq<User>, u: User): seq<AccessToken> {
    if tokens == [] then []
    else
      var last := |tokens| - 1;
      Joined(tokens[..last], users, u) + Gain(tokens[last], users, u)
  }

  lemma JoinedNext(tokens: seq<AccessToken>, k: nat, users: seq<User>, u: User)
    requires k < |tokens|
    ensures Joined(tokens[..k + 1], users, u) == Joined(tokens[..k], users, u) + Gain(tokens[k], users, u)
  {
    assert tokens[..k + 1][..k] == tokens[..k];
  }

  lemma {:induction false} JoinedMembers(tokens: seq<AccessToken>, users: seq<User>, u: User)
    ensures forall t :: t in Joined(tokens, users, u) <==> t in tokens && FindUser(users, t.userId) == u
  {
    if tokens != [] {
      var last := |tokens| - 1;
      JoinedMembers(tokens[..last], users, u);
      assert tokens == tokens[..last] + [tokens[last]];
    }
  }

  ghost predicate DistinctIds(users: seq<User>) {
    forall i, j :: 0 <= i < j < |users| ==> users[i].id != users[j].id
  }

  /** The tokens of the owner with this id, in order: the foreign-key join seen from the user. */
  ghost function OwnedBy(tokens: seq<AccessToken>, id: string): seq<AccessToken> {
    if tokens == [] then []
    else
      var last := |tokens| - 1;
      OwnedBy(tokens[..last], id) + if tokens[last].userId == id then [tokens[last]] else []
  }

  lemma OwnedNext(front: seq<AccessToken>, t: AccessToken, id: string)
    ensures OwnedBy(front + [t], id) == OwnedBy(front, id) + if t.userId == id then [t] else []
  {
    assert (front + [t])[..|front|] == front;
  }

  /** The join keeps the order of the rows and takes each as often as it occurs. */
  lemma {:induction false} OwnedInOrder(a: seq<AccessToken>, b: seq<AccessToken>, id: string)
    ensures OwnedBy(a + b, id) == OwnedBy(a, id) + OwnedBy(b, id)
  {
    if b == [] {
      assert a + b == a;
    } else {
      var front, t := b[..|b| - 1], b[|b| - 1];
      OwnedInOrder(a, front, id);
      OwnedNext(a + front, t, id);
      assert a + b == a + front + [t];
    }
  }

  /** Among users with distinct ids, the scan computes the foreign-key join. */
  lemma {:induction false} JoinedIsForeignKeyJoin(tokens: seq<AccessToken>, users: seq<User>, u: User)
    requires DistinctIds(users) && u in users
    ensures Joined(tokens, users, u) == OwnedBy(tokens, u.id)
  {
    if tokens != [] {
      var last := |tokens| - 1;
      JoinedIsForeignKeyJoin(tokens[..last], users, u);
      if tokens[last].userId == u.id {
        var k :| 0 <= k < |users| && users[k] == u;
        FindsFirst(users, k);
      }
    }
  }

  /** Where a token points; nowhere while it has no relation object. */
  ghost function PointsTo(t: AccessToken): User?
    reads t, t.r
  {
    if t.r == null then null else t.r.user
  }

  /** What a user lists; nothing while it has no relation object. */
  ghost function Listed(u: User): seq<AccessToken>
    reads u, u.r
  {
    if u.r == null then [] else u.r.accessTokens
  }

  ghost function TokenRs(tokens: set<AccessToken>): set<AccessTokenR>
    reads tokens
  {
    set t | t in tokens && t.r != null :: t.r
  }

  ghost function UserRs(users: set<User>): set<UserR>
    reads users
  {
    set u | u in users && u.r != null :: u.r
  }

  /** What the tokens point at, as a value. */
  ghost function Points(tokens: set<AccessToken>): map<AccessToken, User?>
    reads tokens, TokenRs(tokens)
  {
    map t | t in tokens :: PointsTo(t)
  }

  /** What the users list, as a value. */
  ghost function Lists(users: set<User>): map<User, seq<AccessToken>>
    reads users, UserRs(users)
  {
    map u | u in users :: Listed(u)
  }

  /** No two tokens share a relation object, and no two users do. */
  ghost predicate Unshared(tokens: set<AccessToken>, users: set<User>)
    reads tokens, users
  {
    && (forall t, t' :: t in tokens && t' in tokens && t.r != null && t.r == t'.r ==> t == t')
    && (forall u, u' :: u in users && u' in users && u.r != null && u.r == u'.r ==> u == u')
  }

  /** Points the token at the user and appends it to the user's list, making relation objects as needed. */
  method Link(token: AccessToken, user: User)
    modifies token`r, TokenRs({token})`user, user`r, UserRs({user})`accessTokens
    ensures token.r != null && user.r != null
    ensures old(token.r) != null ==> token.r == old(token.r)
    ensures old(token.r) == null ==> fresh(token.r)
    ensures old(user.r) != null ==> user.r == old(user.r)
    ensures old(user.r) == null ==> fresh(user.r)
    ensures PointsTo(token) == user
    ensures Listed(user) == old(Listed(user)) + [token]
  {
    if token.r == null {
      token.r := new AccessTokenR();
    }
    token.r.user := user;
    if user.r == null {
      user.r := new UserR();
    }
    user.r.accessTokens := user.r.accessTokens + [token];
  }

  /** The inner loop of both loaders: links the token with the first user that has its UserID. */
  method LinkToOwner(token: AccessToken, slice: seq<User>, ghost tokens: set<AccessToken>, ghost users: set<User>)
    requires token in tokens && users == (set u | u in slice)
    requires Unshared(tokens, users)
    modifies token`r, TokenRs({token})`user, users`r, UserRs(users)`accessTokens
    ensures Unshared(tokens, users)
    ensures old(token.r) != null ==> token.r == old(token.r)
    ensures old(token.r) == null && token.r != null ==> fresh(token.r)
    ensures forall u :: u in users && old(u.r) != null ==> u.r == old(u.r)
    ensures forall u :: u in users && old(u.r) == null && u.r != null ==> fresh(u.r)
    ensures forall t :: t in tokens && t != token ==> t.r == old(t.r) && PointsTo(t) == old(PointsTo(t))
    ensures PointsTo(token) == Target(slice, token.userId, old(PointsTo(token)))
    ensures forall u :: u in users ==> Listed(u) == old(Listed(u)) + Gain(token, slice, u)
  {
    for k := 0 to |slice|
      invariant forall j :: 0 <= j < k ==> slice[j].id != token.userId
      invariant token.r == old(token.r) && PointsTo(token) == old(PointsTo(token))
      invariant forall u :: u in users ==> u.r == old(u.r) && Listed(u) == old(Listed(u))
    {
      var user := slice[k];
      if token.userId == user.id {
        FindsFirst(slice, k);
        assert user in users;
        Link(token, user);
        return;
      }
    }
  }

  /** The tokens visited point at their user, if there is one; the others point where they did. */
  ghost function PointsAfter(visited: seq<AccessToken>, slice: seq<User>, before: map<AccessToken, User?>)
    : map<AccessToken, User?>
  {
    map t | t in before :: if t in visited then Target(slice, t.userId, before[t]) else before[t]
  }

  /** Each user lists what it did and then its tokens among those visited, in order. */
  ghost function ListsAfter(visited: seq<AccessToken>, slice: seq<User>, before: map<User, seq<AccessToken>>)
    : map<User, seq<AccessToken>>
  {
    map u | u in before :: before[u] + Joined(visited, slice, u)
  }

  lemma PointsNext(order: seq<AccessToken>, i: nat, slice: seq<User>,
                   before: map<AccessToken, User?>, points: map<AccessToken, User?>)
    requires i < |order| && order[i] in before && points.Keys == before.Keys
    requires forall t :: t in before && t != order[i] ==> points[t] == PointsAfter(order[..i], slice, before)[t]
    requires
      var t := order[i];
      points[t] == Target(slice, t.userId, PointsAfter(order[..i], slice, before)[t])
    ensures points == PointsAfter(order[..i + 1], slice, before)
  {
    assert order[..i + 1] == order[..i] + [order[i]];
  }

  lemma ListNext(order: seq<AccessToken>, i: nat, slice: seq<User>, u: User, before: seq<AccessToken>)
    requires i < |order|
    ensures before + Joined(order[..i], slice, u) + Gain(order[i], slice, u) ==
            before + Joined(order[..i + 1], slice, u)
  {
    JoinedNext(order, i, slice, u);
  }

  lemma ListsNext(order: seq<AccessToken>, i: nat, slice: seq<User>,
                  before: map<User, seq<AccessToken>>, lists: map<User, seq<AccessToken>>)
    requires i < |order| && lists.Keys == before.Keys
    requires
      forall u :: u in before ==>
        lists[u] == ListsAfter(order[..i], slice, before)[u] + Gain(order[i], slice, u)
    ensures lists == ListsAfter(order[..i + 1], slice, before)
  {
    forall u | u in lists ensures lists[u] == ListsAfter(order[..i + 1], slice, before)[u] {
      ListNext(order, i, slice, u, before[u]);
    }
  }

  /** The nested loops of both loaders. */
  method LinkAll(order: seq<AccessToken>, slice: seq<User>, ghost tokens: set<AccessToken>, ghost users: set<User>)
    requires tokens == (set t | t in order) && users == (set u | u in slice)
    requires Unshared(tokens, users)
    modifies tokens`r, TokenRs(tokens)`user, users`r, UserRs(users)`accessTokens
    ensures forall t :: t in tokens && old(t.r) != null ==> t.r != null
    ensures forall u :: u in users && old(u.r) != null ==> u.r != null
    ensures Points(tokens) == PointsAfter(order, slice, old(Points(tokens)))
    ensures Lists(users) == ListsAfter(order, slice, old(Lists(users)))
  {
    ghost var points, lists := Points(tokens), Lists(users);
    assert forall u :: u in lists ==> lists[u] + [] == lists[u];
    assert lists == ListsAfter([], slice, lists);
    for i := 0 to |order|
      invariant Unshared(tokens, users)
      invariant forall t :: t in tokens ==> t.r == old(t.r) || (old(t.r) == null && fresh(t.r))
      invariant forall u :: u in users ==> u.r == old(u.r) || (old(u.r) == null && fresh(u.r))
      invariant Points(tokens) == PointsAfter(order[..i], slice, points)
      invariant Lists(users) == ListsAfter(order[..i], slice, lists)
    {
      LinkToOwner(order[i], slice, tokens, users);
      PointsNext(order, i, slice, points, Points(tokens));
      ListsNext(order, i, slice, lists, Lists(users));
    }
    assert order[..|order|] == order;
  }

  /** The first loop of LoadUser: every token gets a relation object. */
  method EnsureTokenRs(slice: seq<AccessToken>, ghost tokens: set<AccessToken>, ghost users: set<User>)
    requires tokens == set t | t in slice
    requires Unshared(tokens, users)
    modifies tokens`r
    ensures Unshared(tokens, users) && Points(tokens) == old(Points(tokens))
    ensures forall t :: t in tokens ==> t.r != null && (t.r == old(t.r) || fresh(t.r))
  {
    for i := 0 to |slice|
      invariant Unshared(tokens, users) && Points(tokens) == old(Points(tokens))
      invariant forall j :: 0 <= j < i ==> slice[j].r != null
      invariant forall t :: t in tokens && t.r != null ==> t.r == old(t.r) || fresh(t.r)
    {
      assert slice[i] in tokens;
      if slice[i].r == null {
        slice[i].r := new AccessTokenR();
      }
    }
  }

  /** The first loop of LoadAccessTokens: every user gets a relation object. */
  method EnsureUserRs(slice: seq<User>, ghost tokens: set<AccessToken>, ghost users: set<User>)
    requires users == set u | u in slice
    requires Unshared(tokens, users)
    modifies users`r
    ensures Unshared(tokens, users) && Lists(users) == old(Lists(users))
    ensures forall u :: u in users ==> u.r != null && (u.r == old(u.r) || fresh(u.r))
  {
    for i := 0 to |slice|
      invariant Unshared(tokens, users) && Lists(users) == old(Lists(users))
      invariant forall j :: 0 <= j < i ==> slice[j].r != null
      invariant forall u :: u in users && u.r != null ==> u.r == old(u.r) || fresh(u.r)
    {
      assert slice[i] in users;
      if slice[i].r == null {
        slice[i].r := new UserR();
      }
    }
  }

  lemma NothingToLink(order: seq<AccessToken>, slice: seq<User>, points: map<AccessToken, User?>,
                      lists: map<User, seq<AccessToken>>)
    requires order == [] || slice == []
    requires forall u :: u in lists ==> u in slice
    ensures PointsAfter(order, slice, points) == points && ListsAfter(order, slice, lists) == lists
  {
    assert forall u :: u in lists ==> lists[u] + [] == lists[u];
  }

  /** LoadUser on a slice of tokens; result is what the query returned. */
  method LoadUser(slice: seq<AccessToken>, result: seq<User>, ghost tokens: set<AccessToken>, ghost users: set<User>)
    requires tokens == (set t | t in slice) && users == (set u | u in result)
    requires Unshared(tokens, users)
    modifies tokens`r, TokenRs(tokens)`user, users`r, UserRs(users)`accessTokens
    ensures Points(tokens) == PointsAfter(slice, result, old(Points(tokens)))
    ensures Lists(users) == ListsAfter(slice, result, old(Lists(users)))
    ensures forall t :: t in tokens ==> t.r != null
  {
    EnsureTokenRs(slice, tokens, users);
    if |slice| == 0 || |result| == 0 {
      NothingToLink(slice, result, Points(tokens), Lists(users));
      return;
    }
    LinkAll(slice, result, tokens, users);
  }

  /** LoadAccessTokens on a slice of users; result is what the query returned. */
  method LoadAccessTokens(slice: seq<User>, result: seq<AccessToken>, ghost tokens: set<AccessToken>,
                          ghost users: set<User>)
    requires tokens == (set t | t in result) && users == (set u | u in slice)
    requires Unshared(tokens, users)
    modifies tokens`r, TokenRs(tokens)`user, users`r, UserRs(users)`accessTokens
    ensures Points(tokens) == PointsAfter(result, slice, old(Points(tokens)))
    ensures Lists(users) == ListsAfter(result, slice, old(Lists(users)))
    ensures forall u :: u in users ==> u.r != null
  {
    EnsureUserRs(slice, tokens, users);
    if |slice| == 0 {
      NothingToLink(result, slice, Points(tokens), Lists(users));
      return;
    }
    LinkAll(result, slice, tokens, users);
  }

  /** LoadUser on one token: the first row of the result is linked, whatever its id. */
  method LoadUserOf(token: AccessToken, result: seq<User>, ghost users: set<User>)
    requires users == (set u | u in result) && Unshared({token}, users)
    modifies token`r, TokenRs({token})`user, users`r, UserRs(users)`accessTokens
    ensures token.r != null
    ensures PointsTo(token) == if result == [] then old(PointsTo(token)) else result[0]
    ensures forall u :: u in users ==> Listed(u) == old(Listed(u)) + if u == result[0] then [token] else []
  {
    if token.r == null {
      token.r := new AccessTokenR();
    }
    if |result| == 0 {
      return;
    }
    Link(token, result[0]);
  }

  /** Every row of the result points at the user. */
  method PointAll(result: seq<AccessToken>, user: User, ghost tokens: set<AccessToken>)
    requires tokens == (set t | t in result) && Unshared(tokens, {})
    modifies tokens`r, TokenRs(tokens)`user
    ensures forall t :: t in tokens ==> PointsTo(t) == user
  {
    for i := 0 to |result|
      invariant Unshared(tokens, {})
      invariant forall t :: t in tokens && t.r != null ==> t.r == old(t.r) || fresh(t.r)
      invariant forall j :: 0 <= j < i ==> PointsTo(result[j]) == user
    {
      var foreign := result[i];
      assert foreign in tokens;
      if foreign.r == null {
        foreign.r := new AccessTokenR();
      }
      foreign.r.user := user;
    }
  }

  /** LoadAccessTokens on one user: its list is replaced by the result, and each row points back. */
  method LoadAccessTokensOf(user: User, result: seq<AccessToken>, ghost tokens: set<AccessToken>)
    requires tokens == (set t | t in result) && Unshared(tokens, {})
    modifies user`r, UserRs({user})`accessTokens, tokens`r, TokenRs(tokens)`user
    ensures Listed(user) == result
    ensures forall t :: t in tokens ==> PointsTo(t) == user
  {
    if user.r == null {
      user.r := new UserR();
    }
    user.r.accessTokens := result;
    PointAll(result, user, tokens);
  }

  /**
   What both loaders leave behind. One side is freshly bound, so that no token and user were linked
   before. Then the pointers are mutually inverse: a user lists a token exactly if the token points to it.
   */
  lemma PointersInverse(order: seq<AccessToken>, slice: seq<User>, points: map<AccessToken, User?>,
                        lists: map<User, seq<AccessToken>>, t: AccessToken, u: User)
    requires t in order && t in points && u in slice && u in lists
    requires points[t] != u && t !in lists[u]
    ensures t in ListsAfter(order, slice, lists)[u] <==> PointsAfter(order, slice, points)[t] == u
  {
    JoinedMembers(order, slice, u);
  }

  /**
   With distinct ids the loaders compute the foreign-key join: a token points to u exactly if u has its
   UserID, and what u lists grows by exactly its tokens in the order of the slice.
   */
  lemma LoadIsForeignKeyJoin(order: seq<AccessToken>, slice: seq<User>, points: map<AccessToken, User?>,
                             lists: map<User, seq<AccessToken>>, t: AccessToken, u: User)
    requires DistinctIds(slice) && t in order && t in points && u in slice && u in lists
    requires points[t] != u
    ensures PointsAfter(order, slice, points)[t] == u <==> t.userId == u.id
    ensures ListsAfter(order, slice, lists)[u] == lists[u] + OwnedBy(order, u.id)
  {
    JoinedIsForeignKeyJoin(order, slice, u);
    if t.userId == u.id {
      var k :| 0 <= k < |slice| && slice[k] == u;
      FindsFirst(slice, k);
    }
  }

  /** A token none of whose users came back keeps its pointer, and nobody gains it. */
  lemma UnmatchedStays(order: seq<AccessToken>, slice: seq<User>, points: map<AccessToken, User?>,
                       lists: map<User, seq<AccessToken>>, t: AccessToken)
    requires t in order && t in points && forall u :: u in slice ==> u.id != t.userId
    ensures PointsAfter(order, slice, points)[t] == points[t]
    ensures forall u :: u in slice && u in lists && t !in lists[u] ==> t !in ListsAfter(order, slice, lists)[u]
  {
    forall u | u in slice && u in lists && t !in lists[u] ensures t !in ListsAfter(order, slice, lists)[u] {
      JoinedMembers(order, slice, u);
    }
  }
}
