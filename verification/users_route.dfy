/** The roster-with-access view (`GET /api/users`): the cached roster left-joined
    with the grants on principal name, one row per distinct user with the
    comma-joined distinct server ids, ordered by display name, then each row's id
    text read back into a list of numbers and an access flag. */
module UsersRoute {
  import opened Options
  import opened Seqs
  import opened Decimal
  import opened Directory

  /** A row of the SQL result: the user's columns and `GROUP_CONCAT(DISTINCT
      radius_server_id)`, which is `NULL` when no grant joined. */
  datatype QueryRow = QueryRow(user: DirectoryUser, vpnServers: Option<string>)

  /** A user as the endpoint returns it. */
  datatype UserView = UserView(id: string, displayName: string, userPrincipalName: string,
                               vpnServers: seq<JsNum>, hasVpnAccess: bool)

  /** Whether the store could be read at all. */
  datatype StoreRead = Readable(store: Store) | Unreachable

  datatype UsersResponse =
    | UsersOk(users: seq<UserView>)
    | Unauthorized  // status 401, body {"error": "Unauthorized"}
    | QueryFailed   // status 500, body {"error": "Failed to fetch users"}

  /** `ORDER BY displayName ASC`: text compared character by character. */
  predicate NameLeq(a: string, b: string)
    decreases |a|
  {
    |a| == 0 || (|b| > 0 && (a[0] < b[0] || (a[0] == b[0] && NameLeq(a[1..], b[1..]))))
  }

  lemma {:induction false} NameLeqTotal(a: string, b: string)
    ensures NameLeq(a, b) || NameLeq(b, a)
    decreases |a|
  {
    if |a| > 0 && |b| > 0 && a[0] == b[0] {
      NameLeqTotal(a[1..], b[1..]);
    }
  }

  lemma {:induction false} NameLeqTransitive(a: string, b: string, c: string)
    requires NameLeq(a, b) && NameLeq(b, c)
    ensures NameLeq(a, c)
    decreases |a|
  {
    if |a| > 0 && a[0] == b[0] && b[0] == c[0] {
      NameLeqTransitive(a[1..], b[1..], c[1..]);
    }
  }

  ghost predicate SortedByName(users: seq<DirectoryUser>)
  {
    forall i, j :: 0 <= i < j < |users| ==> NameLeq(users[i].displayName, users[j].displayName)
  }

  /** Inserts `u` before the first user whose name is not below it. */
  function Insert(u: DirectoryUser, users: seq<DirectoryUser>): (r: seq<DirectoryUser>)
    requires SortedByName(users)
    ensures SortedByName(r)
    ensures multiset(r) == multiset(users) + multiset{u}
  {
    if |users| == 0 then [u]
    else if NameLeq(u.displayName, users[0].displayName) then
      assert forall j :: 0 <= j < |users| ==> NameLeq(u.displayName, users[j].displayName) by {
        forall j | 0 <= j < |users|
          ensures NameLeq(u.displayName, users[j].displayName)
        {
          if j > 0 {
            NameLeqTransitive(u.displayName, users[0].displayName, users[j].displayName);
          }
        }
      }
      [u] + users
    else
      var rest := Insert(u, users[1..]);
      NameLeqTotal(u.displayName, users[0].displayName);
      assert users == [users[0]] + users[1..];
      assert forall j :: 0 <= j < |rest| ==> NameLeq(users[0].displayName, rest[j].displayName) by {
        forall j | 0 <= j < |rest|
          ensures NameLeq(users[0].displayName, rest[j].displayName)
        {
          assert rest[j] in multiset(rest);
          if rest[j] != u {
            assert rest[j] in multiset(users[1..]);
            var k :| 0 <= k < |users[1..]| && users[1..][k] == rest[j];
            assert users[k + 1] == rest[j];
          }
        }
      }
      [users[0]] + rest
  }

  /** The users ordered by display name. SQL leaves the order among equal names
      open, and so does this contract. */
  function SortByName(users: seq<DirectoryUser>): (r: seq<DirectoryUser>)
    ensures SortedByName(r)
    ensures multiset(r) == multiset(users)
  {
    if |users| == 0 then []
    else
      assert users == users[..|users| - 1] + [users[|users| - 1]];
      Insert(users[|users| - 1], SortByName(users[..|users| - 1]))
  }

  /** The server id of every grant row for `upn`, in table order. */
  function ServerIdsOf(grants: seq<Grant>, upn: string): (r: seq<nat>)
    ensures forall id :: id in r <==> Grant(upn, id) in grants
  {
    if |grants| == 0 then []
    else
      var r := ServerIdsOf(grants[..|grants| - 1], upn);
      assert grants == grants[..|grants| - 1] + [grants[|grants| - 1]];
      if grants[|grants| - 1].userPrincipalName == upn then r + [grants[|grants| - 1].serverId] else r
  }

  /** The distinct ids `GROUP_CONCAT(DISTINCT ...)` collects for `upn`. MySQL does
      not fix their order without an inner `ORDER BY`; the model uses the order of
      first appearance in the grant table. */
  function GrantedIds(grants: seq<Grant>, upn: string): (r: seq<nat>)
    ensures NoDuplicates(r)
    ensures forall id :: id in r <==> Grant(upn, id) in grants
  {
    Distinct(ServerIdsOf(grants, upn))
  }

  /** `GROUP_CONCAT` over the joined rows: `NULL` when the left join found no
      grant, otherwise the decimal ids joined with commas. */
  function GroupConcat(ids: seq<nat>): (text: Option<string>)
    ensures text.None? <==> |ids| == 0
    ensures text.Some? ==> text.value != "" && Numbers(Split(text.value, ',')) == Nums(ids)
  {
    if |ids| == 0 then None
    else
      EncodedIdsRoundTrip(ids);
      JoinedDecimalsNonEmpty(ids);
      Some(Join(Decimals(ids), ','))
  }

  /** The users the query groups by: the distinct roster rows, ordered by name,
      each row once and every one from the roster. */
  lemma GroupedUsers(roster: seq<DirectoryUser>)
    ensures var users := SortByName(Distinct(roster));
            && |users| == |Distinct(roster)|
            && (forall i :: 0 <= i < |users| ==> users[i] in roster)
            && NoDuplicates(users)
  {
    var users := SortByName(Distinct(roster));
    assert |users| == |multiset(users)| == |Distinct(roster)|;
    PermutationKeepsNoDuplicates(Distinct(roster), users);
    forall i | 0 <= i < |users|
      ensures users[i] in roster
    {
      assert users[i] in multiset(Distinct(roster));
    }
  }

  /** The row of one grouped user: its columns and the ids granted to its
      principal name, `NULL` exactly when no grant names it. */
  function RowOf(grants: seq<Grant>, u: DirectoryUser): (row: QueryRow)
    ensures row.user == u
    ensures row.vpnServers.None? <==> forall id :: Grant(u.userPrincipalName, id) !in grants
  {
    var ids := GrantedIds(grants, u.userPrincipalName);
    if |ids| > 0 then
      assert ids[0] in ids;
      QueryRow(u, GroupConcat(ids))
    else
      QueryRow(u, GroupConcat(ids))
  }

  /** One row per user, in the users' order. */
  function RowsOf(grants: seq<Grant>, users: seq<DirectoryUser>): (rows: seq<QueryRow>)
    ensures |rows| == |users|
    ensures forall i :: 0 <= i < |rows| ==> rows[i].user == users[i]
    ensures forall i :: 0 <= i < |rows| ==>
              (rows[i].vpnServers.None? <==> forall id :: Grant(users[i].userPrincipalName, id) !in grants)
  {
    seq(|users|, i requires 0 <= i < |users| => RowOf(grants, users[i]))
  }

  /** The SQL statement: one row per distinct `(id, displayName,
      userPrincipalName)` of the roster, ordered by display name, each with the
      ids granted to its principal name, `NULL` when there is none. */
  function Query(store: Store): (rows: seq<QueryRow>)
    ensures |rows| == |Distinct(store.roster)|
    ensures forall i, j :: 0 <= i < j < |rows| ==> NameLeq(rows[i].user.displayName, rows[j].user.displayName)
    ensures forall i :: 0 <= i < |rows| ==> rows[i].user in store.roster
    ensures forall i, j :: 0 <= i < j < |rows| ==> rows[i].user != rows[j].user
    ensures forall i :: 0 <= i < |rows| ==>
              (rows[i].vpnServers.None? <==> forall id :: Grant(rows[i].user.userPrincipalName, id) !in store.grants)
  {
    var users := SortByName(Distinct(store.roster));
    GroupedUsers(store.roster);
    RowsOf(store.grants, users)
  }

  /** The `users.map(...)` step: a truthy id text is split on commas and each
      piece read with `Number`; `NULL` and the empty text give no servers. */
  function Format(row: QueryRow): (v: UserView)
    ensures v.id == row.user.id && v.displayName == row.user.displayName
    ensures v.userPrincipalName == row.user.userPrincipalName
    ensures (v.vpnServers == [] && !v.hasVpnAccess) <==> (row.vpnServers.None? || row.vpnServers.value == "")
    ensures v.hasVpnAccess <==> |v.vpnServers| > 0
  {
    var truthy := row.vpnServers.Some? && row.vpnServers.value != "";
    UserView(row.user.id, row.user.displayName, row.user.userPrincipalName,
             if truthy then Numbers(Split(row.vpnServers.value, ',')) else [],
             truthy)
  }

  /** The whole handler: no session means 401 before the store is touched; a store
      that cannot be read means 500; otherwise the formatted rows. */
  function Get(hasSession: bool, read: StoreRead): (r: UsersResponse)
    ensures !hasSession ==> r == Unauthorized
    ensures hasSession && read.Unreachable? ==> r == QueryFailed
    ensures hasSession && read.Readable? ==> r.UsersOk? && |r.users| == |Query(read.store)|
  {
    if !hasSession then Unauthorized
    else match read
      case Unreachable => QueryFailed
      case Readable(store) =>
        var rows := Query(store);
        UsersOk(seq(|rows|, i requires 0 <= i < |rows| => Format(rows[i])))
  }

  /** Without a session the answer is the same whatever the store holds: the
      query is never issued. */
  lemma UnauthorizedIgnoresStore(a: StoreRead, b: StoreRead)
    ensures Get(false, a) == Get(false, b) == Unauthorized
  {
  }

  /** Every roster user is listed, grants or not, and every listed user is on the
      roster; no user is listed twice. */
  lemma EveryUserListed(store: Store)
    ensures var r := Get(true, Readable(store));
            && (forall u :: u in store.roster ==>
                  exists i :: 0 <= i < |r.users| && r.users[i].id == u.id && r.users[i].displayName == u.displayName
                                                 && r.users[i].userPrincipalName == u.userPrincipalName)
            && (forall i :: 0 <= i < |r.users| ==>
                  DirectoryUser(r.users[i].id, r.users[i].displayName, r.users[i].userPrincipalName) in store.roster)
            && (forall i, j :: 0 <= i < j < |r.users| ==>
                  DirectoryUser(r.users[i].id, r.users[i].displayName, r.users[i].userPrincipalName)
                    != DirectoryUser(r.users[j].id, r.users[j].displayName, r.users[j].userPrincipalName))
  {
    var users := SortByName(Distinct(store.roster));
    var r := Get(true, Readable(store));
    forall u | u in store.roster
      ensures exists i :: 0 <= i < |r.users| && r.users[i].id == u.id && r.users[i].displayName == u.displayName
                                            && r.users[i].userPrincipalName == u.userPrincipalName
    {
      assert u in Distinct(store.roster);
      assert u in multiset(users);
      var i :| 0 <= i < |users| && users[i] == u;
      assert r.users[i] == Format(Query(store)[i]);
    }
    forall i | 0 <= i < |r.users|
      ensures DirectoryUser(r.users[i].id, r.users[i].displayName, r.users[i].userPrincipalName) in store.roster
    {
      assert r.users[i] == Format(Query(store)[i]);
      assert users[i] in multiset(Distinct(store.roster));
    }
    forall i, j | 0 <= i < j < |r.users|
      ensures DirectoryUser(r.users[i].id, r.users[i].displayName, r.users[i].userPrincipalName)
                != DirectoryUser(r.users[j].id, r.users[j].displayName, r.users[j].userPrincipalName)
    {
      assert r.users[i] == Format(Query(store)[i]);
      assert r.users[j] == Format(Query(store)[j]);
    }
  }

  /** The listing is ordered by display name. */
  lemma ListedByName(store: Store)
    ensures var r := Get(true, Readable(store));
            forall i, j :: 0 <= i < j < |r.users| ==> NameLeq(r.users[i].displayName, r.users[j].displayName)
  {
    var r := Get(true, Readable(store));
    forall i, j | 0 <= i < j < |r.users|
      ensures NameLeq(r.users[i].displayName, r.users[j].displayName)
    {
      assert r.users[i] == Format(Query(store)[i]);
      assert r.users[j] == Format(Query(store)[j]);
    }
  }

  /** A row's formatted servers are its granted ids read back as numbers. */
  lemma FormattedRowServers(grants: seq<Grant>, u: DirectoryUser)
    ensures var ids := GrantedIds(grants, u.userPrincipalName);
            var v := Format(QueryRow(u, GroupConcat(ids)));
            v.vpnServers == Nums(ids) && (v.hasVpnAccess <==> |ids| > 0)
  {
    var ids := GrantedIds(grants, u.userPrincipalName);
    if |ids| > 0 {
      EncodedIdsRoundTrip(ids);
      JoinedDecimalsNonEmpty(ids);
    }
  }

  /** Reading the ids back as numbers keeps exactly the granted ids, once each. */
  lemma NumsOfGrantedIds(grants: seq<Grant>, upn: string)
    ensures var ns := Nums(GrantedIds(grants, upn));
            && (forall n: JsNum :: n in ns <==> n.Num? && Grant(upn, n.value) in grants)
            && NoDuplicates(ns)
            && (|ns| > 0 <==> exists id :: Grant(upn, id) in grants)
  {
    var ids := GrantedIds(grants, upn);
    var ns := Nums(ids);
    forall n: JsNum | n in ns
      ensures n.Num? && Grant(upn, n.value) in grants
    {
      var k :| 0 <= k < |ns| && ns[k] == n;
      assert ids[k] in ids;
    }
    forall n: JsNum | n.Num? && Grant(upn, n.value) in grants
      ensures n in ns
    {
      var k :| 0 <= k < |ids| && ids[k] == n.value;
      assert ns[k] == n;
    }
    if |ns| > 0 {
      assert ids[0] in ids;
    }
  }

  /** A listed user's servers are exactly the distinct ids granted to their
      principal name, each once, and they have access exactly when there is one. */
  lemma ServersAreGrants(store: Store)
    ensures var users := Get(true, Readable(store)).users;
            forall i :: 0 <= i < |users| ==>
              && users[i].vpnServers == Nums(GrantedIds(store.grants, users[i].userPrincipalName))
              && (forall n: JsNum :: n in users[i].vpnServers <==>
                    n.Num? && Grant(users[i].userPrincipalName, n.value) in store.grants)
              && NoDuplicates(users[i].vpnServers)
              && (users[i].hasVpnAccess <==> exists id :: Grant(users[i].userPrincipalName, id) in store.grants)
  {
    var users := Get(true, Readable(store)).users;
    forall i | 0 <= i < |users|
      ensures users[i].vpnServers == Nums(GrantedIds(store.grants, users[i].userPrincipalName))
      ensures forall n: JsNum :: n in users[i].vpnServers <==>
                n.Num? && Grant(users[i].userPrincipalName, n.value) in store.grants
      ensures NoDuplicates(users[i].vpnServers)
      ensures users[i].hasVpnAccess <==> exists id :: Grant(users[i].userPrincipalName, id) in store.grants
    {
      var u := SortByName(Distinct(store.roster))[i];
      assert users[i] == Format(QueryRow(u, GroupConcat(GrantedIds(store.grants, u.userPrincipalName))));
      FormattedRowServers(store.grants, u);
      NumsOfGrantedIds(store.grants, u.userPrincipalName);
    }
  }

}
