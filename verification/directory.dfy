/** The persistent store the reconciliation works on, as immutable values: the
    mirrored directory roster (`users_azure`), the access grants
    (`user_radius_access`) and the append-only sync log (`sync_events`), plus the
    outcome of asking the directory service for its user list. */
module Directory {
  import opened Seqs

  /** One directory user, cached verbatim (`AzureUser`). */
  datatype DirectoryUser = DirectoryUser(id: string, displayName: string, userPrincipalName: string)

  /** One row of `user_radius_access`: this user may use this RADIUS server.
      The user is referenced by principal name, not by row id. */
  datatype Grant = Grant(userPrincipalName: string, serverId: nat)

  /** One row of `sync_events`. */
  datatype SyncEvent = SyncEvent(usersAdded: nat, usersUpdated: nat, usersDeleted: nat, totalUsers: nat)

  /** The three tables; each is a sequence of rows in table order. */
  datatype Store = Store(roster: seq<DirectoryUser>, grants: seq<Grant>, events: seq<SyncEvent>)

  /** What `fetchAzureUsers` produced: the directory's list, or the message of the error it threw. */
  datatype Fetch = Fetched(users: seq<DirectoryUser>) | FetchFailed(message: string)

  /** The principal names of `users`, one per row and in row order. */
  function Upns(users: seq<DirectoryUser>): (r: seq<string>)
    ensures |r| == |users|
    ensures forall i :: 0 <= i < |r| ==> r[i] == users[i].userPrincipalName
  {
    seq(|users|, i requires 0 <= i < |users| => users[i].userPrincipalName)
  }

  /** `new Set(names)`. */
  function NameSet(names: seq<string>): (r: set<string>)
    ensures forall n :: n in r <==> n in names
  {
    set n | n in names
  }

  /** The grant rows whose principal name is not in `names`, in table order:
      what is left after `DELETE ... WHERE user_principal_name = ?` for each of `names`. */
  function GrantsOutside(grants: seq<Grant>, names: set<string>): (r: seq<Grant>)
    ensures forall g :: g in r <==> g in grants && g.userPrincipalName !in names
  {
    FilterMembership(grants, (g: Grant) => g.userPrincipalName !in names);
    Filter(grants, (g: Grant) => g.userPrincipalName !in names)
  }

  /** Removing the grants of a set of names and then of one more name is removing
      the grants of the enlarged set. */
  lemma GrantsOutsideStep(grants: seq<Grant>, names: set<string>, name: string)
    ensures Filter(GrantsOutside(grants, names), (g: Grant) => g.userPrincipalName != name)
         == GrantsOutside(grants, names + {name})
  {
    FilterFilter(grants, (g: Grant) => g.userPrincipalName !in names, (g: Grant) => g.userPrincipalName != name,
                 (g: Grant) => g.userPrincipalName !in names + {name});
  }

  /** Removing the grants of no name changes nothing. */
  lemma {:induction false} GrantsOutsideNothing(grants: seq<Grant>)
    ensures GrantsOutside(grants, {}) == grants
    decreases |grants|
  {
    if |grants| > 0 {
      GrantsOutsideNothing(grants[1..]);
      assert grants == [grants[0]] + grants[1..];
    }
  }

  /** A grant untouched by the deletion keeps its multiplicity: duplicate rows
      survive as duplicates. */
  lemma {:induction false} GrantsOutsideKeepsCount(grants: seq<Grant>, names: set<string>, g: Grant)
    requires g.userPrincipalName !in names
    ensures multiset(GrantsOutside(grants, names))[g] == multiset(grants)[g]
    decreases |grants|
  {
    if |grants| > 0 {
      GrantsOutsideKeepsCount(grants[1..], names, g);
      assert grants == [grants[0]] + grants[1..];
    }
  }
}
