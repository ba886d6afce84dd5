/** The on-demand reconciliation endpoint (`POST /api/sync-users`): diff the
    directory's user list against the cached roster by principal name, delete the
    grants of users that disappeared, replace the roster wholesale, and log one
    sync event with the counts. */
module SyncRoute {
  import opened Seqs
  import opened Decimal
  import opened Directory

  const CompletedMessage: string := "Sincronización completada"
  const FailureMessage: string := "Error durante la sincronización de usuarios"

  /** The JSON the endpoint answers with: the counts on success, status 500 with
      the error's message otherwise. */
  datatype SyncResponse =
    | Completed(message: string, usersAdded: nat, usersUpdated: nat, usersDeleted: nat, totalUsers: nat)
    | Failed(status: nat, error: string, details: string)

  datatype Outcome = Outcome(store: Store, response: SyncResponse)

  /** The three lists the endpoint computes before writing anything. `removed`
      holds principal names, because the roster is read back as names only. */
  datatype Diff = Diff(added: seq<DirectoryUser>, removed: seq<string>, updated: seq<DirectoryUser>)

  function AddedUsers(azure: seq<DirectoryUser>, current: set<string>): seq<DirectoryUser>
  {
    Filter(azure, (u: DirectoryUser) => u.userPrincipalName !in current)
  }

  function UpdatedUsers(azure: seq<DirectoryUser>, current: set<string>): seq<DirectoryUser>
  {
    Filter(azure, (u: DirectoryUser) => u.userPrincipalName in current)
  }

  function RemovedUsers(current: seq<string>, azure: set<string>): seq<string>
  {
    Filter(current, (n: string) => n !in azure)
  }

  /** The diff of the fetched list `azure` against the cached names `current`:
      `added` and `updated` split the fetched list by whether the name is cached,
      `removed` is the cached names that were not fetched; all three keep the
      order of the list they come from. */
  function ComputeDiff(azure: seq<DirectoryUser>, current: seq<string>): (d: Diff)
    ensures forall u :: u in d.added <==> u in azure && u.userPrincipalName !in current
    ensures forall u :: u in d.updated <==> u in azure && u.userPrincipalName in current
    ensures forall n :: n in d.removed <==> n in current && n !in Upns(azure)
    ensures forall n :: multiset(d.removed)[n] == if n in Upns(azure) then 0 else multiset(current)[n]
    ensures multiset(d.added) + multiset(d.updated) == multiset(azure)
    ensures |d.added| + |d.updated| == |azure|
    ensures Subsequence(d.added, azure) && Subsequence(d.updated, azure) && Subsequence(d.removed, current)
  {
    var azureSet := NameSet(Upns(azure));
    var currentSet := NameSet(current);
    var d := Diff(AddedUsers(azure, currentSet), RemovedUsers(current, azureSet), UpdatedUsers(azure, currentSet));
    FilterMembership(azure, (u: DirectoryUser) => u.userPrincipalName !in currentSet);
    FilterMembership(azure, (u: DirectoryUser) => u.userPrincipalName in currentSet);
    FilterMembership(current, (n: string) => n !in azureSet);
    FilterCount(current, (n: string) => n !in azureSet);
    FilterSplit(azure, (u: DirectoryUser) => u.userPrincipalName !in currentSet,
                (u: DirectoryUser) => u.userPrincipalName in currentSet);
    FilterIsSubsequence(azure, (u: DirectoryUser) => u.userPrincipalName !in currentSet);
    FilterIsSubsequence(azure, (u: DirectoryUser) => u.userPrincipalName in currentSet);
    FilterIsSubsequence(current, (n: string) => n !in azureSet);
    d
  }

  /** The `sync_events` row written for a diff of a list of `total` users. */
  function EventOf(d: Diff, total: nat): SyncEvent
  {
    SyncEvent(|d.added|, |d.updated|, |d.removed|, total)
  }

  /** The transaction as one state transition: the grants of every removed name
      are gone, the roster is exactly the fetched list, one event is appended. */
  function ApplySync(store: Store, azure: seq<DirectoryUser>, d: Diff): (s: Store)
    ensures s.roster == azure
    ensures forall g :: g in s.grants <==> g in store.grants && g.userPrincipalName !in d.removed
    ensures s.events == store.events + [SyncEvent(|d.added|, |d.updated|, |d.removed|, |azure|)]
  {
    Store(azure, GrantsOutside(store.grants, NameSet(d.removed)), store.events + [EventOf(d, |azure|)])
  }

  /** The transaction statement by statement: one grant deletion per removed
      name, a truncate, one insert per fetched user, one event insert. */
  method Transaction(store: Store, azure: seq<DirectoryUser>, d: Diff) returns (s: Store)
    ensures s == ApplySync(store, azure, d)
  {
    var grants := store.grants;
    GrantsOutsideNothing(grants);
    assert NameSet(d.removed[..0]) == {};
    var i := 0;
    while i < |d.removed|
      invariant 0 <= i <= |d.removed|
      invariant grants == GrantsOutside(store.grants, NameSet(d.removed[..i]))
    {
      var name := d.removed[i];
      GrantsOutsideStep(store.grants, NameSet(d.removed[..i]), name);
      assert NameSet(d.removed[..i + 1]) == NameSet(d.removed[..i]) + {name} by {
        assert d.removed[..i + 1] == d.removed[..i] + [name];
      }
      grants := Filter(grants, (g: Grant) => g.userPrincipalName != name);
      i := i + 1;
    }
    assert d.removed[..i] == d.removed;
    var roster: seq<DirectoryUser> := [];
    var j := 0;
    while j < |azure|
      invariant 0 <= j <= |azure|
      invariant roster == azure[..j]
    {
      roster := roster + [azure[j]];
      j := j + 1;
    }
    assert azure[..j] == azure;
    s := Store(roster, grants, store.events + [EventOf(d, |azure|)]);
  }

  /** The whole endpoint. A failed fetch happens before any write, so the store is
      returned as it was together with the 500 answer; otherwise the diff is taken
      against the cached roster's names and the transaction is applied. */
  function Post(store: Store, fetch: Fetch): (r: Outcome)
    ensures fetch.FetchFailed? ==> r == Outcome(store, Failed(500, FailureMessage, fetch.message))
    ensures fetch.Fetched? ==>
      && r.store.roster == fetch.users
      && r.response.Completed?
      && r.response.totalUsers == |fetch.users|
      && r.response.usersAdded + r.response.usersUpdated == |fetch.users|
      && r.store.events == store.events + [SyncEvent(r.response.usersAdded, r.response.usersUpdated,
                                                    r.response.usersDeleted, r.response.totalUsers)]
    ensures fetch.Fetched? ==> forall g :: g in r.store.grants <==>
      g in store.grants && (g.userPrincipalName in Upns(fetch.users) || g.userPrincipalName !in Upns(store.roster))
  {
    match fetch
    case FetchFailed(message) => Outcome(store, Failed(500, FailureMessage, message))
    case Fetched(azure) =>
      var d := ComputeDiff(azure, Upns(store.roster));
      Outcome(ApplySync(store, azure, d),
              Completed(CompletedMessage, |d.added|, |d.updated|, |d.removed|, |azure|))
  }

  /** After a successful run no grant names a removed user, and every grant whose
      name was not removed — a retained user's, or an orphan whose name was never
      on the roster — survives with its multiplicity and in its order. */
  lemma CascadeExact(store: Store, azure: seq<DirectoryUser>)
    ensures var d := ComputeDiff(azure, Upns(store.roster));
            var after := Post(store, Fetched(azure)).store.grants;
            && (forall g :: g in after ==> g.userPrincipalName !in d.removed)
            && (forall g: Grant :: g.userPrincipalName !in d.removed ==> multiset(after)[g] == multiset(store.grants)[g])
            && Subsequence(after, store.grants)
  {
    var d := ComputeDiff(azure, Upns(store.roster));
    var names := NameSet(d.removed);
    forall g: Grant | g.userPrincipalName !in d.removed
      ensures multiset(GrantsOutside(store.grants, names))[g] == multiset(store.grants)[g]
    {
      GrantsOutsideKeepsCount(store.grants, names, g);
    }
    FilterIsSubsequence(store.grants, (g: Grant) => g.userPrincipalName !in names);
  }

  /** A second run with the same directory list finds nothing to add or delete,
      counts every user as updated, and leaves roster and grants as the first run
      left them. No distinctness of principal names is needed. */
  lemma {:induction false} Idempotent(store: Store, azure: seq<DirectoryUser>)
    ensures var first := Post(store, Fetched(azure));
            var second := Post(first.store, Fetched(azure));
            && second.response == Completed(CompletedMessage, 0, |azure|, 0, |azure|)
            && second.store.roster == first.store.roster
            && second.store.grants == first.store.grants
  {
    var s1 := Post(store, Fetched(azure)).store;
    var d := ComputeDiff(azure, Upns(s1.roster));
    assert |d.added| == 0;
    assert |d.removed| == 0;
    assert NameSet(d.removed) == {};
    GrantsOutsideNothing(s1.grants);
  }

  /** An empty directory list is not an error: everyone cached is deleted, their
      grants go with them, and the roster ends empty. */
  lemma EmptyDirectory(store: Store)
    ensures var r := Post(store, Fetched([]));
            && r.response == Completed(CompletedMessage, 0, 0, |store.roster|, 0)
            && r.store.roster == []
            && forall g :: g in r.store.grants ==> g.userPrincipalName !in Upns(store.roster)
  {
    var d := ComputeDiff([], Upns(store.roster));
    FilterAll(Upns(store.roster), (n: string) => n !in NameSet(Upns([])));
  }

  /** The answer and the logged event carry the same four numbers. */
  lemma ResponseMatchesEvent(store: Store, azure: seq<DirectoryUser>)
    ensures var r := Post(store, Fetched(azure));
            var d := ComputeDiff(azure, Upns(store.roster));
            && |r.store.events| == |store.events| + 1
            && r.store.events[|store.events|] == EventOf(d, |azure|)
            && r.response.usersAdded == |d.added| && r.response.usersUpdated == |d.updated|
            && r.response.usersDeleted == |d.removed| && r.response.totalUsers == |azure|
  {
  }

  /** The JSON body of an answer, field by field. */
  datatype Json = JString(s: string) | JNumber(n: nat)

  function ResponseBody(r: SyncResponse): (body: map<string, Json>)
    ensures r.Completed? ==> body.Keys == {"message", "usersAdded", "usersUpdated", "usersDeleted", "totalUsers"}
    ensures r.Completed? ==> body["totalUsers"] == JNumber(r.totalUsers) && body["usersDeleted"] == JNumber(r.usersDeleted)
    ensures r.Failed? ==> body.Keys == {"error", "details"} && body["details"] == JString(r.details)
  {
    match r
    case Completed(message, added, updated, deleted, total) =>
      map["message" := JString(message), "usersAdded" := JNumber(added), "usersUpdated" := JNumber(updated),
          "usersDeleted" := JNumber(deleted), "totalUsers" := JNumber(total)]
    case Failed(_, error, details) =>
      map["error" := JString(error), "details" := JString(details)]
  }

  /** HTTP status of an answer. */
  function Status(r: SyncResponse): nat
  {
    match r
    case Completed(_, _, _, _, _) => 200
    case Failed(status, _, _) => status
  }

  /** What the client sees of a run: 200 with the five fields on success, and on
      a failed fetch 500 with the fixed error text and the error's message. */
  lemma PostAnswer(store: Store, fetch: Fetch)
    ensures var r := Post(store, fetch).response;
            && (Status(r) == 200 <==> fetch.Fetched?)
            && (fetch.Fetched? ==>
                  && ResponseBody(r).Keys == {"message", "usersAdded", "usersUpdated", "usersDeleted", "totalUsers"}
                  && ResponseBody(r)["totalUsers"] == JNumber(|fetch.users|))
            && (fetch.FetchFailed? ==>
                  && Status(r) == 500
                  && ResponseBody(r) == map["error" := JString(FailureMessage), "details" := JString(fetch.message)])
  {
  }

  /** No answer of the endpoint has a `usersCount` field. */
  lemma NoUsersCount(r: SyncResponse)
    ensures "usersCount" !in ResponseBody(r)
  {
  }
}
