/** The background synchronisation: a plain replace of the cached roster, run
    once when the scheduler starts and then on a five-minute interval, and the
    module-level interval handle that `start` and `stop` manage. */
module ScheduledSync {
  import opened Options
  import opened Directory
  import SyncRoute

  /** `5 * 60 * 1000` milliseconds. */
  const IntervalMs: nat := 300000

  /** The scheduled sync. Grants and sync events are not touched; a fetch that
      fails is caught and logged, so the store stays as it was and nothing is
      reported to anyone. */
  function SyncUsers(store: Store, fetch: Fetch): (s: Store)
    ensures s.grants == store.grants && s.events == store.events
    ensures fetch.Fetched? ==> s.roster == fetch.users
    ensures fetch.FetchFailed? ==> s == store
  {
    match fetch
    case Fetched(azure) => store.(roster := azure)
    case FetchFailed(_) => store
  }

  /** What the timer functions are asked to do, in order. Interval handles are
      modelled as naturals handed out fresh by `setInterval`. */
  datatype TimerCall =
    | ClearInterval(handle: nat)
    | RunSyncNow
    | SetInterval(handle: nat, periodMs: nat)

  /** `syncInterval` (the handle or `null`), the next handle the runtime will hand
      out, and every timer call made so far. */
  datatype Scheduler = Scheduler(syncInterval: Option<nat>, nextHandle: nat, calls: seq<TimerCall>)

  /** The intervals armed when `more` runs after `armed` were armed: each
      `setInterval` arms its handle, each `clearInterval` disarms its handle. */
  function ArmedAfter(armed: set<nat>, more: seq<TimerCall>): set<nat>
  {
    if |more| == 0 then armed
    else
      var before := ArmedAfter(armed, more[..|more| - 1]);
      match more[|more| - 1]
      case ClearInterval(h) => before - {h}
      case RunSyncNow => before
      case SetInterval(h, _) => before + {h}
  }

  /** The intervals armed by `calls` and not cleared since. */
  function Armed(calls: seq<TimerCall>): set<nat>
  {
    ArmedAfter({}, calls)
  }

  /** Running calls one batch after another arms what the batches arm in turn. */
  lemma {:induction false} ArmedAppend(armed: set<nat>, calls: seq<TimerCall>, more: seq<TimerCall>)
    ensures ArmedAfter(armed, calls + more) == ArmedAfter(ArmedAfter(armed, calls), more)
    decreases |more|
  {
    if |more| == 0 {
      assert calls + more == calls;
    } else {
      ArmedAppend(armed, calls, more[..|more| - 1]);
      assert (calls + more)[..|calls + more| - 1] == calls + more[..|more| - 1];
    }
  }

  /** The handle variable tells the truth: the armed intervals are exactly the
      one it holds, or none when it is `null`, and every handle handed out so far
      is below `nextHandle`. */
  ghost predicate Valid(s: Scheduler)
  {
    && Armed(s.calls) == (if s.syncInterval.Some? then {s.syncInterval.value} else {})
    && (s.syncInterval.Some? ==> s.syncInterval.value < s.nextHandle)
  }

  const Initial: Scheduler := Scheduler(None, 0, [])

  /** `startScheduledSync`: clear the old interval if there is one, dispatch one
      sync at once, then arm a fresh interval of `IntervalMs`. */
  function Start(s: Scheduler): (t: Scheduler)
    ensures t.syncInterval == Some(s.nextHandle) && t.nextHandle == s.nextHandle + 1
    ensures |t.calls| >= |s.calls| + 2 && t.calls[..|s.calls|] == s.calls
    ensures t.calls[|t.calls| - 2] == RunSyncNow
    ensures t.calls[|t.calls| - 1] == SetInterval(s.nextHandle, IntervalMs)
  {
    var clear := if s.syncInterval.Some? then [ClearInterval(s.syncInterval.value)] else [];
    Scheduler(Some(s.nextHandle), s.nextHandle + 1,
              s.calls + clear + [RunSyncNow, SetInterval(s.nextHandle, IntervalMs)])
  }

  /** `stopScheduledSync`: clear and forget the interval if there is one. */
  function Stop(s: Scheduler): (t: Scheduler)
    ensures t.syncInterval == None
    ensures s.syncInterval == None ==> t == s
    ensures s.syncInterval.Some? ==> t.calls == s.calls + [ClearInterval(s.syncInterval.value)]
  {
    if s.syncInterval.Some? then
      Scheduler(None, s.nextHandle, s.calls + [ClearInterval(s.syncInterval.value)])
    else s
  }

  /** Number of syncs dispatched by `calls`. */
  function SyncsDispatched(calls: seq<TimerCall>): nat
  {
    if |calls| == 0 then 0
    else SyncsDispatched(calls[..|calls| - 1]) + (if calls[|calls| - 1] == RunSyncNow then 1 else 0)
  }

  lemma {:induction false} SyncsDispatchedAppend(calls: seq<TimerCall>, more: seq<TimerCall>)
    ensures SyncsDispatched(calls + more) == SyncsDispatched(calls) + SyncsDispatched(more)
    decreases |more|
  {
    if |more| == 0 {
      assert calls + more == calls;
    } else {
      SyncsDispatchedAppend(calls, more[..|more| - 1]);
      assert (calls + more)[..|calls + more| - 1] == calls + more[..|more| - 1];
    }
  }

  lemma InitialValid()
    ensures Valid(Initial)
  {
  }

  /** Whatever the state before, after `Start` exactly one interval is armed —
      the one the handle holds — and exactly one sync was dispatched. */
  lemma StartArmsOne(s: Scheduler)
    requires Valid(s)
    ensures Valid(Start(s))
    ensures Armed(Start(s).calls) == {s.nextHandle}
    ensures SyncsDispatched(Start(s).calls) == SyncsDispatched(s.calls) + 1
  {
    var clear := if s.syncInterval.Some? then [ClearInterval(s.syncInterval.value)] else [];
    var more := clear + [RunSyncNow, SetInterval(s.nextHandle, IntervalMs)];
    assert Start(s).calls == s.calls + more;
    ArmedAppend({}, s.calls, more);
    SyncsDispatchedAppend(s.calls, more);
    assert more[..|more| - 1] == clear + [RunSyncNow];
    assert (clear + [RunSyncNow])[..|clear|] == clear;
    if s.syncInterval.Some? {
      assert clear[..0] == [];
      assert ArmedAfter(Armed(s.calls), clear) == {};
      assert SyncsDispatched(clear) == 0;
    } else {
      assert ArmedAfter(Armed(s.calls), clear) == {};
    }
    assert ArmedAfter(Armed(s.calls), clear + [RunSyncNow]) == {};
    assert SyncsDispatched(clear + [RunSyncNow]) == 1;
  }

  /** After `Stop` nothing is armed and the handle is `null`. */
  lemma StopDisarms(s: Scheduler)
    requires Valid(s)
    ensures Valid(Stop(s))
    ensures Armed(Stop(s).calls) == {}
  {
    if s.syncInterval.Some? {
      ArmedAppend({}, s.calls, [ClearInterval(s.syncInterval.value)]);
      assert [ClearInterval(s.syncInterval.value)][..0] == [];
    }
  }

  /** Stopping twice is stopping once. */
  lemma StopIdempotent(s: Scheduler)
    ensures Stop(Stop(s)) == Stop(s)
  {
  }

  /** The contrast with the on-demand endpoint: on the same store and the same
      directory list both leave the same roster, but the scheduled sync keeps
      every grant and logs nothing, while the endpoint drops the grants of
      removed users and appends an event. */
  lemma ScheduledVersusOnDemand(store: Store, azure: seq<DirectoryUser>)
    ensures var scheduled := SyncUsers(store, Fetched(azure));
            var onDemand := SyncRoute.Post(store, Fetched(azure)).store;
            && scheduled.roster == onDemand.roster
            && scheduled.grants == store.grants
            && |onDemand.events| == |scheduled.events| + 1
            && (forall g :: g in onDemand.grants ==> g in scheduled.grants)
  {
  }

  /** A scheduled sync that drops a user leaves that user's grants behind, and a
      later on-demand run with the same list diffs against the already replaced
      roster, so it deletes nothing: such grants outlive both runs. */
  lemma ScheduledSyncHidesRemoval(store: Store, azure: seq<DirectoryUser>)
    ensures var afterScheduled := SyncUsers(store, Fetched(azure));
            var r := SyncRoute.Post(afterScheduled, Fetched(azure));
            && r.response.usersDeleted == 0
            && r.store.grants == store.grants
  {
    SyncRoute.Idempotent(store, azure);
    var s1 := SyncUsers(store, Fetched(azure));
    var d := SyncRoute.ComputeDiff(azure, Upns(s1.roster));
    assert |d.removed| == 0;
    assert NameSet(d.removed) == {};
    GrantsOutsideNothing(store.grants);
  }
}
