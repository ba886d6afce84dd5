/** The per-user access dialog: the list of allowed server ids loaded for the
    user, the switch shown for each RADIUS server, and the full list sent when a
    switch is flipped. */
module AccessDialog {
  import opened Options
  import opened Seqs
  import opened Decimal

  /** The answer of `/api/radius/allowed-users/{userPrincipalName}`; its
      `radiusServers` field may be missing. */
  datatype AccessRecord = AccessRecord(radiusServers: Option<seq<nat>>)

  /** `allowedServers` before anything is loaded. */
  const InitialAllowed: seq<nat> := []

  /** The effect run when the access record changes: nothing until it has loaded,
      then its `radiusServers`, or `[]` when that field is missing. */
  function OnAccessLoaded(allowed: seq<nat>, userAccess: Option<AccessRecord>): (r: seq<nat>)
    ensures userAccess.None? ==> r == allowed
    ensures userAccess.Some? ==>
              forall id :: id in r <==> userAccess.value.radiusServers.Some? && id in userAccess.value.radiusServers.value
  {
    match userAccess
    case None => allowed
    case Some(record) =>
      match record.radiusServers
      case Some(ids) => ids
      case None => []
  }

  /** The switch of the server whose id text is `serverId` is on exactly when
      `Number(serverId)` is in the allowed list (a `NaN` id is never in it). */
  function IsEnabled(allowed: seq<nat>, serverId: string): (on: bool)
    ensures on ==> AllDigits(serverId)
    ensures forall n: nat :: serverId == ToDecimal(n) ==> (on <==> n in allowed)
  {
    match Number(serverId)
    case Num(n) =>
      DecimalsRead(serverId);
      n in allowed
    case NaN => false
  }

  /** Every decimal text of a natural reads back as that natural. */
  lemma DecimalsRead(serverId: string)
    ensures forall n: nat :: serverId == ToDecimal(n) ==> Number(serverId) == Num(n)
  {
    forall n: nat | serverId == ToDecimal(n)
      ensures Number(serverId) == Num(n)
    {
      NumberOfDecimal(n);
    }
  }

  /** The list `handleAccessToggle` builds: switching on appends the id at the
      end; switching off drops every occurrence of it and keeps the rest in order. */
  function Toggle(allowed: seq<nat>, serverId: nat, checked: bool): (r: seq<nat>)
    ensures checked ==> |r| == |allowed| + 1 && r[..|allowed|] == allowed && r[|allowed|] == serverId
    ensures !checked ==> serverId !in r && Subsequence(r, allowed)
    ensures forall id :: id != serverId ==> (id in r <==> id in allowed)
    ensures !checked ==> forall id :: id != serverId ==> multiset(r)[id] == multiset(allowed)[id]
  {
    if checked then allowed + [serverId]
    else
      var keep := (id: nat) => id != serverId;
      FilterMembership(allowed, keep);
      FilterIsSubsequence(allowed, keep);
      FilterKeepsOthers(allowed, serverId);
      Filter(allowed, keep)
  }

  lemma {:induction false} FilterKeepsOthers(allowed: seq<nat>, serverId: nat)
    ensures forall id :: id != serverId ==>
      multiset(Filter(allowed, (x: nat) => x != serverId))[id] == multiset(allowed)[id]
    decreases |allowed|
  {
    if |allowed| > 0 {
      FilterKeepsOthers(allowed[1..], serverId);
      assert allowed == [allowed[0]] + allowed[1..];
    }
  }

  /** The body POSTed to `/api/radius/allowed-users`. */
  datatype AccessRequest = AccessRequest(userPrincipalName: string, radiusServers: seq<nat>)

  /** Flipping a switch sends the user's complete new list, not the change. */
  function ToggleRequest(userPrincipalName: string, allowed: seq<nat>, serverId: nat, checked: bool): (req: AccessRequest)
    ensures req.userPrincipalName == userPrincipalName
    ensures forall id :: id != serverId ==> (id in req.radiusServers <==> id in allowed)
    ensures serverId in req.radiusServers <==> checked
  {
    AccessRequest(userPrincipalName, Toggle(allowed, serverId, checked))
  }

  /** Once a record with a server list has loaded, a switch is on exactly when its
      server's id is in that list; a record without the field turns every switch off. */
  lemma LoadedSwitches(before: seq<nat>, ids: seq<nat>, n: nat)
    ensures IsEnabled(OnAccessLoaded(before, Some(AccessRecord(Some(ids)))), ToDecimal(n)) <==> n in ids
    ensures !IsEnabled(OnAccessLoaded(before, Some(AccessRecord(None))), ToDecimal(n))
  {
    NumberOfDecimal(n);
  }

  /** Flipping a server's switch puts exactly that server's id in the new
      position in the list sent, leaving every other server as it was. The dialog
      itself does not update `allowedServers`: the switches shown change only when
      the re-fetched record arrives, and when it carries the list sent, exactly
      the flipped switch has moved. */
  lemma ToggleFlipsOneSwitch(allowed: seq<nat>, serverId: nat, checked: bool, other: nat)
    requires other != serverId
    ensures IsEnabled(Toggle(allowed, serverId, checked), ToDecimal(serverId)) == checked
    ensures IsEnabled(Toggle(allowed, serverId, checked), ToDecimal(other)) == IsEnabled(allowed, ToDecimal(other))
    ensures var shown := OnAccessLoaded(allowed, Some(AccessRecord(Some(Toggle(allowed, serverId, checked)))));
            && IsEnabled(shown, ToDecimal(serverId)) == checked
            && IsEnabled(shown, ToDecimal(other)) == IsEnabled(allowed, ToDecimal(other))
  {
    var r := Toggle(allowed, serverId, checked);
    if checked {
      assert r == allowed + [serverId];
    } else {
      var mr: multiset<nat> := multiset(r);
      var ma: multiset<nat> := multiset(allowed);
      assert mr[other] == ma[other];
      assert other in r <==> other in mr;
      assert other in allowed <==> other in ma;
    }
  }

  /** Switching on and then off is just switching off; when the id was not in
      the list, it gives the list back. */
  lemma CheckThenUncheck(allowed: seq<nat>, serverId: nat)
    ensures Toggle(Toggle(allowed, serverId, true), serverId, false) == Toggle(allowed, serverId, false)
    ensures serverId !in allowed ==> Toggle(Toggle(allowed, serverId, true), serverId, false) == allowed
  {
    var keep := (id: nat) => id != serverId;
    FilterAppend(allowed, [serverId], keep);
    assert Filter([serverId], keep) == [];
    if serverId !in allowed {
      FilterAll(allowed, keep);
    }
  }
}
