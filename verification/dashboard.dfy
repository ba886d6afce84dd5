/** The dashboard's list logic: the search filter over the loaded users, ten users
    per page, the page count, the previous/next buttons, the reset of the page on
    a new search, the VPN-access card, and the toast shown after a manual sync. */
module Dashboard {
  import opened Options
  import opened Seqs
  import opened Decimal
  import opened Directory
  import opened UsersRoute
  import SyncRoute

  const ItemsPerPage: nat := 10

  /** `toLowerCase` on ASCII letters; every other character is kept. */
  function LowerChar(c: char): (l: char)
    ensures 'A' <= c <= 'Z' ==> l as int == c as int + 32
    ensures !('A' <= c <= 'Z') ==> l == c
  {
    if 'A' <= c <= 'Z' then (c as int + 32) as char else c
  }

  function Lower(s: string): (r: string)
    ensures |r| == |s|
    ensures forall i :: 0 <= i < |s| ==> r[i] == LowerChar(s[i])
  {
    seq(|s|, i requires 0 <= i < |s| => LowerChar(s[i]))
  }

  /** `hay.includes(needle)`: `needle` occurs at some position of `hay`. */
  predicate Includes(hay: string, needle: string)
  {
    exists k :: 0 <= k <= |hay| - |needle| && OccursAt(hay, needle, k)
  }

  predicate OccursAt(hay: string, needle: string, k: int)
    requires 0 <= k <= |hay| - |needle|
  {
    hay[k..k + |needle|] == needle
  }

  /** The search test: the lowercased term occurs in the lowercased display name
      or principal name. */
  predicate Matches(u: UserView, term: string)
  {
    Includes(Lower(u.displayName), Lower(term)) || Includes(Lower(u.userPrincipalName), Lower(term))
  }

  /** `filteredUsers`: the users the search keeps, in the order they were loaded. */
  function FilteredUsers(users: seq<UserView>, term: string): (r: seq<UserView>)
    ensures forall i :: 0 <= i < |r| ==> Matches(r[i], term)
    ensures forall u :: u in users && Matches(u, term) ==> u in r
    ensures forall u :: u in r ==> u in users
    ensures Subsequence(r, users)
  {
    FilterMembership(users, (u: UserView) => Matches(u, term));
    FilterIsSubsequence(users, (u: UserView) => Matches(u, term));
    Filter(users, (u: UserView) => Matches(u, term))
  }

  /** An empty search term keeps every user. */
  lemma EmptySearchKeepsAll(users: seq<UserView>)
    ensures FilteredUsers(users, "") == users
  {
    forall i | 0 <= i < |users|
      ensures Matches(users[i], "")
    {
      assert OccursAt(Lower(users[i].displayName), Lower(""), 0);
    }
    FilterAll(users, (u: UserView) => Matches(u, ""));
  }

  /** `Array.prototype.slice(start, end)`: a negative bound counts from the end,
      both bounds are clamped to the length, and crossed bounds give nothing. */
  function Slice<T>(s: seq<T>, start: int, end: int): (r: seq<T>)
    ensures |r| <= |s|
    ensures 0 <= start && 0 <= end ==> r == s[Min(start, |s|)..Max(Min(start, |s|), Min(end, |s|))]
    ensures start < 0 && 0 <= end ==> r == s[Max(|s| + start, 0)..Max(Max(|s| + start, 0), Min(end, |s|))]
    ensures 0 <= start && end < 0 ==> r == s[Min(start, |s|)..Max(Min(start, |s|), Max(|s| + end, 0))]
    ensures start < 0 && end < 0 ==> r == s[Max(|s| + start, 0)..Max(Max(|s| + start, 0), Max(|s| + end, 0))]
    ensures end == 0 ==> r == []
  {
    var from := if start < 0 then Max(|s| + start, 0) else Min(start, |s|);
    var to := if end < 0 then Max(|s| + end, 0) else Min(end, |s|);
    if from < to then s[from..to] else []
  }

  function Min(a: int, b: int): int { if a <= b then a else b }
  function Max(a: int, b: int): int { if a >= b then a else b }

  /** `paginatedUsers` for `currentPage`. */
  function Page(filtered: seq<UserView>, currentPage: int): (r: seq<UserView>)
    ensures |r| <= ItemsPerPage
    ensures currentPage >= 1 ==>
      r == filtered[Min((currentPage - 1) * ItemsPerPage, |filtered|)..Min(currentPage * ItemsPerPage, |filtered|)]
  {
    Slice(filtered, (currentPage - 1) * ItemsPerPage, currentPage * ItemsPerPage)
  }

  /** `totalPages`, that is `Math.ceil(count / 10)`: the fewest pages of ten that
      hold `count` users. */
  function TotalPages(count: nat): (pages: nat)
    ensures pages * ItemsPerPage >= count
    ensures pages * ItemsPerPage < count + ItemsPerPage
  {
    (count + ItemsPerPage - 1) / ItemsPerPage
  }

  /** Pages `1..k` laid end to end. */
  function FirstPages(filtered: seq<UserView>, k: nat): seq<UserView>
  {
    if k == 0 then [] else FirstPages(filtered, k - 1) + Page(filtered, k)
  }

  lemma {:induction false} FirstPagesArePrefix(filtered: seq<UserView>, k: nat)
    ensures FirstPages(filtered, k) == filtered[..Min(k * ItemsPerPage, |filtered|)]
    decreases k
  {
    if k > 0 {
      FirstPagesArePrefix(filtered, k - 1);
      var a := Min((k - 1) * ItemsPerPage, |filtered|);
      var b := Min(k * ItemsPerPage, |filtered|);
      assert filtered[..b] == filtered[..a] + filtered[a..b];
    }
  }

  /** Every filtered user is on exactly one page: the pages `1..totalPages`
      together are the filtered list, in order. */
  lemma PagesCoverFiltered(filtered: seq<UserView>)
    ensures FirstPages(filtered, TotalPages(|filtered|)) == filtered
  {
    FirstPagesArePrefix(filtered, TotalPages(|filtered|));
  }

  /** The "Previous" button (disabled on page 1): one page back, never below 1. */
  function PressPrevious(currentPage: int): (p: int)
    ensures currentPage >= 2 ==> p == currentPage - 1
    ensures currentPage <= 2 ==> p == 1
  {
    if currentPage == 1 then currentPage else Max(currentPage - 1, 1)
  }

  /** The "Next" button as written (disabled when the page equals the page count):
      one page on while there is a next page, otherwise onto the page count
      itself — which is page 0 when there are no pages. */
  function PressNext(currentPage: int, totalPages: nat): (p: int)
    ensures currentPage < totalPages ==> p == currentPage + 1
    ensures currentPage >= totalPages ==> p == totalPages
  {
    if currentPage == totalPages then currentPage else Min(currentPage + 1, totalPages)
  }

  /** With no matching users there are no pages, yet "Next" is enabled on page 1
      and moves to page 0; page 0 is the slice `(-10, 0)`, which is empty even
      after users arrive. */
  lemma NextLeavesPageZero(later: seq<UserView>)
    ensures PressNext(1, TotalPages(0)) == 0
    ensures Page(later, 0) == []
  {
  }

  /** "Next" as evidently intended: one page on while there is a next page,
      otherwise stay; a page within `1..max(totalPages, 1)` stays within it. */
  function PressNextFixed(currentPage: int, totalPages: nat): (p: int)
    ensures p == currentPage || p == currentPage + 1
    ensures p == currentPage + 1 <==> currentPage < totalPages
    ensures 1 <= currentPage <= Max(totalPages, 1) ==> 1 <= p <= Max(totalPages, 1)
  {
    if currentPage < totalPages then currentPage + 1 else currentPage
  }

  /** The search box and the page number. */
  datatype ListState = ListState(searchTerm: string, currentPage: int)

  const InitialState: ListState := ListState("", 1)

  datatype ListEvent = TypeSearch(term: string) | ClickPrevious | ClickNext

  /** The page count for the users currently loaded and the given search. */
  function PageCount(users: seq<UserView>, term: string): (pages: nat)
    ensures pages == 0 <==> |FilteredUsers(users, term)| == 0
  {
    TotalPages(|FilteredUsers(users, term)|)
  }

  /** One user action on the list as written, over the users currently loaded.
      Typing a search term sets it and goes back to page 1; "Previous" goes one
      page back but not below 1; "Next" goes one page on while there is a next
      page, and otherwise onto the page count. */
  function Step(s: ListState, users: seq<UserView>, e: ListEvent): (t: ListState)
    ensures e.TypeSearch? ==> t == ListState(e.term, 1)
    ensures !e.TypeSearch? ==> t.searchTerm == s.searchTerm
    ensures e.ClickPrevious? ==> t.currentPage == Max(s.currentPage - 1, 1)
    ensures e.ClickNext? && s.currentPage < PageCount(users, s.searchTerm) ==> t.currentPage == s.currentPage + 1
    ensures e.ClickNext? && s.currentPage >= PageCount(users, s.searchTerm) ==>
              t.currentPage == PageCount(users, s.searchTerm)
  {
    match e
    case TypeSearch(term) => ListState(term, 1)
    case ClickPrevious => s.(currentPage := PressPrevious(s.currentPage))
    case ClickNext => s.(currentPage := PressNext(s.currentPage, PageCount(users, s.searchTerm)))
  }

  /** As written, an action taken from a page of at least 1 leaves the page below
      1 exactly when it is "Next" while the search matches nobody; the page it
      then lands on is 0. */
  lemma StepBelowPageOne(s: ListState, users: seq<UserView>, e: ListEvent)
    requires s.currentPage >= 1
    ensures Step(s, users, e).currentPage < 1 <==> e.ClickNext? && |FilteredUsers(users, s.searchTerm)| == 0
    ensures Step(s, users, e).currentPage >= 0
  {
  }

  /** One user action with the corrected "Next" button. */
  function StepFixed(s: ListState, users: seq<UserView>, e: ListEvent): (t: ListState)
    ensures e.TypeSearch? ==> t == ListState(e.term, 1)
    ensures !e.TypeSearch? ==> t.searchTerm == s.searchTerm
    ensures e.ClickPrevious? ==> t.currentPage == Max(s.currentPage - 1, 1)
    ensures e.ClickNext? ==> t.currentPage == PressNextFixed(s.currentPage, PageCount(users, s.searchTerm))
  {
    match e
    case TypeSearch(term) => ListState(term, 1)
    case ClickPrevious => s.(currentPage := PressPrevious(s.currentPage))
    case ClickNext => s.(currentPage := PressNextFixed(s.currentPage, PageCount(users, s.searchTerm)))
  }

  /** With the corrected "Next", whatever the users and the actions, the page
      never drops below 1; with the users fixed it also never passes the last
      page (or 1 when there is none). */
  lemma StepFixedKeepsPageInRange(s: ListState, users: seq<UserView>, e: ListEvent)
    requires s.currentPage >= 1
    ensures StepFixed(s, users, e).currentPage >= 1
    ensures var t := StepFixed(s, users, e);
            s.currentPage <= Max(PageCount(users, s.searchTerm), 1) ==>
              t.currentPage <= Max(PageCount(users, t.searchTerm), 1)
  {
  }

  /** The "VPN Access" card: how many loaded users have access. */
  function VpnAccessCount(users: seq<UserView>): (n: nat)
    ensures n <= |users|
  {
    Count(users, (u: UserView) => u.hasVpnAccess)
  }

  /** Over a successful listing, the card counts the distinct roster users that
      hold at least one grant. */
  lemma VpnCardCountsGrantedUsers(store: Store)
    ensures var users := SortByName(Distinct(store.roster));
            VpnAccessCount(Get(true, Readable(store)).users)
              == Count(users, (u: DirectoryUser) => |GrantedIds(store.grants, u.userPrincipalName)| > 0)
  {
    var users := SortByName(Distinct(store.roster));
    var views := Get(true, Readable(store)).users;
    forall i | 0 <= i < |views|
      ensures views[i].hasVpnAccess == (|GrantedIds(store.grants, users[i].userPrincipalName)| > 0)
    {
      assert views[i] == Format(QueryRow(users[i], GroupConcat(GrantedIds(store.grants, users[i].userPrincipalName))));
      FormattedRowServers(store.grants, users[i]);
    }
    CountAligned(views, (u: UserView) => u.hasVpnAccess,
                 users, (u: DirectoryUser) => |GrantedIds(store.grants, u.userPrincipalName)| > 0);
  }

  /** A toast notification. */
  datatype Toast = Toast(title: string, description: string, destructive: bool)

  /** How a template literal prints a JSON field: missing fields print `undefined`. */
  function Show(field: Option<SyncRoute.Json>): string
  {
    if field.None? then "undefined"
    else if field.value.JNumber? then ToDecimal(field.value.n)
    else field.value.s
  }

  function Field(body: map<string, SyncRoute.Json>, key: string): Option<SyncRoute.Json>
  {
    if key in body then Some(body[key]) else None
  }

  const SyncFailedToast: Toast := Toast("Error", "No se pudo sincronizar los usuarios", true)

  /** The toast after pressing "Sincronizar con Azure AD", as written: a non-2xx
      answer shows the error toast; a success prints the answer's `usersCount`. */
  function SyncToast(response: SyncRoute.SyncResponse): (t: Toast)
    ensures SyncRoute.Status(response) != 200 ==> t == SyncFailedToast
    ensures SyncRoute.Status(response) == 200 ==> t.title == "Sincronización completada" && !t.destructive
    ensures SyncRoute.Status(response) == 200 ==> t.description == "Se han sincronizado undefined usuarios con Azure AD."
  {
    if SyncRoute.Status(response) != 200 then SyncFailedToast
    else
      SyncRoute.NoUsersCount(response);
      var count := Field(SyncRoute.ResponseBody(response), "usersCount");
      Toast("Sincronización completada", "Se han sincronizado " + Show(count) + " usuarios con Azure AD.", false)
  }

  /** The sync endpoint never sends `usersCount`, so every successful sync is
      announced as having synchronised "undefined" users. */
  lemma SyncToastShowsUndefined(response: SyncRoute.SyncResponse)
    requires SyncRoute.Status(response) == 200
    ensures SyncToast(response).description == "Se han sincronizado undefined usuarios con Azure AD."
  {
  }

  /** The toast as evidently intended: it prints the endpoint's `totalUsers`. */
  function SyncToastFixed(response: SyncRoute.SyncResponse): (t: Toast)
    ensures SyncRoute.Status(response) != 200 ==> t == SyncFailedToast
    ensures SyncRoute.Status(response) == 200 ==> t.title == "Sincronización completada" && !t.destructive
    ensures response.Completed? ==>
              t.description == "Se han sincronizado " + ToDecimal(response.totalUsers) + " usuarios con Azure AD."
  {
    if SyncRoute.Status(response) != 200 then SyncFailedToast
    else
      var count := Field(SyncRoute.ResponseBody(response), "totalUsers");
      Toast("Sincronización completada", "Se han sincronizado " + Show(count) + " usuarios con Azure AD.", false)
  }

  /** The corrected toast announces the number of users now in the roster, and a
      failed sync shows the error toast. */
  lemma SyncToastFixedShowsTotal(store: Store, fetch: Fetch)
    ensures var r := SyncRoute.Post(store, fetch);
            && (fetch.Fetched? ==>
                  SyncToastFixed(r.response).description
                    == "Se han sincronizado " + ToDecimal(|r.store.roster|) + " usuarios con Azure AD.")
            && (fetch.FetchFailed? ==> SyncToastFixed(r.response) == SyncFailedToast)
  {
  }
}
