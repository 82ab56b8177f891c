/** The rewards page: it loads the signed-in user, then the reward catalogue,
    and marks each reward with whether that user has already redeemed it.
 */
module RewardsPage {
  import opened Outcomes
  import opened RewardCard

  /** A row of the `users` table (the columns the page passes on to cards). */
  datatype UserRow = UserRow(id: string, points: Option<int>)

  /** The page's state: `rewards`, `currentUser`, `loadingUser`, `loadingRewards`. */
  datatype Page = Page(rewards: seq<Reward>, currentUser: Option<UserRow>,
                       loadingUser: bool, loadingRewards: bool)

  const InitialPage := Page([], None, true, true)

  /** The text the authentication service reports when there is no session. */
  const SessionMissing := "Auth session missing!"

  /** Each catalogue row with `redeemed` set exactly when its id is among the
      user's redeemed reward ids; length, order and all other fields are kept. */
  function MergeRedeemed(rows: seq<Reward>, redeemedIds: seq<string>): (r: seq<Reward>)
    ensures |r| == |rows|
    ensures forall i :: 0 <= i < |rows| ==> (r[i].redeemed <==> rows[i].id in redeemedIds)
    ensures forall i :: 0 <= i < |rows| ==> r[i].(redeemed := rows[i].redeemed) == rows[i]
    decreases |rows|
  {
    if |rows| == 0 then []
    else [rows[0].(redeemed := rows[0].id in redeemedIds)] + MergeRedeemed(rows[1..], redeemedIds)
  }

  /** The reward fetch and whether it asked for the user's redeemed ids. */
  datatype RewardsFetch = RewardsFetch(page: Page, redeemedQueried: bool)

  /** `fetchRewards`: on any query error the rewards stay as they were; without
      a user id nobody has redeemed anything; `loadingRewards` ends false. */
  function FetchRewards(page: Page, userId: Option<string>, catalog: Outcome<seq<Reward>>,
                        redeemed: Outcome<seq<string>>): (r: RewardsFetch)
    ensures !r.page.loadingRewards
    ensures r.page.currentUser == page.currentUser && r.page.loadingUser == page.loadingUser
    ensures r.redeemedQueried <==> catalog.Ok? && Truthy(userId)
    ensures catalog.Err? || (Truthy(userId) && redeemed.Err?) ==> r.page.rewards == page.rewards
    ensures catalog.Ok? && !Truthy(userId) ==>
              r.page.rewards == MergeRedeemed(catalog.value, [])
    ensures catalog.Ok? && Truthy(userId) && redeemed.Ok? ==>
              r.page.rewards == MergeRedeemed(catalog.value, redeemed.value)
  {
    match catalog
    case Err(_) => RewardsFetch(page.(loadingRewards := false), false)
    case Ok(rows) =>
      if Truthy(userId) then
        match redeemed
        case Err(_) => RewardsFetch(page.(loadingRewards := false), true)
        case Ok(ids) =>
          RewardsFetch(page.(rewards := MergeRedeemed(rows, ids), loadingRewards := false), true)
      else
        RewardsFetch(page.(rewards := MergeRedeemed(rows, []), loadingRewards := false), false)
  }

  /** Without a user id every merged reward is unredeemed. */
  lemma NoUserNothingRedeemed(page: Page, userId: Option<string>, catalog: Outcome<seq<Reward>>,
                              redeemed: Outcome<seq<string>>)
    requires catalog.Ok? && !Truthy(userId)
    ensures var r := FetchRewards(page, userId, catalog, redeemed).page.rewards;
            |r| == |catalog.value| && forall i :: 0 <= i < |r| ==> !r[i].redeemed
  {
  }

  /** What `supabase.auth.getUser()` answers: an error text, or a user id that
      may be missing. */
  datatype AuthReply = AuthError(message: string) | AuthUser(id: Option<string>)

  /** The user fetch, whether it read the `users` row, and whether it went on
      to fetch the rewards. */
  datatype UserFetch = UserFetch(page: Page, rowQueried: bool, rewardsFetched: bool)

  /** `fetchUser`: no session or no id clears the user and the rewards; any
      other error clears only the user; a loaded row is stored and the rewards
      are fetched for it. `loadingUser` ends false on every path. */
  function FetchUser(page: Page, auth: AuthReply, row: Outcome<UserRow>,
                     catalog: Outcome<seq<Reward>>, redeemed: Outcome<seq<string>>): (r: UserFetch)
    ensures !r.page.loadingUser
    ensures auth == AuthError(SessionMissing) || (auth.AuthUser? && !Truthy(auth.id)) ==>
              r.page.currentUser.None? && r.page.rewards == [] && !r.rowQueried
    ensures auth.AuthError? && auth.message != SessionMissing ==>
              r.page.currentUser.None? && r.page.rewards == page.rewards && !r.rowQueried
    ensures r.rowQueried <==> auth.AuthUser? && Truthy(auth.id)
    ensures r.rewardsFetched <==> r.rowQueried && row.Ok?
    ensures r.rowQueried && row.Err? ==>
              r.page.currentUser.None? && r.page.rewards == page.rewards
    ensures r.rewardsFetched ==>
              && r.page.currentUser == Some(row.value)
              && r.page.rewards == FetchRewards(page, auth.id, catalog, redeemed).page.rewards
              && !r.page.loadingRewards
    ensures !r.rewardsFetched ==> r.page.loadingRewards == page.loadingRewards
  {
    match auth
    case AuthError(msg) =>
      if msg == SessionMissing then UserFetch(Page([], None, false, page.loadingRewards), false, false)
      else UserFetch(page.(currentUser := None, loadingUser := false), false, false)
    case AuthUser(id) =>
      if !Truthy(id) then UserFetch(Page([], None, false, page.loadingRewards), false, false)
      else match row
        case Err(_) => UserFetch(page.(currentUser := None, loadingUser := false), true, false)
        case Ok(u) =>
          var fetched := FetchRewards(page.(currentUser := Some(u)), id, catalog, redeemed).page;
          UserFetch(fetched.(loadingUser := false), true, true)
  }

  /** A signed-in user with a loaded row sees the catalogue with their own
      redemption status on every reward. */
  lemma SignedInUserSeesOwnStatus(id: string, u: UserRow, rows: seq<Reward>, ids: seq<string>)
    requires id != ""
    ensures var p := FetchUser(InitialPage, AuthUser(Some(id)), Ok(u), Ok(rows), Ok(ids)).page;
            && p.currentUser == Some(u) && !p.loadingUser && !p.loadingRewards
            && |p.rewards| == |rows|
            && forall i :: 0 <= i < |rows| ==> (p.rewards[i].redeemed <==> rows[i].id in ids)
  {
  }

  /** The user object the page hands every card: its loaded `users` row. */
  function CardUserOf(u: Option<UserRow>): Option<CardUser> {
    match u
    case None => None
    case Some(row) => Some(CardUser(Some(row.id), row.points))
  }

  /** A press on one card, seen from the page: the page afterwards, the card
      right after its handler (a refetch that shows the skeleton or clears
      the user remounts the cards with an empty message later), and whether
      the page's `fetchUser` ran as `onRedeem`. */
  datatype PagePress = PagePress(page: Page, card: Card, refetched: bool)

  /** Pressing redeem on the `i`-th card. A disabled button (`!canRedeem`)
      runs no handler. Otherwise the card's success branch sets `redeemed` on
      the very object the page's `rewards` list holds, so the flag is in the
      page state at once; the page then runs `fetchUser`, which replaces the
      list only on some of its paths. */
  function PressRedeem(page: Page, i: nat, card: Card, rpc: Outcome<()>, auth: AuthReply,
                       row: Outcome<UserRow>, catalog: Outcome<seq<Reward>>,
                       redeemed: Outcome<seq<string>>): (r: PagePress)
    requires i < |page.rewards|
    ensures !CanRedeem(card, page.rewards[i], CardUserOf(page.currentUser)) ==>
              r == PagePress(page, card, false)
    ensures CanRedeem(card, page.rewards[i], CardUserOf(page.currentUser)) ==>
              var a := HandleRedeem(card, page.rewards[i], CardUserOf(page.currentUser), true, rpc);
              && r.card == a.card
              && (r.refetched <==> a.rpcCalled && rpc.Ok?)
    ensures r.refetched ==> CanRedeem(card, page.rewards[i], CardUserOf(page.currentUser))
    ensures !r.refetched ==> r.page == page
    ensures r.refetched ==> !r.page.loadingUser
    ensures r.refetched && auth == AuthError(SessionMissing) ==> r.page.rewards == []
    ensures r.refetched &&
            ((auth.AuthError? && auth.message != SessionMissing)
             || (auth.AuthUser? && Truthy(auth.id) && (row.Err? || catalog.Err? || redeemed.Err?))) ==>
              r.page.rewards == page.rewards[i := page.rewards[i].(redeemed := true)]
    ensures r.refetched && auth.AuthUser? && Truthy(auth.id) && row.Ok? && catalog.Ok? && redeemed.Ok? ==>
              r.page.rewards == MergeRedeemed(catalog.value, redeemed.value)
  {
    if !CanRedeem(card, page.rewards[i], CardUserOf(page.currentUser)) then PagePress(page, card, false)
    else
      var a := HandleRedeem(card, page.rewards[i], CardUserOf(page.currentUser), true, rpc);
      if a.rpcCalled && rpc.Ok? then
        var marked := page.(rewards := page.rewards[i := a.reward]);
        PagePress(FetchUser(marked, auth, row, catalog, redeemed).page, a.card, true)
      else
        PagePress(page, a.card, false)
  }

  /** While a redemption is in flight the button is disabled: a further press
      changes neither the page nor the card and calls nothing. */
  lemma InFlightPressIsIgnored(page: Page, i: nat, message: string, rpc: Outcome<()>, auth: AuthReply,
                               row: Outcome<UserRow>, catalog: Outcome<seq<Reward>>,
                               redeemed: Outcome<seq<string>>)
    requires i < |page.rewards|
    ensures PressRedeem(page, i, Card(true, message), rpc, auth, row, catalog, redeemed)
            == PagePress(page, Card(true, message), false)
  {
  }

  /** A redemption the backend accepted stays visible on the page even when
      the refetch that follows fails to load the catalogue, and no other
      reward changes. */
  lemma RedeemedFlagSurvivesFailedRefetch(page: Page, i: nat, card: Card, id: string, u: UserRow,
                                          catalogError: string, redeemed: Outcome<seq<string>>)
    requires i < |page.rewards| && id != "" && !card.loading
    requires HandleRedeem(card, page.rewards[i], CardUserOf(page.currentUser), true, Ok(())).rpcCalled
    ensures var p := PressRedeem(page, i, card, Ok(()), AuthUser(Some(id)), Ok(u),
                                 Err(catalogError), redeemed).page;
            && |p.rewards| == |page.rewards|
            && p.rewards[i].redeemed
            && (forall j :: 0 <= j < |p.rewards| && j != i ==> p.rewards[j] == page.rewards[j])
            && p.currentUser == Some(u)
  {
  }
}
