/** One reward tile: it shows the reader's points against the reward's cost and
    runs the redemption through the `redeem_reward` remote procedure after a
    chain of client-side guards.
 */
module RewardCard {
  import opened Outcomes

  /** A reward row as the page hands it to the card (catalogue columns plus the
      `redeemed` flag the page merged in). */
  datatype Reward = Reward(
    id: string,
    name: string,
    description: string,
    imageUrl: string,
    pointsRequired: Option<int>,
    redeemed: bool)

  /** The fields of the current user the card reads. */
  datatype CardUser = CardUser(id: Option<string>, points: Option<int>)

  /** The card's own state: `loading` and `message`. */
  datatype Card = Card(loading: bool, message: string)

  const InitialCard := Card(false, "")

  const LoginRequired := "Debes iniciar sesión para canjear recompensas."
  const AlreadyRedeemed := "Ya has canjeado esta recompensa."
  const NotEnoughPoints := "No tienes suficientes puntos para esta recompensa."
  const RedeemSucceeded := "🎉 ¡Recompensa canjeada con éxito!"

  /** The user's points, 0 when there is no user or no points value. */
  function UserPoints(user: Option<CardUser>): (p: int)
    ensures user.None? || user.value.points.None? ==> p == 0
    ensures user.Some? && user.value.points.Some? ==> p == user.value.points.value
  {
    match user
    case None => 0
    case Some(u) => u.points.GetOr(0)
  }

  /** The reward's cost, 0 when the row has none. */
  function RequiredPoints(reward: Reward): (p: int)
    ensures reward.pointsRequired.None? ==> p == 0
    ensures reward.pointsRequired.Some? ==> p == reward.pointsRequired.value
  {
    reward.pointsRequired.GetOr(0)
  }

  /** The user's id, absent when there is no user. */
  function UserId(user: Option<CardUser>): Option<string> {
    match user
    case None => None
    case Some(u) => u.id
  }

  /** Whether the redeem button is enabled. It does not look at the user id,
      so for a signed-in user an enabled button is one whose press passes
      every guard of the handler. */
  predicate CanRedeem(card: Card, reward: Reward, user: Option<CardUser>): (b: bool)
    ensures b ==> !card.loading && !reward.redeemed
    ensures b && Truthy(UserId(user)) ==> HandleRedeem(card, reward, user, false, Ok(())).rpcCalled
    ensures !b && !card.loading && !reward.redeemed ==>
              HandleRedeem(card, reward, user, false, Ok(())).card.message
                == (if Truthy(UserId(user)) then NotEnoughPoints else LoginRequired)
  {
    !card.loading && !reward.redeemed && UserPoints(user) >= RequiredPoints(reward)
  }

  /** The result of one press of the redeem button: the card and reward
      afterwards, whether the remote procedure was called, and how many times
      the page's `onRedeem` callback ran. */
  datatype Attempt = Attempt(card: Card, reward: Reward, rpcCalled: bool, onRedeemCalls: nat)

  /** The redeem handler. Guards run in order (no user id, already redeemed,
      too few points) and each stops with its message before any remote call;
      otherwise the call is made once and its outcome decides the rest. */
  function HandleRedeem(card: Card, reward: Reward, user: Option<CardUser>,
                        hasOnRedeem: bool, rpc: Outcome<()>): (a: Attempt)
    ensures !Truthy(UserId(user)) ==>
              a == Attempt(card.(message := LoginRequired), reward, false, 0)
    ensures Truthy(UserId(user)) && reward.redeemed ==>
              a == Attempt(card.(message := AlreadyRedeemed), reward, false, 0)
    ensures Truthy(UserId(user)) && !reward.redeemed && UserPoints(user) < RequiredPoints(reward) ==>
              a == Attempt(card.(message := NotEnoughPoints), reward, false, 0)
    ensures a.rpcCalled <==>
              Truthy(UserId(user)) && !reward.redeemed && UserPoints(user) >= RequiredPoints(reward)
    ensures a.rpcCalled ==> !a.card.loading
    ensures a.rpcCalled && rpc.Ok? ==>
              && a.reward == reward.(redeemed := true)
              && a.card.message == RedeemSucceeded
              && a.onRedeemCalls == (if hasOnRedeem then 1 else 0)
    ensures a.rpcCalled && rpc.Err? ==>
              a.reward == reward && a.card.message == rpc.message && a.onRedeemCalls == 0
    ensures !a.rpcCalled ==> a.card.loading == card.loading && a.reward == reward
  {
    if !Truthy(UserId(user)) then Attempt(card.(message := LoginRequired), reward, false, 0)
    else if reward.redeemed then Attempt(card.(message := AlreadyRedeemed), reward, false, 0)
    else if UserPoints(user) < RequiredPoints(reward) then
      Attempt(card.(message := NotEnoughPoints), reward, false, 0)
    else
      // loading is set, the message cleared, the call awaited, and loading reset in `finally`
      match rpc
      case Ok(_) =>
        Attempt(Card(false, RedeemSucceeded), reward.(redeemed := true), true,
                if hasOnRedeem then 1 else 0)
      case Err(msg) => Attempt(Card(false, msg), reward, true, 0)
  }

  /** The button and the handler agree for a signed-in user: an enabled
      button is exactly one whose press reaches the remote call. Without a
      user id the handler never calls, whatever the button shows. */
  lemma CanRedeemMatchesGuards(card: Card, reward: Reward, user: Option<CardUser>,
                               hasOnRedeem: bool, rpc: Outcome<()>)
    requires !card.loading
    ensures Truthy(UserId(user)) ==>
              (CanRedeem(card, reward, user) <==> HandleRedeem(card, reward, user, hasOnRedeem, rpc).rpcCalled)
    ensures !Truthy(UserId(user)) ==> !HandleRedeem(card, reward, user, hasOnRedeem, rpc).rpcCalled
  {
  }

  /** After a successful redemption the button is disabled and a second press
      stops at the "already redeemed" guard without calling the backend again. */
  lemma RedeemIsIdempotentOnCard(card: Card, reward: Reward, user: Option<CardUser>,
                                 hasOnRedeem: bool, rpc: Outcome<()>, rpc2: Outcome<()>)
    requires HandleRedeem(card, reward, user, hasOnRedeem, rpc).rpcCalled && rpc.Ok?
    ensures var a := HandleRedeem(card, reward, user, hasOnRedeem, rpc);
            && !CanRedeem(a.card, a.reward, user)
            && !HandleRedeem(a.card, a.reward, user, hasOnRedeem, rpc2).rpcCalled
            && HandleRedeem(a.card, a.reward, user, hasOnRedeem, rpc2).card.message == AlreadyRedeemed
  {
  }

  /** A reader with no points (no user, or no `points` value) can redeem
      exactly the rewards whose cost is missing or at most 0. */
  lemma NoPointsRedeemsOnlyFree(card: Card, reward: Reward, user: Option<CardUser>)
    requires !card.loading && !reward.redeemed
    requires user.None? || user.value.points.None?
    ensures CanRedeem(card, reward, user) <==>
              reward.pointsRequired.None? || reward.pointsRequired.value <= 0
  {
  }

  /** More points never disable the button: a reward one reader can redeem
      is redeemable by any reader with at least as many points. */
  lemma MorePointsStillRedeem(card: Card, reward: Reward, user: Option<CardUser>, richer: Option<CardUser>)
    requires CanRedeem(card, reward, user)
    requires UserPoints(richer) >= UserPoints(user)
    ensures CanRedeem(card, reward, richer)
  {
  }
}
