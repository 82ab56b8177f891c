/** The ranking widget: it splits the ranked users into the podium and the
    list by their `type`, and lays the podium out as second, first, third.
 */
module Leaderboard {
  import opened Outcomes

  /** A row of the ranking the backend computes. */
  datatype RankedUser = RankedUser(id: string, fullName: string, rank: int, kind: string, totalPoints: int)

  const PodiumKind := "podio"
  const ListKind := "lista"

  /** What the widget shows: the loading text, or the podium, the list and
      the podium in display order. */
  datatype Board = Loading | Board(podium: seq<RankedUser>, list: seq<RankedUser>, podiumOrdered: seq<RankedUser>)

  /** The users of one `type`, in their original order. */
  function OfKind(users: seq<RankedUser>, kind: string): (r: seq<RankedUser>)
    ensures |r| <= |users|
    ensures forall i :: 0 <= i < |r| ==> r[i] in users && r[i].kind == kind
    ensures forall i :: 0 <= i < |users| && users[i].kind == kind ==> users[i] in r
    decreases |users|
  {
    if |users| == 0 then []
    else if users[0].kind == kind then [users[0]] + OfKind(users[1..], kind)
    else OfKind(users[1..], kind)
  }

  /** Filtering distributes over concatenation: the relative order of the kept
      users is the order they had in the ranking. */
  lemma {:induction false} OfKindAppend(s: seq<RankedUser>, t: seq<RankedUser>, kind: string)
    ensures OfKind(s + t, kind) == OfKind(s, kind) + OfKind(t, kind)
    decreases |s|
  {
    if |s| == 0 {
      assert s + t == t;
    } else {
      assert (s + t)[1..] == s[1..] + t;
      OfKindAppend(s[1..], t, kind);
    }
  }

  /** The position of the first user of a given rank (`find`), if any. */
  function FirstOfRank(users: seq<RankedUser>, rank: int): (r: Option<nat>)
    ensures r.Some? ==> r.value < |users| && users[r.value].rank == rank
    ensures r.Some? ==> forall j :: 0 <= j < r.value ==> users[j].rank != rank
    ensures r.None? ==> forall j :: 0 <= j < |users| ==> users[j].rank != rank
    decreases |users|
  {
    if |users| == 0 then None
    else if users[0].rank == rank then Some(0)
    else match FirstOfRank(users[1..], rank)
      case None => None
      case Some(k) => Some(k + 1)
  }

  /** The first user of a given rank, if any. */
  function FindRank(users: seq<RankedUser>, rank: int): (r: Option<RankedUser>)
    ensures r.Some? ==> r.value in users && r.value.rank == rank
    ensures r.Some? ==> exists k :: 0 <= k < |users| && users[k] == r.value
                                    && forall j :: 0 <= j < k ==> users[j].rank != rank
    ensures r.None? <==> forall j :: 0 <= j < |users| ==> users[j].rank != rank
  {
    match FirstOfRank(users, rank)
    case None => None
    case Some(k) => Some(users[k])
  }

  /** Where a podium rank is drawn: rank 2 on the left, 1 in the middle, 3 on the right. */
  function Slot(rank: int): int {
    if rank == 2 then 0 else if rank == 1 then 1 else 2
  }

  /** The present entries of a list of optional users (`filter(Boolean)`). */
  function Present(xs: seq<Option<RankedUser>>): (r: seq<RankedUser>)
    ensures |r| <= |xs|
    ensures forall u :: u in r <==> Some(u) in xs
    decreases |xs|
  {
    if |xs| == 0 then []
    else if xs[0].Some? then [xs[0].value] + Present(xs[1..])
    else Present(xs[1..])
  }

  /** The podium in display order: the first podium user of rank 2, then of
      rank 1, then of rank 3, leaving out absent ranks. */
  function PodiumOrder(podium: seq<RankedUser>): (r: seq<RankedUser>)
    ensures |r| <= 3
    ensures forall i :: 0 <= i < |r| ==> r[i] in podium && r[i].rank in {1, 2, 3}
    ensures forall i, j :: 0 <= i < j < |r| ==> Slot(r[i].rank) < Slot(r[j].rank)
    ensures forall i :: 0 <= i < |r| ==> FindRank(podium, r[i].rank) == Some(r[i])
    ensures forall k :: k in {1, 2, 3} && FindRank(podium, k).Some? ==> FindRank(podium, k).value in r
  {
    var second, first, third := FindRank(podium, 2), FindRank(podium, 1), FindRank(podium, 3);
    OrderedSlots(second, first, third);
    Present([second, first, third])
  }

  /** The entry of an optional user, as a list of zero or one users. */
  function AsList(o: Option<RankedUser>): seq<RankedUser> {
    if o.Some? then [o.value] else []
  }

  lemma PresentOfThree(a: Option<RankedUser>, b: Option<RankedUser>, c: Option<RankedUser>)
    ensures Present([a, b, c]) == AsList(a) + AsList(b) + AsList(c)
  {
    var l3, l2, l1 := [a, b, c], [b, c], [c];
    assert l3[1..] == l2 && l2[1..] == l1 && l1[1..] == [];
    assert Present(l1) == AsList(c) + Present([]);
    assert Present(l2) == AsList(b) + Present(l1);
    assert Present(l3) == AsList(a) + Present(l2);
  }

  /** Keeping the present users of a rank-2, rank-1, rank-3 triple yields
      users in slot order, each coming from its own position. */
  lemma OrderedSlots(a: Option<RankedUser>, b: Option<RankedUser>, c: Option<RankedUser>)
    requires a.Some? ==> a.value.rank == 2
    requires b.Some? ==> b.value.rank == 1
    requires c.Some? ==> c.value.rank == 3
    ensures var r := Present([a, b, c]);
            && |r| <= 3
            && (forall i :: 0 <= i < |r| ==>
                  (r[i].rank == 2 && a == Some(r[i])) || (r[i].rank == 1 && b == Some(r[i]))
                  || (r[i].rank == 3 && c == Some(r[i])))
            && (forall i, j :: 0 <= i < j < |r| ==> Slot(r[i].rank) < Slot(r[j].rank))
            && (a.Some? ==> a.value in r) && (b.Some? ==> b.value in r) && (c.Some? ==> c.value in r)
  {
    PresentOfThree(a, b, c);
  }

  /** The widget: the loading text for an empty ranking; otherwise the podium
      holds exactly the "podio" users and the list exactly the "lista" users,
      and each user drawn on the podium is the first podium user of its rank. */
  function Render(users: seq<RankedUser>): (b: Board)
    ensures b.Loading? <==> |users| == 0
    ensures b.Board? ==>
              && (forall i :: 0 <= i < |users| ==>
                    (users[i] in b.podium <==> users[i].kind == PodiumKind)
                    && (users[i] in b.list <==> users[i].kind == ListKind))
              && (forall u :: u in b.podium ==> u in users)
              && (forall u :: u in b.list ==> u in users)
              && (forall i :: 0 <= i < |b.podiumOrdered| ==>
                    FindRank(b.podium, b.podiumOrdered[i].rank) == Some(b.podiumOrdered[i]))
  {
    if |users| == 0 then Loading
    else
      var podium := OfKind(users, PodiumKind);
      Board(podium, OfKind(users, ListKind), PodiumOrder(podium))
  }

  /** The split is a partition by type: no user is on both the podium and
      the list, users of any other type are in neither, and at most three
      users stand on the podium, with distinct ranks. */
  lemma RenderPartitions(users: seq<RankedUser>)
    ensures Render(users).Board? ==>
              var b := Render(users);
              && (forall u :: u in b.podium ==> u.kind == PodiumKind && u !in b.list)
              && (forall u :: u in b.list ==> u.kind == ListKind)
              && (forall u :: u in users && u.kind != PodiumKind && u.kind != ListKind ==>
                    u !in b.podium && u !in b.list)
              && |b.podiumOrdered| <= 3
              && (forall i, j :: 0 <= i < j < |b.podiumOrdered| ==>
                    b.podiumOrdered[i].rank != b.podiumOrdered[j].rank)
  {
  }
}
