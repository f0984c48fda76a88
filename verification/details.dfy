/** The decision logic of the details screen: the favourite test and toggle
    on the shared identifier, which loader a tab triggers, and the merged,
    capped match list. */
module Details {
  import opened Js
  import opened Types
  import Favourites

  /** `isFavourite`: some favourite has the item's identifier. That is
      exactly when removing the identifier would change the list, and it
      holds of every item in the list. */
  predicate IsFavourite(favourites: seq<Item>, item: Item): (r: bool)
    ensures item in favourites ==> r
    ensures r <==> Favourites.Remove(favourites, Favourites.ItemId(item)) != favourites
  {
    var id := Favourites.ItemId(item);
    assert item in favourites ==> Favourites.HasId(favourites, id) by {
      if item in favourites {
        var k :| 0 <= k < |favourites| && favourites[k] == item;
        assert Favourites.ItemId(favourites[k]) == id;
      }
    }
    if Favourites.HasId(favourites, id) then
      Favourites.RemoveShrinks(favourites, id);
      true
    else
      Favourites.RemoveAbsent(favourites, id);
      false
  }

  /** `handleFavourite`: dispatch `removeFavourite(itemId)` when the item is
      a favourite, `addFavourite(item)` otherwise. */
  function Toggle(favourites: seq<Item>, item: Item): (r: seq<Item>)
    ensures IsFavourite(r, item) <==> !IsFavourite(favourites, item)
    ensures IsFavourite(favourites, item) ==> r == Favourites.Remove(favourites, Favourites.ItemId(item))
    ensures IsFavourite(favourites, item) ==> |r| < |favourites|
    ensures IsFavourite(favourites, item) ==>
      forall x :: x in r <==> x in favourites && Favourites.ItemId(x) != Favourites.ItemId(item)
    ensures !IsFavourite(favourites, item) ==> r == favourites + [item]
  {
    var id := Favourites.ItemId(item);
    if IsFavourite(favourites, item) then
      Favourites.RemoveShrinks(favourites, id);
      Favourites.RemoveMembers(favourites, id);
      Favourites.Remove(favourites, id)
    else
      var r := Favourites.Add(favourites, item);
      assert r == r[..|favourites|] + [r[|favourites|]];
      r
  }

  /** Two toggles restore the item's membership. */
  lemma ToggleTwiceMembership(favourites: seq<Item>, item: Item)
    ensures IsFavourite(Toggle(Toggle(favourites, item), item), item) <==> IsFavourite(favourites, item)
  {
  }

  /** Starting from a list without the item, toggling on and off gives back
      exactly the original list. */
  lemma ToggleTwiceRestores(favourites: seq<Item>, item: Item)
    requires !IsFavourite(favourites, item)
    ensures Toggle(Toggle(favourites, item), item) == favourites
  {
    var id := Favourites.ItemId(item);
    Favourites.RemoveAppend(favourites, [item], id);
    Favourites.RemoveAbsent(favourites, id);
    assert Favourites.Remove([item], id) == [];
  }

  /** Starting from a duplicate-free list that holds the item at position
      `i`, toggling off and on does not restore the list: the item moves to
      the end. */
  lemma ToggleTwiceMovesToEnd(favourites: seq<Item>, item: Item, i: nat)
    requires Favourites.Unique(favourites)
    requires i < |favourites| && favourites[i] == item
    ensures Toggle(Toggle(favourites, item), item) == favourites[..i] + favourites[i + 1..] + [item]
  {
    Favourites.RemoveUniqueAt(favourites, i);
    var once := Toggle(favourites, item);
    assert once == favourites[..i] + favourites[i + 1..];
  }

  /** A team favourite whose id string equals a sport's id counts as that
      sport here: the sport's toggle removes the team, and a second toggle
      adds the sport. */
  lemma TeamIdCountsAsSport()
    ensures var team := Blank.(idTeam := Some("102"));
      var sport := Blank.(idSport := Some("102"));
      && IsFavourite([team], sport)
      && Toggle([team], sport) == []
      && Toggle(Toggle([team], sport), sport) == [sport]
  {
    var team := Blank.(idTeam := Some("102"));
    var sport := Blank.(idSport := Some("102"));
    assert Favourites.ItemId([team][0]) == Favourites.ItemId(sport);
  }

  datatype Tab = Info | Matches | Teams | Players

  /** The fetch a tab switch triggers. */
  datatype Loader = LoadMatches | LoadTeams | LoadPlayers

  /** The effect on `activeTab`: matches and teams load only for a league,
      players only for a team, and nothing else loads anything. */
  function TabLoader(tab: Tab, kind: Kind): (r: Option<Loader>)
    ensures r == Some(LoadMatches) <==> tab == Matches && kind == League
    ensures r == Some(LoadTeams) <==> tab == Teams && kind == League
    ensures r == Some(LoadPlayers) <==> tab == Players && kind == Team
    ensures tab == Info || kind == Sport ==> r.None?
  {
    if tab == Matches && kind == League then Some(LoadMatches)
    else if tab == Teams && kind == League then Some(LoadTeams)
    else if tab == Players && kind == Team then Some(LoadPlayers)
    else None
  }

  /** The most matches the screen keeps. */
  const MatchCap := 10

  /** `loadMatches`: the next events followed by the past events, cut to the
      first ten. `fetched` is `None` when a request failed; the screen then
      keeps the matches it had. */
  function MatchesAfterLoad<E>(previous: seq<E>, fetched: Option<(Option<seq<E>>, Option<seq<E>>)>): (r: seq<E>)
    ensures fetched.None? ==> r == previous
    ensures fetched.Some? ==>
      var all := OrEmpty(fetched.value.0) + OrEmpty(fetched.value.1);
      && |r| == (if |all| < MatchCap then |all| else MatchCap)
      && r == all[..|r|]
  {
    match fetched
    case None => previous
    case Some((next, past)) => Take(OrEmpty(next) + OrEmpty(past), MatchCap)
  }

  /** Upcoming events come first: the merged list begins with as many next
      events as fit, and past events appear only when fewer than ten next
      events arrived. */
  lemma NextEventsFirst<E>(previous: seq<E>, next: seq<E>, past: Option<seq<E>>)
    ensures var r := MatchesAfterLoad(previous, Some((Some(next), past)));
      && (|next| >= MatchCap ==> r == next[..MatchCap])
      && (|next| < MatchCap ==> r[..|next|] == next)
  {
    var all := next + OrEmpty(past);
    var r := MatchesAfterLoad(previous, Some((Some(next), past)));
    if |next| >= MatchCap {
      assert all[..MatchCap] == next[..MatchCap];
    } else {
      assert |r| >= |next|;
      assert all[..|next|] == next;
    }
  }

  /** `loadTeams` and `loadPlayers`: the fetched list, `null` read as empty;
      a failed request keeps what was there. */
  function ListAfterLoad<E>(previous: seq<E>, fetched: Option<Option<seq<E>>>): (r: seq<E>)
    ensures fetched.None? ==> r == previous
    ensures fetched == Some(None) ==> r == []
    ensures fetched.Some? && fetched.value.Some? ==> r == fetched.value.value
  {
    match fetched
    case None => previous
    case Some(xs) => OrEmpty(xs)
  }
}
