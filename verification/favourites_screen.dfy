/** The decision logic of the favourites screen: restoring the persisted
    list, removal by the shared identifier, the navigation kind and the card
    fields. */
module FavouritesScreen {
  import opened Js
  import opened Types
  import Favourites
  import Storage
  import Home

  /** `loadFavourites`: the persisted list replaces the one in memory only
      when it is non-empty; an empty or absent list changes nothing. */
  function LoadFavourites(current: seq<Item>, st: Storage.Store): (r: seq<Item>)
    ensures |Storage.GetFavourites(st)| > 0 ==> r == Storage.GetFavourites(st)
    ensures |Storage.GetFavourites(st)| == 0 ==> r == current
    ensures Storage.FavouritesKey !in st ==> r == current
  {
    var saved := Storage.GetFavourites(st);
    if |saved| > 0 then Favourites.Reduce(Favourites.FavouritesState(current), Favourites.SetFavourites(saved)).items
    else current
  }

  /** What was saved is what is loaded, except that saving an empty list
      cannot clear the list in memory. */
  lemma LoadAfterSave(current: seq<Item>, st: Storage.Store, items: seq<Item>)
    ensures LoadFavourites(current, Storage.SaveFavourites(st, items)) == (if items == [] then current else items)
  {
    Storage.SlotRoundTrips(st, User("", None, None, None), items);
  }

  /** `handleRemoveFavourite`: dispatch `removeFavourite` with the item's
      identifier. Every card shows a member of the list, so the list gets
      shorter, and nothing with that identifier remains. */
  function HandleRemove(favourites: seq<Item>, item: Item): (r: seq<Item>)
    ensures r == Favourites.Remove(favourites, Favourites.ItemId(item))
    ensures !Favourites.HasId(r, Favourites.ItemId(item))
    ensures item !in r
    ensures item in favourites ==> |r| < |favourites|
    ensures forall x :: x in r <==> x in favourites && Favourites.ItemId(x) != Favourites.ItemId(item)
  {
    var id := Favourites.ItemId(item);
    assert item in favourites ==> Favourites.HasId(favourites, id) by {
      if item in favourites {
        var k :| 0 <= k < |favourites| && favourites[k] == item;
        assert Favourites.ItemId(favourites[k]) == id;
      }
    }
    Favourites.RemoveShrinks(favourites, id);
    Favourites.RemoveMembers(favourites, id);
    Favourites.Reduce(Favourites.FavouritesState(favourites), Favourites.RemoveFavourite(id)).items
  }

  /** `handleItemPress`: a sport when `idSport` is truthy, else a league when
      `idLeague` is truthy, else a team. */
  function NavKind(item: Item): (r: Kind)
    ensures r == Sport <==> Truthy(item.idSport)
    ensures r == League <==> !Truthy(item.idSport) && Truthy(item.idLeague)
    ensures r == Team <==> !Truthy(item.idSport) && !Truthy(item.idLeague)
  {
    if Truthy(item.idSport) then Sport else if Truthy(item.idLeague) then League else Team
  }

  /** The kind a favourite navigates as is the kind of the field its
      identifier comes from. */
  lemma NavKindFollowsItemId(item: Item)
    ensures NavKind(item) == Sport ==> Favourites.ItemId(item) == item.idSport
    ensures NavKind(item) == League ==> Favourites.ItemId(item) == item.idLeague
    ensures NavKind(item) == Team ==> Favourites.ItemId(item) == item.idTeam
  {
  }

  /** For sports and leagues the favourites screen navigates exactly as the
      home screen does. */
  lemma NavKindAgreesWithHome(item: Item)
    requires Home.HasSportOrLeagueId(item)
    ensures NavKind(item) == Home.ItemKind(item)
  {
  }

  /** The shape a card is drawn in, decided by which id properties exist
      at all (`!== undefined`), not by their truthiness. */
  function CardShape(item: Item): (r: Kind)
    ensures r == Sport <==> item.idSport.Some?
    ensures r == League <==> item.idSport.None? && item.idLeague.Some?
    ensures r == Team <==> item.idSport.None? && item.idLeague.None?
  {
    if item.idSport.Some? then Sport else if item.idLeague.Some? then League else Team
  }

  /** The title, description and image of a favourite's card. */
  datatype Card = Card(title: Option<string>, description: Option<string>, image: Option<string>)

  /** `renderItem`: a sport shows its name, format and thumbnail; a league its
      name and "Sport: " with its sport; anything else its team name, its
      stadium or "Team", and a team badge when it has an `idTeam`. */
  function RenderCard(item: Item): (r: Card)
    ensures CardShape(item) == Sport ==>
      r == Card(item.strSport, item.strFormat, item.strSportThumb)
    ensures CardShape(item) == League ==>
      && r.title == item.strLeague
      && r.description == Some("Sport: " + Interp(item.strSport))
      && r.image == (if item.idTeam.Some? then item.strTeamBadge else None)
    ensures CardShape(item) == Team ==>
      && r.title == item.strTeam
      && (Truthy(item.strStadium) ==> r.description == item.strStadium)
      && (!Truthy(item.strStadium) ==> r.description == Some("Team"))
      && r.image == (if item.idTeam.Some? then item.strTeamBadge else None)
  {
    match CardShape(item)
    case Sport => Card(item.strSport, item.strFormat, item.strSportThumb)
    case League =>
      Card(item.strLeague, Some("Sport: " + Interp(item.strSport)),
           if item.idTeam.Some? then item.strTeamBadge else None)
    case Team =>
      Card(item.strTeam, Or(item.strStadium, Some("Team")),
           if item.idTeam.Some? then item.strTeamBadge else None)
  }

  /** Whenever every id property is either absent or non-empty, the card's
      shape and the navigation kind agree; an id present but empty is the
      one way they part. */
  lemma ShapeAgreesWithNavKind(item: Item)
    requires item.idSport != Some("") && item.idLeague != Some("")
    ensures CardShape(item) == NavKind(item)
  {
  }

  /** The card's shape and the navigation kind part exactly when the id
      deciding the shape is present but empty: an empty `idSport`, or no
      `idSport` and an empty `idLeague`. */
  lemma ShapeDisagreesIff(item: Item)
    ensures CardShape(item) != NavKind(item) <==>
      item.idSport == Some("") || (item.idSport.None? && item.idLeague == Some(""))
  {
  }

  /** A favourite with an empty `idSport` next to a real `idLeague` is drawn
      as a sport but opens as a league. */
  lemma EmptySportIdSplitsShapeAndNavKind()
    ensures var item := Blank.(idSport := Some(""), idLeague := Some("4328"));
      CardShape(item) == Sport && NavKind(item) == League
  {
  }
}
