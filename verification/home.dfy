/** The decision logic of the home screen: loading the catalog, the card
    helpers of `renderItem` (description, image, status), the favourite
    toggle and the navigation kind. */
module Home {
  import opened Js
  import opened Types
  import Favourites
  import Sports

  /** The number of leagues the screen keeps. */
  const LeagueCap := 200

  /** `loadData`: start, then either store the fetched sports and the first
      200 fetched leagues, or record the generic failure message. `fetched`
      is `None` when either request failed; a missing array stands for an
      `undefined` response and is stored as empty. Afterwards the state is
      never loading; on success there is no error, the fetched sports and
      the first 200 fetched leagues (all of them when fewer arrived); on
      failure the generic message and the previous lists; the teams are
      untouched either way. */
  function LoadData(s: Sports.SportsState, fetched: Option<(Option<seq<Item>>, Option<seq<Item>>)>)
    : (r: Sports.SportsState)
    ensures !r.isLoading
    ensures r.teams == s.teams
    ensures fetched.None? ==>
      r.error == Some("Failed to load data") && r.sports == s.sports && r.leagues == s.leagues
    ensures fetched.Some? ==> r.error == None && |r.leagues| <= LeagueCap
    ensures fetched.Some? && fetched.value.0.Some? ==> r.sports == fetched.value.0.value
    ensures fetched.Some? && fetched.value.0.None? ==> r.sports == []
    ensures fetched.Some? && fetched.value.1.None? ==> r.leagues == []
    ensures fetched.Some? && fetched.value.1.Some? ==>
      var all := fetched.value.1.value;
      && |r.leagues| == (if |all| < LeagueCap then |all| else LeagueCap)
      && r.leagues == all[..|r.leagues|]
  {
    var started := Sports.Reduce(s, Sports.FetchSportsStart);
    match fetched
    case None => Sports.Reduce(started, Sports.FetchSportsFailure("Failed to load data"))
    case Some((sports, leagues)) =>
      Sports.Reduce(Sports.Reduce(started, Sports.FetchSportsSuccess(OrEmpty(sports))),
                    Sports.FetchLeaguesSuccess(Take(OrEmpty(leagues), LeagueCap)))
  }

  /** Pulling to refresh with the same responses changes nothing. */
  lemma RefreshIsIdempotent(s: Sports.SportsState, fetched: Option<(Option<seq<Item>>, Option<seq<Item>>)>)
    ensures LoadData(LoadData(s, fetched), fetched) == LoadData(s, fetched)
  {
  }

  /** A failed refresh keeps the catalog of the last successful load and
      only records the error. */
  lemma FailedRefreshKeepsCatalog(s: Sports.SportsState, fetched: (Option<seq<Item>>, Option<seq<Item>>))
    ensures var loaded := LoadData(s, Some(fetched));
      LoadData(loaded, None) == loaded.(error := Some("Failed to load data"))
  {
  }

  // ----- keyword cascades -------------------------------------------------

  /** One step of an if/else-if cascade on a lower-cased name: the outcome
      applies when the name includes any of the keywords. */
  datatype Rule<T> = Rule(keywords: seq<string>, outcome: T)

  /** `keywords.some(k => text.includes(k))` */
  predicate MentionsAny(text: string, keywords: seq<string>) {
    exists k :: 0 <= k < |keywords| && Includes(text, keywords[k])
  }

  /** The position of the first rule whose keywords the text mentions. */
  function FirstMatch<T>(rules: seq<Rule<T>>, text: string): (r: Option<nat>)
    ensures r.Some? ==>
      && r.value < |rules|
      && MentionsAny(text, rules[r.value].keywords)
      && forall j :: 0 <= j < r.value ==> !MentionsAny(text, rules[j].keywords)
    ensures r.None? ==> forall j :: 0 <= j < |rules| ==> !MentionsAny(text, rules[j].keywords)
    decreases |rules|
  {
    if |rules| == 0 then None
    else if MentionsAny(text, rules[0].keywords) then Some(0)
    else match FirstMatch(rules[1..], text)
      case None => None
      case Some(i) => Some(i + 1)
  }

  /** The outcome of the first matching rule, or `default` when none matches. */
  function Classify<T>(rules: seq<Rule<T>>, text: string, default: T): T {
    match FirstMatch(rules, text)
    case Some(i) => rules[i].outcome
    case None => default
  }

  // ----- status badge -----------------------------------------------------

  datatype Status = Active | Upcoming | Popular

  const PopularLeagues := ["premier league", "nba", "nfl", "la liga", "champions league",
                           "serie a", "bundesliga", "mlb", "nhl"]
  const UpcomingKeywords := ["championship", "league two", "league one", "segunda", "division 2"]
  const StatusRules := [Rule(PopularLeagues, Popular), Rule(UpcomingKeywords, Upcoming)]

  /** A card shows a sport when the object has an `idSport` property at all
      (`!== undefined`, not truthiness). */
  predicate IsSportCard(item: Item) {
    item.idSport.Some?
  }

  /** `getStatus`: no badge for a sport; for a league, Popular when the
      lower-cased name mentions a popular league, else Upcoming when it
      mentions a lower-division keyword, else Active. */
  function GetStatus(item: Item): (r: Option<Status>)
    requires !IsSportCard(item) ==> item.strLeague.Some?
    ensures IsSportCard(item) <==> r.None?
    ensures !IsSportCard(item) ==>
      var name := Lower(item.strLeague.value);
      && (r == Some(Popular) <==> MentionsAny(name, PopularLeagues))
      && (r == Some(Upcoming) <==> !MentionsAny(name, PopularLeagues) && MentionsAny(name, UpcomingKeywords))
      && (r == Some(Active) <==> !MentionsAny(name, PopularLeagues) && !MentionsAny(name, UpcomingKeywords))
  {
    if IsSportCard(item) then None
    else
      var name := Lower(item.strLeague.value);
      assert StatusRules[0].outcome == Popular && StatusRules[1].outcome == Upcoming;
      assert |StatusRules| == 2;
      Some(Classify(StatusRules, name, Active))
  }

  // ----- description ------------------------------------------------------

  /** The generated league descriptions, from the most specific down. */
  datatype Tier = TopTier | SecondTier | International | Professional

  const DescriptionRules := [
    Rule(["premier"], TopTier),
    Rule(["championship"], SecondTier),
    Rule(["world cup", "champions"], International),
    Rule(["division", "league"], Professional)]

  /** The words before and after the sport's name in each generated text. */
  function TierFrame(tier: Tier): (string, string) {
    match tier
    case TopTier => ("Top-tier professional ", " league with elite teams competing for the championship")
    case SecondTier => ("Second-tier ", " competition featuring competitive teams")
    case International => ("International ", " competition featuring the world's best teams")
    case Professional => ("Professional ", " league with teams competing for glory")
  }

  /** The text generated for a league without a description of its own.
      Every such text names the league's sport (as "undefined" when it has
      none), and the fallback text also names the alternate name or
      "Professional league". */
  function TierText(tier: Option<Tier>, league: Item): (r: string)
    ensures Includes(r, Interp(league.strSport))
    ensures tier.None? ==> Includes(r, Interp(Or(league.strLeagueAlternate, Some("Professional league"))))
  {
    var sport := Interp(league.strSport);
    match tier
    case Some(t) =>
      var (pre, post) := TierFrame(t);
      IncludesMiddle(pre, sport, post);
      pre + sport + post
    case None =>
      var alt := Interp(Or(league.strLeagueAlternate, Some("Professional league")));
      var sep := " competition - ";
      IncludesEnds(sport, sep, alt);
      sport + sep + alt
  }

  /** A league card's description: its own English description when it has
      one, otherwise the text of the first keyword group its lower-cased
      name mentions, in the order premier, championship, world cup or
      champions, division or league, and a generic text when none does. */
  function LeagueDescription(league: Item): (r: string)
    requires !Truthy(league.strDescriptionEN) ==> league.strLeague.Some?
    ensures Truthy(league.strDescriptionEN) ==> r == league.strDescriptionEN.value
    ensures !Truthy(league.strDescriptionEN) ==>
      var name := Lower(league.strLeague.value);
      && (MentionsAny(name, ["premier"]) ==> r == TierText(Some(TopTier), league))
      && (!MentionsAny(name, ["premier"]) && MentionsAny(name, ["championship"]) ==>
            r == TierText(Some(SecondTier), league))
      && (!MentionsAny(name, ["premier"]) && !MentionsAny(name, ["championship"])
          && MentionsAny(name, ["world cup", "champions"]) ==>
            r == TierText(Some(International), league))
      && (!MentionsAny(name, ["premier"]) && !MentionsAny(name, ["championship"])
          && !MentionsAny(name, ["world cup", "champions"]) && MentionsAny(name, ["division", "league"]) ==>
            r == TierText(Some(Professional), league))
      && (!MentionsAny(name, ["premier"]) && !MentionsAny(name, ["championship"])
          && !MentionsAny(name, ["world cup", "champions"]) && !MentionsAny(name, ["division", "league"]) ==>
            r == TierText(None, league))
  {
    if Truthy(league.strDescriptionEN) then league.strDescriptionEN.value
    else
      var name := Lower(league.strLeague.value);
      var tier := match FirstMatch(DescriptionRules, name)
        case Some(i) => Some(DescriptionRules[i].outcome)
        case None => None;
      TierText(tier, league)
  }

  /** A sport card's description: `strSportDescription || strFormat`. */
  function SportDescription(sport: Item): (r: Option<string>)
    ensures Truthy(sport.strSportDescription) ==> r == sport.strSportDescription
    ensures !Truthy(sport.strSportDescription) ==> r == sport.strFormat
  {
    Or(sport.strSportDescription, sport.strFormat)
  }

  // ----- image ------------------------------------------------------------

  /** `getSportImageBySportName`'s table. */
  const SportImages: map<string, string> := map[
    "Soccer" := "https://images.unsplash.com/photo-1579952363873-27f3bade9f55?w=800&q=80",
    "Basketball" := "https://images.unsplash.com/photo-1546519638-68e109498ffc?w=800&q=80",
    "American Football" := "https://images.unsplash.com/photo-1560272564-c83b66b1ad12?w=800&q=80",
    "Ice Hockey" := "https://images.unsplash.com/photo-1515703407324-5f753afd8be8?w=800&q=80",
    "Rugby" := "https://images.unsplash.com/photo-1540747913346-19e32dc3e97e?w=800&q=80",
    "Tennis" := "https://images.unsplash.com/photo-1622279457486-62dcc4a431d6?w=800&q=80",
    "Cricket" := "https://images.unsplash.com/photo-1624526267942-ab0ff8a3e972?w=800&q=80",
    "Baseball" := "https://images.unsplash.com/photo-1566577739112-5180d4bf9390?w=800&q=80",
    "Golf" := "https://images.unsplash.com/photo-1535131749006-b7f58c99034b?w=800&q=80",
    "Motorsport" := "https://images.unsplash.com/photo-1568605117036-5fe5e7bab0b7?w=800&q=80",
    "Fighting" := "https://images.unsplash.com/photo-1555597408-26bc8e548a46?w=800&q=80",
    "Handball" := "https://images.unsplash.com/photo-1551958219-acbc608c6377?w=800&q=80",
    "Cycling" := "https://images.unsplash.com/photo-1541625602330-2277a4c46182?w=800&q=80",
    "Volleyball" := "https://images.unsplash.com/photo-1612872087720-bb876e2e67d1?w=800&q=80",
    "Darts" := "https://images.unsplash.com/photo-1587280501635-68a0e82cd5ff?w=800&q=80",
    "Snooker" := "https://images.unsplash.com/photo-1534158914592-062992fbe900?w=800&q=80",
    "Badminton" := "https://images.unsplash.com/photo-1626224583764-f87db24ac4ea?w=800&q=80",
    "Table Tennis" := "https://images.unsplash.com/photo-1609710228159-0fa9bd7c0827?w=800&q=80"]

  /** `sportImageMap[sportName]`; an absent name is looked up as the
      property "undefined", which the table does not have. */
  function SportImage(sportName: Option<string>): (r: Option<string>)
    ensures sportName.None? ==> r.None?
    ensures sportName.Some? ==> (r.Some? <==> sportName.value in SportImages)
    ensures r.Some? ==> r.value in SportImages.Values
    ensures sportName.Some? && sportName.value in SportImages ==> r == Some(SportImages[sportName.value])
  {
    var key := Interp(sportName);
    assert "undefined" !in SportImages;
    if key in SportImages then Some(SportImages[key]) else None
  }

  datatype CardImage = CardImage(url: Option<string>, isLogo: bool)

  /** The card image: a sport's thumbnail; for a league the first truthy of
      badge, logo and banner shown as a logo, and otherwise the picture for
      its sport. */
  function ItemImage(item: Item): (r: CardImage)
    ensures IsSportCard(item) ==> r == CardImage(item.strSportThumb, false)
    ensures !IsSportCard(item) ==>
      && (r.isLogo <==> Truthy(item.strBadge) || Truthy(item.strLogo) || Truthy(item.strBanner))
      && (Truthy(item.strBadge) ==> r.url == item.strBadge)
      && (!Truthy(item.strBadge) && Truthy(item.strLogo) ==> r.url == item.strLogo)
      && (!Truthy(item.strBadge) && !Truthy(item.strLogo) && Truthy(item.strBanner) ==> r.url == item.strBanner)
      && (!r.isLogo ==> r.url == SportImage(item.strSport))
  {
    if IsSportCard(item) then CardImage(item.strSportThumb, false)
    else
      var badge := Or(Or(item.strBadge, item.strLogo), item.strBanner);
      if Truthy(badge) then CardImage(badge, true) else CardImage(SportImage(item.strSport), false)
  }

  // ----- favourites and navigation ----------------------------------------

  /** The identifier this screen uses: `idSport || idLeague`. */
  function HomeKey(item: Item): Option<string> {
    Or(item.idSport, item.idLeague)
  }

  /** `isFavourite`: some favourite has the same `idSport || idLeague`.
      While the item and every favourite is a sport or a league this is the
      slice's own test on the identifier. */
  predicate IsFavourite(favourites: seq<Item>, item: Item): (r: bool)
    ensures item in favourites ==> r
    ensures HasSportOrLeagueId(item) && (forall k :: 0 <= k < |favourites| ==> HasSportOrLeagueId(favourites[k])) ==>
      (r <==> Favourites.HasId(favourites, Favourites.ItemId(item)))
  {
    exists k :: 0 <= k < |favourites| && HomeKey(favourites[k]) == HomeKey(item)
  }

  /** `handleFavourite`: remove by `idSport || idLeague` when the item counts
      as a favourite here, otherwise dispatch `addFavourite`, which itself
      does nothing when the slice's identifier is already taken. */
  function HandleFavourite(favourites: seq<Item>, item: Item): (r: seq<Item>)
    ensures IsFavourite(favourites, item) ==> r == Favourites.Remove(favourites, HomeKey(item))
    ensures IsFavourite(favourites, item) ==>
      forall x :: x in r <==> x in favourites && Favourites.ItemId(x) != HomeKey(item)
    ensures !IsFavourite(favourites, item) && Favourites.HasId(favourites, Favourites.ItemId(item)) ==>
      r == favourites
    ensures !IsFavourite(favourites, item) && !Favourites.HasId(favourites, Favourites.ItemId(item)) ==>
      r == favourites + [item]
  {
    if IsFavourite(favourites, item) then
      Favourites.RemoveMembers(favourites, HomeKey(item));
      Favourites.Remove(favourites, HomeKey(item))
    else
      var r := Favourites.Add(favourites, item);
      assert !Favourites.HasId(favourites, Favourites.ItemId(item)) ==> r == r[..|favourites|] + [r[|favourites|]];
      r
  }

  /** An item of the sports or leagues list: one of its first two ids is set. */
  predicate HasSportOrLeagueId(item: Item) {
    Truthy(item.idSport) || Truthy(item.idLeague)
  }

  /** For such items this screen's key is the slice's identifier. */
  lemma HomeKeyIsItemId(item: Item)
    requires HasSportOrLeagueId(item)
    ensures HomeKey(item) == Favourites.ItemId(item)
  {
  }

  /** While every favourite is a sport or a league, the toggle flips the
      item's membership, and toggling twice restores it. */
  lemma {:induction false} ToggleFlips(favourites: seq<Item>, item: Item)
    requires HasSportOrLeagueId(item)
    requires forall k :: 0 <= k < |favourites| ==> HasSportOrLeagueId(favourites[k])
    ensures var once := HandleFavourite(favourites, item);
      && (IsFavourite(once, item) <==> !IsFavourite(favourites, item))
      && (forall k :: 0 <= k < |once| ==> HasSportOrLeagueId(once[k]))
      && (IsFavourite(HandleFavourite(once, item), item) <==> IsFavourite(favourites, item))
  {
    var once := HandleFavourite(favourites, item);
    OneToggleFlips(favourites, item);
    OneToggleFlips(once, item);
  }

  lemma OneToggleFlips(favourites: seq<Item>, item: Item)
    requires HasSportOrLeagueId(item)
    requires forall k :: 0 <= k < |favourites| ==> HasSportOrLeagueId(favourites[k])
    ensures var once := HandleFavourite(favourites, item);
      && (IsFavourite(once, item) <==> !IsFavourite(favourites, item))
      && (forall k :: 0 <= k < |once| ==> HasSportOrLeagueId(once[k]))
  {
    var key := HomeKey(item);
    HomeKeyIsItemId(item);
    var once := HandleFavourite(favourites, item);
    if IsFavourite(favourites, item) {
      Favourites.RemoveMembers(favourites, key);
      forall k | 0 <= k < |once| ensures HasSportOrLeagueId(once[k]) && HomeKey(once[k]) != key {
        assert once[k] in favourites;
        HomeKeyIsItemId(once[k]);
      }
    } else {
      assert !Favourites.HasId(favourites, key) by {
        forall k | 0 <= k < |favourites| ensures Favourites.ItemId(favourites[k]) != key {
          HomeKeyIsItemId(favourites[k]);
        }
      }
      assert once[|favourites|] == item;
    }
  }

  /** A team favourite whose id string equals a sport's id is invisible to
      this screen's membership test, yet it blocks `addFavourite`: the heart
      of that sport can never be switched on. */
  lemma TeamIdBlocksAdd()
    ensures var team := Blank.(idTeam := Some("102"));
      var sport := Blank.(idSport := Some("102"));
      && !IsFavourite([team], sport)
      && HandleFavourite([team], sport) == [team]
  {
    var team := Blank.(idTeam := Some("102"));
    var sport := Blank.(idSport := Some("102"));
    assert Favourites.ItemId(team) == Favourites.ItemId(sport);
    assert Favourites.ItemId([team][0]) == Favourites.ItemId(sport);
  }

  /** `handleItemPress`: a sport when `idSport` is truthy, else a league. */
  function ItemKind(item: Item): (r: Kind)
    ensures r != Team
    ensures r == Sport <==> Truthy(item.idSport)
  {
    if Truthy(item.idSport) then Sport else League
  }
}
