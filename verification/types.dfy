/** The records the application passes around. Sports, leagues and teams
    arrive from the catalog API as plain objects of three shapes and are kept
    together in one list of favourites, distinguished only by which
    identifier field they carry; `Item` therefore has every field optional. */
module Types {
  import opened Js

  datatype Item = Item(
    // identifiers: a sport, a league and a team each carry one of these
    idSport: Option<string>,
    idLeague: Option<string>,
    idTeam: Option<string>,
    // sport fields
    strSport: Option<string>,
    strFormat: Option<string>,
    strSportThumb: Option<string>,
    strSportDescription: Option<string>,
    // league fields (a league also carries `strSport`)
    strLeague: Option<string>,
    strLeagueAlternate: Option<string>,
    strBadge: Option<string>,
    strLogo: Option<string>,
    strBanner: Option<string>,
    strDescriptionEN: Option<string>,
    // team fields
    strTeam: Option<string>,
    strTeamBadge: Option<string>,
    strStadium: Option<string>)

  /** An object with none of the fields set; records are built from it with
      datatype update, `Blank.(idLeague := Some("4328"))`. */
  const Blank := Item(None, None, None, None, None, None, None, None,
                      None, None, None, None, None, None, None, None)

  /** The `type` route parameter of the details screen. */
  datatype Kind = Sport | League | Team

  /** The session user kept by the auth state and persisted at login. */
  datatype User = User(
    id: string,
    username: Option<string>,
    email: Option<string>,
    fullName: Option<string>)
}
