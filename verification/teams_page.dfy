/**
 * The teams page (src/app/times/page.tsx): the four header figures and each team's total.
 */
module TeamsPage {
  import opened Relational
  import opened Database
  import opened Display
  import Api

  /** Number of teams, then the members, items and locations summed over them. */
  datatype TeamsHeader = TeamsHeader(teamCount: int, members: int, items: int, locations: int)

  function MembersOf(t: Team): int { OrZero(t.membersCount) }
  function ItemsOf(t: Team): int { OrZero(t.itemsCount) }
  function LocationsOf(t: Team): int { OrZero(t.locationsCount) }

  /** The header: `teams.length` and three `reduce` sums, a missing count read as 0. */
  function Header(teams: seq<Team>): (h: TeamsHeader)
    ensures h.teamCount == |teams|
    ensures h.members == SumOf(teams, MembersOf)
    ensures h.items == SumOf(teams, ItemsOf)
    ensures h.locations == SumOf(teams, LocationsOf)
  {
    ReduceIsSum(teams, MembersOf, 0);
    ReduceIsSum(teams, ItemsOf, 0);
    ReduceIsSum(teams, LocationsOf, 0);
    TeamsHeader(|teams|, Reduce(teams, MembersOf, 0), Reduce(teams, ItemsOf, 0), Reduce(teams, LocationsOf, 0))
  }

  /** A team card's total: members, items and locations, each missing count read as 0. */
  function TeamTotal(t: Team): int {
    MembersOf(t) + ItemsOf(t) + LocationsOf(t)
  }

  /** The team cards' totals add up to the three header sums together. */
  lemma {:induction false} CardTotalsMatchHeader(teams: seq<Team>)
    ensures SumOf(teams, TeamTotal) == Header(teams).members + Header(teams).items + Header(teams).locations
  {
    if teams != [] {
      CardTotalsMatchHeader(teams[1..]);
    }
  }

  /** Fetched from a store without the memberships table, the members header shows 0. */
  lemma NoMembersWithoutMembershipTable(db: Store, limit: nat)
    ensures Header(Api.GetTeams(db, false, limit)).members == 0
  {
    var teams := Api.GetTeams(db, false, limit);
    Api.GetTeamsWithoutMemberships(db, limit);
    SumOfZeros(teams, MembersOf);
  }
}
