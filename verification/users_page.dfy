/**
 * The users page (src/app/usuarios/page.tsx): the three header figures and the avatar initial.
 */
module UsersPage {
  import opened Relational
  import opened Database
  import opened Display
  import Api

  /** Number of users, then the teams created and the memberships summed over them. */
  datatype UsersHeader = UsersHeader(userCount: int, teamsCreated: int, memberships: int)

  function TeamsOf(u: User): int { OrZero(u.teamsCount) }
  function MembershipsOf(u: User): int { OrZero(u.membershipsCount) }

  /** The header: `users.length` and two `reduce` sums, a missing count read as 0. */
  function Header(users: seq<User>): (h: UsersHeader)
    ensures h.userCount == |users|
    ensures h.teamsCreated == SumOf(users, TeamsOf)
    ensures h.memberships == SumOf(users, MembershipsOf)
  {
    ReduceIsSum(users, TeamsOf, 0);
    ReduceIsSum(users, MembershipsOf, 0);
    UsersHeader(|users|, Reduce(users, TeamsOf, 0), Reduce(users, MembershipsOf, 0))
  }

  /** For the users getUsers returns, both sums are 0 and the count is the rows returned. */
  lemma HeaderOfFetchedUsers(db: Store, limit: nat)
    ensures var h := Header(Api.GetUsers(db, limit));
      h.teamsCreated == 0 && h.memberships == 0 &&
      h.userCount == if limit < |db.users| then limit else |db.users|
  {
    var users := Api.GetUsers(db, limit);
    SumOfZeros(users, TeamsOf);
    SumOfZeros(users, MembershipsOf);
  }

  predicate IsAsciiLower(c: char) { 'a' <= c <= 'z' }

  /** `toUpperCase` on one character, for the ASCII letters. */
  function ToUpper(c: char): (u: char)
    ensures !IsAsciiLower(u)
    ensures IsAsciiLower(c) ==> u as int == c as int - 32 && 'A' <= u <= 'Z'
    ensures !IsAsciiLower(c) ==> u == c
  {
    if IsAsciiLower(c) then (c as int - 'a' as int + 'A' as int) as char else c
  }

  /**
   * `email.charAt(0).toUpperCase()`: empty for an empty email, otherwise the first character,
   * a lowercase ASCII letter turned into its capital.
   */
  function Initial(email: string): (r: string)
    ensures |r| == if email == [] then 0 else 1
    ensures forall c :: c in r ==> !IsAsciiLower(c)
    ensures email != [] && !IsAsciiLower(email[0]) ==> r == email[..1]
    ensures email != [] && IsAsciiLower(email[0]) ==> r[0] as int == email[0] as int - 32
  {
    if email == [] then [] else [ToUpper(email[0])]
  }

  /** The initial ignores the case of the email's first letter and the rest of the email. */
  lemma InitialIgnoresCase(e: string, e': string)
    requires e != [] && e' != []
    requires e[0] == e'[0] || ToUpper(e[0]) == e'[0]
    ensures Initial(e) == Initial(e')
  {
  }
}
