/** The login page (src/pages/Login.tsx): seeding of the default admin in
    local storage and the decision procedure of `handleLogin`. Local storage
    is the `users` list and the `currentUser` entry; the query on the
    `reviewers` table is an input. */
module Login {
  import opened Wrappers
  import opened Seqs
  import opened Records
  import ReviewerDashboard

  /** An entry of the `users` list in local storage. */
  datatype LocalUser = LocalUser(id: string, username: string, password: string, role: string, createdAt: string)

  /** The account `initializeDefaultAdmin` writes into an empty list. */
  function DefaultAdmin(now: string): LocalUser {
    LocalUser("admin-1", "admin", "admin123", "super_admin", now)
  }

  /** What `currentUser` holds: a local user as stored, or the session
      built for a reviewer row. */
  datatype CurrentUser = LocalSession(user: LocalUser) | ReviewerSession(session: Session)

  /** Where `handleLogin` leaves the user; the last three are the toasts of
      the refused attempts. */
  datatype LoginOutcome =
    | Navigated(path: string)
    | Deactivated
    | InvalidCredentials
    | LoginError(message: string)

  /** `u.username === username && u.password === password` */
  predicate SameCredentials(u: LocalUser, username: string, password: string) {
    u.username == username && u.password == password
  }

  /** `users.find(…)`: the first local user with exactly these credentials. */
  function LocalMatch(users: seq<LocalUser>, username: string, password: string): (r: Option<LocalUser>)
    ensures r.Some? ==> r.value in users && SameCredentials(r.value, username, password)
    ensures r.None? <==> forall i :: 0 <= i < |users| ==> !SameCredentials(users[i], username, password)
    ensures r.Some? ==> exists k :: 0 <= k < |users| && users[k] == r.value
                          && forall i :: 0 <= i < k ==> !SameCredentials(users[i], username, password)
  {
    Find(users, (u: LocalUser) => SameCredentials(u, username, password))
  }

  /** `.eq('username', username).eq('password', password)` on the
      `reviewers` table: the rows with exactly the entered credentials, in
      the order the table gives them. */
  function MatchingReviewers(table: seq<Reviewer>, username: string, password: string): (rows: seq<Reviewer>)
    ensures forall i :: 0 <= i < |rows| ==> rows[i] in table && rows[i].username == username && rows[i].password == password
    ensures forall r :: r in table && r.username == username && r.password == password ==> r in rows
  {
    Filter(table, (r: Reviewer) => r.username == username && r.password == password)
  }

  /** The page a local user is sent to. */
  function HomeOf(role: string): (path: string)
    ensures path == "/admin" <==> role == "super_admin"
    ensures path == "/admin" || path == "/reviewer"
  {
    if role == "super_admin" then "/admin" else "/reviewer"
  }

  /** The session stored for a reviewer row. */
  function ReviewerSessionOf(r: Reviewer): (s: Session)
    ensures s.role == "reviewer" && s.id == r.id && s.username == r.username
  {
    Session(r.id, r.username, r.name, r.email, "reviewer", r.createdAt)
  }

  /** A fresh browser can sign in as the seeded admin and lands on /admin. */
  lemma DefaultAdminSignsIn(now: string)
    ensures LocalMatch([DefaultAdmin(now)], "admin", "admin123") == Some(DefaultAdmin(now))
    ensures HomeOf(DefaultAdmin(now).role) == "/admin"
  {
    var r := LocalMatch([DefaultAdmin(now)], "admin", "admin123");
    assert SameCredentials([DefaultAdmin(now)][0], "admin", "admin123");
  }

  /** The session written for a reviewer passes the reviewer dashboard's
      role gate, and it is the reviewer's own id the dashboard loads. */
  lemma ReviewerSessionEntersDashboard(r: Reviewer)
    ensures ReviewerDashboard.MayEnter(Some(ReviewerSessionOf(r)))
    ensures ReviewerSessionOf(r).id == r.id
  {
  }

  class LoginPage {
    /** The `users` entry of local storage. */
    var users: seq<LocalUser>
    var currentUser: Option<CurrentUser>
    var username: string
    var password: string
    var isLoading: bool

    constructor (users: seq<LocalUser>, currentUser: Option<CurrentUser>)
      ensures this.users == users && this.currentUser == currentUser
      ensures username == "" && password == "" && !isLoading
    {
      this.users := users;
      this.currentUser := currentUser;
      username := "";
      password := "";
      isLoading := false;
    }

    /** `initializeDefaultAdmin`: only an empty list gets the default admin. */
    method InitializeDefaultAdmin(now: string)
      modifies this
      ensures old(users) == [] ==> users == [DefaultAdmin(now)]
      ensures old(users) != [] ==> users == old(users)
      ensures currentUser == old(currentUser) && isLoading == old(isLoading)
      ensures username == old(username) && password == old(password)
    {
      if |users| == 0 {
        users := [DefaultAdmin(now)];
      }
    }

    /** `handleLogin`. A local match wins and the reviewers table is not
        queried (`queried` is false); otherwise the first reviewer row the
        query returns signs in unless it is deactivated. Only a successful
        sign-in writes `currentUser`; `isLoading` ends false. `table` is the
        `reviewers` table as the query reads it, or the query's error. */
    method HandleLogin(now: string, table: Result<seq<Reviewer>, string>) returns (outcome: LoginOutcome, queried: bool)
      modifies this
      ensures !isLoading
      ensures old(users) == [] ==> users == [DefaultAdmin(now)]
      ensures old(users) != [] ==> users == old(users)
      ensures username == old(username) && password == old(password)
      ensures !outcome.Navigated? ==> currentUser == old(currentUser)
      ensures var m := LocalMatch(users, username, password);
        m.Some? ==> !queried && currentUser == Some(LocalSession(m.value)) && outcome == Navigated(HomeOf(m.value.role))
      ensures var m := LocalMatch(users, username, password);
        m.None? ==> (queried
        && (table.Err? ==> outcome == LoginError("Database query failed") && currentUser == old(currentUser))
        && (table.Ok? ==>
              var rows := MatchingReviewers(table.value, username, password);
              (rows == [] ==> outcome == InvalidCredentials && currentUser == old(currentUser))
              && (rows != [] && !rows[0].isActive ==> outcome == Deactivated && currentUser == old(currentUser))
              && (rows != [] && rows[0].isActive ==>
                    outcome == Navigated("/reviewer") && currentUser == Some(ReviewerSession(ReviewerSessionOf(rows[0]))))))
      ensures outcome == Navigated("/reviewer") && LocalMatch(users, username, password).None? ==>
        table.Ok? && (exists r :: r in table.value && r.username == username && r.password == password && r.isActive
                                 && currentUser == Some(ReviewerSession(ReviewerSessionOf(r))))
    {
      isLoading := true;
      InitializeDefaultAdmin(now);
      var localUser := LocalMatch(users, username, password);
      if localUser.Some? {
        currentUser := Some(LocalSession(localUser.value));
        isLoading := false;
        return Navigated(HomeOf(localUser.value.role)), false;
      }
      queried := true;
      match table {
        case Err(_) =>
          outcome := LoginError("Database query failed");
        case Ok(rows) =>
          var reviewers := MatchingReviewers(rows, username, password);
          if |reviewers| > 0 {
            var reviewer := reviewers[0];
            if !reviewer.isActive {
              outcome := Deactivated;
            } else {
              currentUser := Some(ReviewerSession(ReviewerSessionOf(reviewer)));
              outcome := Navigated("/reviewer");
            }
          } else {
            outcome := InvalidCredentials;
          }
      }
      isLoading := false;
    }
  }
}
