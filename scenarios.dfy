/**
 * Client code: sequences of requests against one `App`, and what follows
 * from the handlers' contracts alone.
 */
module Scenarios {
  import opened Wrappers
  import opened Schema
  import opened Store
  import opened Auth
  import opened Handlers

  /** Signing up with a free name and then logging in with the same password authenticates the session. */
  method SignupThenLogin(app: App, s: Session, name: string, password: string, now: Timestamp)
    returns (signup: Response, login: Response)
    requires app.Valid() && name != "" && FindByName(app.users, name).None?
    modifies app, s, app.loggeduser
    ensures app.Valid()
    ensures signup == Redirect(LoginPage) && login == Redirect(HomePage)
    ensures s.isAuth && IsAuth(s) == Next
    ensures s.isAuthAdmin == old(s.isAuthAdmin)
    ensures app.loggeduser.name == name && app.loggeduser.isAdmin == Some(false)
  {
    signup := app.Signup(name, password, now);
    login := app.Login(s, name, password);
  }

  /** A second signup under the same name is refused and the table keeps the first record only. */
  method SignupTwice(app: App, name: string, first: string, second: string, now: Timestamp, later: Timestamp)
    returns (r1: Response, r2: Response)
    requires app.Valid() && name != "" && FindByName(app.users, name).None?
    modifies app
    ensures app.Valid()
    ensures r1 == Redirect(LoginPage) && r2 == Send(200, UserExists)
    ensures app.users == old(app.users) + [User(name, app.crypt.hash(first), now, now, false)]
  {
    r1 := app.Signup(name, first, now);
    r2 := app.Signup(name, second, later);
  }

  /**
   * The admin flag lives in the session: an admin user logs in through
   * `session`; another admin session then clears that user's admin flag;
   * `session` still passes the admin gate.
   */
  method RevokedAdminKeepsSession(app: App, admin: Session, session: Session, name: string, password: string, now: Timestamp)
    returns (login: Response, edit: Response)
    requires app.Valid() && admin.isAuthAdmin && FindByName(app.users, name).Some?
    requires app.users[FindByName(app.users, name).value].isAdmin
    requires app.crypt.compare(password, app.users[FindByName(app.users, name).value].password)
    modifies app, session, app.loggeduser
    ensures app.Valid()
    ensures login == Redirect(HomePage) && edit == Redirect(AdminPage)
    ensures FindByName(app.users, name).Some? && !app.users[FindByName(app.users, name).value].isAdmin
    ensures IsAuthAdmin(session) == Next
  {
    login := app.Login(session, name, password);
    assert session.isAuthAdmin;
    edit := app.AdminEdit(admin, name, name, password, "", now);
  }

  /** A post created with two images and then edited with no upload ends with no images. */
  method CreateThenEditWithoutFiles(app: App, name: string, description: string, now: Timestamp, later: Timestamp)
    returns (id: PostId)
    requires app.Valid() && name != "" && description != ""
    modifies app
    ensures app.Valid()
    ensures id in app.posts && app.posts[id].images == [] && app.posts[id].createdAt == now
    ensures app.posts[id].updatedAt == Some(later)
  {
    id := app.nextPostId;
    var created := app.NewPost(Some(["uploads/a.png", "uploads/b.png"]), name, description, now);
    assert app.posts[id].images == ["uploads/a.png", "uploads/b.png"];
    var edited := app.EditPost(id, Some([]), name, description, later);
  }

  /** Deleting a user leaves exactly one more tombstone, carrying that name, and the name is free again. */
  method DeleteFreesName(app: App, admin: Session, name: string, password: string, now: Timestamp, later: Timestamp)
    returns (r: Response, again: Response)
    requires app.Valid() && admin.isAuthAdmin && FindByName(app.users, name).Some?
    modifies app
    ensures app.Valid()
    ensures r == Redirect(AdminPage) && again == Redirect(LoginPage)
    ensures |app.deletedUsers| == |old(app.deletedUsers)| + 1
    ensures app.deletedUsers[|app.deletedUsers| - 1].name == name
  {
    r := app.AdminDelete(admin, name, now);
    again := app.Signup(name, password, later);
  }
}
