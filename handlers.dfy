/**
 * The route handlers of index.js, run one after another over an in-memory
 * stand-in for the database: the `users`, `deletedUsers` and `posts`
 * collections are fields of `App`, the session of the request is a `Session`
 * object, and the clock is the parameter `now`.
 *
 * A handler guarded by a gate first evaluates it and, when refused, answers
 * with the gate's redirect and changes nothing.
 */
module Handlers {
  import opened Wrappers
  import opened Schema
  import opened Store
  import opened Auth

  /** A post's `_id`; fresh ids are drawn from a counter. */
  type PostId = nat

  /** What a handler answers. */
  datatype Response =
    | Redirect(location: string)
    | Send(status: nat, body: string)
      /** A body made of `prefix` followed by the exception's message (not modelled). */
    | SendError(status: nat, prefix: string)
      /** An error passed on to Express's default error handler. */
    | DefaultErrorHandler(status: nat)
      /** The handler's promise was rejected outside any try/catch: nothing is sent. */
    | Unanswered

  const HomePage := "/"
  const AdminPage := "/admin"
  const UserExists := "User already exists. Please choose another username."
  const UserNotFound := "User not found"
  const PostNotFound := "Post not found"
  const WrongUsername := "Wrong username"
  const WrongPassword := "Wrong password"

  /** `upload.array('images', 3)`: more files than this make multer refuse the request. */
  const MaxUploads := 3

  /** Multer refuses a multipart request carrying more files than MaxUploads; `files` is None for any other request. */
  predicate TooManyFiles(files: Option<seq<string>>) {
    files.Some? && |files.value| > MaxUploads
  }

  /** How a checkbox reads: `req.body.isAdmin === 'on'`. */
  predicate Checked(field: string) {
    field == "on"
  }

  /** The outcome of check-then-insert on the `users` collection. */
  datatype CreateOutcome = Created | Duplicate | Invalid

  class App {
    var users: seq<User>
    var deletedUsers: seq<DeletedUser>
    var posts: map<PostId, Post>
    var nextPostId: PostId
    const crypt: Bcrypt
    const loggeduser: LoggedUser

    /**
     * Every stored record passed its schema's validation, names are unique
     * among users, and every post id was drawn before the counter's value.
     */
    ghost predicate Valid()
      reads this
    {
      && Sound(crypt)
      && (forall i :: 0 <= i < |users| ==> ValidUser(users[i]))
      && UniqueNames(users)
      && (forall i :: 0 <= i < |deletedUsers| ==> ValidDeletedUser(deletedUsers[i]))
      && (forall id :: id in posts ==> id < nextPostId && ValidPost(posts[id]))
    }

    /** Empty collections and the initial `loggeduser`. */
    constructor (crypt: Bcrypt)
      requires Sound(crypt)
      ensures Valid() && fresh(loggeduser)
      ensures users == [] && deletedUsers == [] && posts == map[] && nextPostId == 0
      ensures this.crypt == crypt
      ensures loggeduser.name == "" && loggeduser.isAdmin == None
    {
      users, deletedUsers, posts, nextPostId := [], [], map[], 0;
      this.crypt := crypt;
      loggeduser := new LoggedUser();
    }

    /**
     * Check-then-insert, shared by signup and admin-create: findOne by name;
     * if absent, hash the password and insert one record, which validation
     * refuses when the name is empty.
     */
    method CreateUser(name: string, password: string, isAdmin: bool, now: Timestamp) returns (outcome: CreateOutcome)
      requires Valid()
      modifies this
      ensures Valid()
      ensures deletedUsers == old(deletedUsers) && posts == old(posts) && nextPostId == old(nextPostId)
      ensures FindByName(old(users), name).Some? ==> outcome == Duplicate && users == old(users)
      ensures FindByName(old(users), name).None? && name == "" ==> outcome == Invalid && users == old(users)
      ensures FindByName(old(users), name).None? && name != "" ==>
        && outcome == Created
        && users == old(users) + [User(name, crypt.hash(password), now, now, isAdmin)]
        && FindByName(users, name) == Some(|old(users)|)
    {
      if FindByName(users, name).Some? {
        return Duplicate;
      }
      var hashed := crypt.hash(password);
      match CastUser(UserDoc(Some(name), Some(hashed), Some(now), Some(now), Some(isAdmin)))
      case None =>
        outcome := Invalid;
      case Some(u) =>
        InsertKeepsUnique(users, u);
        users := users + [u];
        outcome := Created;
    }

    /** POST /signup: a new non-admin user, unless the name is taken. */
    method Signup(username: string, password: string, now: Timestamp) returns (r: Response)
      requires Valid()
      modifies this
      ensures Valid()
      ensures deletedUsers == old(deletedUsers) && posts == old(posts) && nextPostId == old(nextPostId)
      ensures FindByName(old(users), username).Some? ==> r == Send(200, UserExists) && users == old(users)
      ensures FindByName(old(users), username).None? && username == "" ==> r == Unanswered && users == old(users)
      ensures FindByName(old(users), username).None? && username != "" ==>
        && r == Redirect(LoginPage)
        && users == old(users) + [User(username, crypt.hash(password), now, now, false)]
        && FindByName(users, username) == Some(|old(users)|)
    {
      var outcome := CreateUser(username, password, false, now);
      match outcome
      case Duplicate => r := Send(200, UserExists);
      case Invalid => r := Unanswered;
      case Created => r := Redirect(LoginPage);
    }

    /** POST /admin/new (admin only): as signup, but the admin flag comes from the checkbox. */
    method AdminNew(s: Session, username: string, password: string, isAdminField: string, now: Timestamp)
      returns (r: Response)
      requires Valid()
      modifies this
      ensures Valid()
      ensures deletedUsers == old(deletedUsers) && posts == old(posts) && nextPostId == old(nextPostId)
      ensures !s.isAuthAdmin ==> r == Redirect(LoginPage) && users == old(users)
      ensures s.isAuthAdmin && FindByName(old(users), username).Some? ==>
        r == Send(200, UserExists) && users == old(users)
      ensures s.isAuthAdmin && FindByName(old(users), username).None? && username == "" ==>
        r == Unanswered && users == old(users)
      ensures s.isAuthAdmin && FindByName(old(users), username).None? && username != "" ==>
        && r == Redirect(AdminPage)
        && users == old(users) + [User(username, crypt.hash(password), now, now, Checked(isAdminField))]
        && FindByName(users, username) == Some(|old(users)|)
    {
      var gate := IsAuthAdmin(s);
      if gate.RedirectTo? {
        return Redirect(gate.location);
      }
      var outcome := CreateUser(username, password, Checked(isAdminField), now);
      match outcome
      case Duplicate => r := Send(200, UserExists);
      case Invalid => r := Unanswered;
      case Created => r := Redirect(AdminPage);
    }

    /**
     * POST /admin/edit/:name (admin only): overwrite name, password (always
     * rehashed), admin flag and update date of the named user, unless the
     * user is missing or the new name belongs to another user.
     */
    method AdminEdit(s: Session, name: string, newName: string, password: string, isAdminField: string, now: Timestamp)
      returns (r: Response)
      requires Valid()
      modifies this
      ensures Valid()
      ensures deletedUsers == old(deletedUsers) && posts == old(posts) && nextPostId == old(nextPostId)
      ensures !s.isAuthAdmin ==> r == Redirect(LoginPage) && users == old(users)
      ensures s.isAuthAdmin && FindByName(old(users), name).None? ==>
        r == Send(404, UserNotFound) && users == old(users)
      ensures s.isAuthAdmin && FindByName(old(users), name).Some? &&
              name != newName && FindByName(old(users), newName).Some? ==>
        r == Send(200, UserExists) && users == old(users)
      ensures s.isAuthAdmin && FindByName(old(users), name).Some? &&
              (name == newName || FindByName(old(users), newName).None?) ==>
        var i := FindByName(old(users), name).value;
        if newName == "" then
          r == Send(500, "Server error") && users == old(users)
        else
          && r == Redirect(AdminPage)
          && users == old(users)[i := User(newName, crypt.hash(password), old(users)[i].createdDate, now, Checked(isAdminField))]
          && FindByName(users, newName) == Some(i)
    {
      var gate := IsAuthAdmin(s);
      if gate.RedirectTo? {
        return Redirect(gate.location);
      }
      var found := FindByName(users, name);
      if found.None? {
        return Send(404, UserNotFound);
      }
      var i := found.value;
      if name != newName {
        var existing := FindByName(users, newName);
        if existing.Some? {
          return Send(200, UserExists);
        }
      }
      var isAdmin := Checked(isAdminField);
      var hashed := crypt.hash(password);
      var user := users[i];
      match CastUser(UserDoc(Some(newName), Some(hashed), Some(user.createdDate), Some(now), Some(isAdmin)))
      case None =>
        r := Send(500, "Server error");
      case Some(edited) =>
        ReplaceKeepsUnique(users, i, edited);
        users := users[i := edited];
        r := Redirect(AdminPage);
    }

    /**
     * GET /admin/delete/:name (admin only): append a tombstone with the user's
     * name, original creation date and the deletion date, then remove the user.
     */
    method AdminDelete(s: Session, name: string, now: Timestamp) returns (r: Response)
      requires Valid()
      modifies this
      ensures Valid()
      ensures posts == old(posts) && nextPostId == old(nextPostId)
      ensures !s.isAuthAdmin ==>
        r == Redirect(LoginPage) && users == old(users) && deletedUsers == old(deletedUsers)
      ensures s.isAuthAdmin && FindByName(old(users), name).None? ==>
        r == Send(404, UserNotFound) && users == old(users) && deletedUsers == old(deletedUsers)
      ensures s.isAuthAdmin && FindByName(old(users), name).Some? ==>
        var i := FindByName(old(users), name).value;
        && r == Redirect(AdminPage)
        && deletedUsers == old(deletedUsers) + [DeletedUser(name, old(users)[i].createdDate, now)]
        && users == RemoveAt(old(users), i)
        && FindByName(users, name).None?
    {
      var gate := IsAuthAdmin(s);
      if gate.RedirectTo? {
        return Redirect(gate.location);
      }
      var found := FindByName(users, name);
      if found.None? {
        return Send(404, UserNotFound);
      }
      var i := found.value;
      var userForDelete := users[i];
      match CastDeletedUser(DeletedUserDoc(Some(name), Some(userForDelete.createdDate), Some(now)))
      case None =>
        // a stored user's name is never empty, so the tombstone always validates
        assert false;
      case Some(tombstone) =>
        deletedUsers := deletedUsers + [tombstone];
        RemoveKeepsUnique(users, i);
        users := RemoveAt(users, i);
        r := Redirect(AdminPage);
    }

    /**
     * POST /login: on a matching password, mark the session authenticated,
     * mark it admin for an admin user (never clearing an earlier admin flag),
     * and copy the user's name and admin flag into `loggeduser`.
     */
    method Login(s: Session, username: string, password: string) returns (r: Response)
      requires Valid()
      modifies s, loggeduser
      ensures FindByName(users, username).None? ==>
        r == Send(200, WrongUsername) && unchanged(s) && unchanged(loggeduser)
      ensures FindByName(users, username).Some? ==>
        var u := users[FindByName(users, username).value];
        if crypt.compare(password, u.password) then
          && r == Redirect(HomePage)
          && s.isAuth
          && s.isAuthAdmin == (old(s.isAuthAdmin) || u.isAdmin)
          && s.lang == old(s.lang)
          && loggeduser.name == u.name && loggeduser.isAdmin == Some(u.isAdmin)
        else
          r == Send(200, WrongPassword) && unchanged(s) && unchanged(loggeduser)
      ensures old(s.Valid()) ==> s.Valid()
    {
      var found := FindByName(users, username);
      if found.None? {
        return Send(200, WrongUsername);
      }
      var user := users[found.value];
      var isPasswordMatch := crypt.compare(password, user.password);
      if isPasswordMatch {
        loggeduser.name := user.name;
        loggeduser.isAdmin := Some(user.isAdmin);
        s.isAuth := true;
        if user.isAdmin {
          s.isAuthAdmin := true;
          r := Redirect(HomePage);
        } else {
          r := Redirect(HomePage);
        }
      } else {
        r := Send(200, WrongPassword);
      }
    }

    /** POST /logout: the session is destroyed; the next request starts from an empty one. `loggeduser` is left as it was. */
    method Logout(s: Session) returns (r: Response)
      modifies s
      ensures s.Valid()
      ensures !s.isAuth && !s.isAuthAdmin && s.lang == None
      ensures r == Redirect(LoginPage)
    {
      s.isAuth, s.isAuthAdmin, s.lang := false, false, None;
      r := Redirect(LoginPage);
    }

    /** GET /change-lang/:lang: store the language in the session and go back to the referring page, or home. */
    method ChangeLang(s: Session, lang: string, referrer: string) returns (r: Response)
      modifies s
      ensures s.isAuth == old(s.isAuth) && s.isAuthAdmin == old(s.isAuthAdmin)
      ensures s.lang == Some(lang)
      ensures lang != "" ==> RequestLanguage(s) == lang
      ensures old(s.Valid()) ==> s.Valid()
      ensures r == Redirect(if referrer == "" then HomePage else referrer)
    {
      s.lang := Some(lang);
      r := Redirect(if referrer == "" then HomePage else referrer);
    }

    /**
     * POST /newpost (no gate): store a post whose images are exactly the
     * uploaded paths and whose creation date is now. `files` is `req.files`:
     * None when the request is not multipart, and then `req.files.map` throws.
     */
    method NewPost(files: Option<seq<string>>, postName: string, description: string, now: Timestamp) returns (r: Response)
      requires Valid()
      modifies this
      ensures Valid()
      ensures users == old(users) && deletedUsers == old(deletedUsers)
      ensures TooManyFiles(files) ==>
        r == DefaultErrorHandler(500) && posts == old(posts) && nextPostId == old(nextPostId)
      ensures !TooManyFiles(files) && (files.None? || postName == "" || description == "") ==>
        r == Send(500, "Failed to create new post") && posts == old(posts) && nextPostId == old(nextPostId)
      ensures !TooManyFiles(files) && files.Some? && postName != "" && description != "" ==>
        && r == Redirect(HomePage)
        && old(nextPostId) !in old(posts)
        && posts == old(posts)[old(nextPostId) := Post(files.value, postName, description, now, None, None)]
        && nextPostId == old(nextPostId) + 1
    {
      if TooManyFiles(files) {
        return DefaultErrorHandler(500);
      }
      if files.None? {
        return Send(500, "Failed to create new post");
      }
      var pathsToImages := files.value;
      match CastPost(PostDoc(Some(pathsToImages), Some(postName), Some(description), Some(now), None, None))
      case None =>
        r := Send(500, "Failed to create new post");
      case Some(newPost) =>
        posts := posts[nextPostId := newPost];
        nextPostId := nextPostId + 1;
        r := Redirect(HomePage);
    }

    /**
     * PUT /editPost/:id (no gate): overwrite name and description, stamp
     * `updatedAt`, and replace the images by the uploaded paths, or by none
     * when nothing is uploaded (or the request is not multipart). `createdAt`
     * is kept.
     */
    method EditPost(id: PostId, files: Option<seq<string>>, postName: string, description: string, now: Timestamp)
      returns (r: Response)
      requires Valid()
      modifies this
      ensures Valid()
      ensures users == old(users) && deletedUsers == old(deletedUsers) && nextPostId == old(nextPostId)
      ensures TooManyFiles(files) ==> r == DefaultErrorHandler(500) && posts == old(posts)
      ensures !TooManyFiles(files) && id !in old(posts) ==> r == Send(404, PostNotFound) && posts == old(posts)
      ensures !TooManyFiles(files) && id in old(posts) && (postName == "" || description == "") ==>
        r == SendError(500, "Error updating post: ") && posts == old(posts)
      ensures !TooManyFiles(files) && id in old(posts) && postName != "" && description != "" ==>
        && r == Redirect(HomePage)
        && posts.Keys == old(posts).Keys
        && posts[id].name == postName && posts[id].description == description
        && posts[id].images == (if files.Some? && |files.value| > 0 then files.value else [])
        && posts[id].updatedAt == Some(now)
        && posts[id].createdAt == old(posts)[id].createdAt
        && posts[id].deletedAt == old(posts)[id].deletedAt
        && forall other :: other in posts && other != id ==> posts[other] == old(posts)[other]
    {
      if TooManyFiles(files) {
        return DefaultErrorHandler(500);
      }
      if id !in posts {
        return Send(404, PostNotFound);
      }
      var post := posts[id];
      var images: seq<string>;
      if files.Some? && |files.value| > 0 {
        images := files.value;
      } else {
        images := [];
      }
      match CastPost(PostDoc(Some(images), Some(postName), Some(description), Some(post.createdAt), Some(now), post.deletedAt))
      case None =>
        r := SendError(500, "Error updating post: ");
      case Some(updated) =>
        posts := posts[id := updated];
        r := Redirect(HomePage);
    }

    /** DELETE /deletePost/:id (signed-in sessions only): remove the post if it exists. */
    method DeletePost(s: Session, id: PostId) returns (r: Response)
      requires Valid()
      modifies this
      ensures Valid()
      ensures users == old(users) && deletedUsers == old(deletedUsers) && nextPostId == old(nextPostId)
      ensures !s.isAuth ==> r == Redirect(LoginPage) && posts == old(posts)
      ensures s.isAuth ==> r == Redirect(HomePage) && posts == old(posts) - {id}
    {
      var gate := IsAuth(s);
      if gate.RedirectTo? {
        return Redirect(gate.location);
      }
      posts := posts - {id};
      r := Redirect(HomePage);
    }
  }
}
