/**
 * The three Mongoose schemas of src/config.js as record datatypes, and the
 * required-field check that Mongoose runs before a document is written.
 *
 * A document on its way to the store is a `...Doc` value in which every field
 * may be missing; `Cast...` turns it into the stored record or refuses it.
 * Mongoose's `required` validator refuses a missing String and also the empty
 * string; for a Date or Boolean path only a missing value; for an array of
 * strings only null, since an absent array defaults to the empty list (so
 * `PostDoc.images == None` stands for an explicit null).
 */
module Schema {
  import opened Wrappers

  /** A JavaScript Date, as milliseconds since the epoch. */
  type Timestamp = int

  /** A stored `users` document (LoginSchema); `password` holds the bcrypt digest. */
  datatype User = User(
    name: string,
    password: string,
    createdDate: Timestamp,
    updatedDate: Timestamp,
    isAdmin: bool)

  /** A stored `deletedUsers` document (deletedSchema): a tombstone, with no password and no admin flag. */
  datatype DeletedUser = DeletedUser(name: string, createdDate: Timestamp, deletionDate: Timestamp)

  /** A stored `posts` document (postShema); `updatedAt` and `deletedAt` are optional. */
  datatype Post = Post(
    images: seq<string>,
    name: string,
    description: string,
    createdAt: Timestamp,
    updatedAt: Option<Timestamp>,
    deletedAt: Option<Timestamp>)

  datatype UserDoc = UserDoc(
    name: Option<string>,
    password: Option<string>,
    createdDate: Option<Timestamp>,
    updatedDate: Option<Timestamp>,
    isAdmin: Option<bool>)

  datatype DeletedUserDoc = DeletedUserDoc(
    name: Option<string>,
    createdDate: Option<Timestamp>,
    deletionDate: Option<Timestamp>)

  datatype PostDoc = PostDoc(
    images: Option<seq<string>>,
    name: Option<string>,
    description: Option<string>,
    createdAt: Option<Timestamp>,
    updatedAt: Option<Timestamp>,
    deletedAt: Option<Timestamp>)

  /** What `required: true` accepts on a String path. */
  predicate RequiredString(f: Option<string>) {
    f.Some? && f.value != ""
  }

  /** The records the store can hold: every required String is non-empty. */
  predicate ValidUser(u: User) {
    u.name != "" && u.password != ""
  }

  predicate ValidDeletedUser(d: DeletedUser) {
    d.name != ""
  }

  predicate ValidPost(p: Post) {
    p.name != "" && p.description != ""
  }

  function UserToDoc(u: User): UserDoc {
    UserDoc(Some(u.name), Some(u.password), Some(u.createdDate), Some(u.updatedDate), Some(u.isAdmin))
  }

  function DeletedUserToDoc(d: DeletedUser): DeletedUserDoc {
    DeletedUserDoc(Some(d.name), Some(d.createdDate), Some(d.deletionDate))
  }

  function PostToDoc(p: Post): PostDoc {
    PostDoc(Some(p.images), Some(p.name), Some(p.description), Some(p.createdAt), p.updatedAt, p.deletedAt)
  }

  /** Validation of a `users` document: all five fields are required. */
  function CastUser(d: UserDoc): (r: Option<User>)
    ensures r.Some? <==>
      RequiredString(d.name) && RequiredString(d.password) &&
      d.createdDate.Some? && d.updatedDate.Some? && d.isAdmin.Some?
    ensures r.Some? ==> ValidUser(r.value) && UserToDoc(r.value) == d
  {
    if RequiredString(d.name) && RequiredString(d.password) &&
       d.createdDate.Some? && d.updatedDate.Some? && d.isAdmin.Some?
    then Some(User(d.name.value, d.password.value, d.createdDate.value, d.updatedDate.value, d.isAdmin.value))
    else None
  }

  /** Validation of a `deletedUsers` document: name and both dates are required. */
  function CastDeletedUser(d: DeletedUserDoc): (r: Option<DeletedUser>)
    ensures r.Some? <==> RequiredString(d.name) && d.createdDate.Some? && d.deletionDate.Some?
    ensures r.Some? ==> ValidDeletedUser(r.value) && DeletedUserToDoc(r.value) == d
  {
    if RequiredString(d.name) && d.createdDate.Some? && d.deletionDate.Some?
    then Some(DeletedUser(d.name.value, d.createdDate.value, d.deletionDate.value))
    else None
  }

  /** Validation of a `posts` document: images, name, description and createdAt are required. */
  function CastPost(d: PostDoc): (r: Option<Post>)
    ensures r.Some? <==>
      d.images.Some? && RequiredString(d.name) && RequiredString(d.description) && d.createdAt.Some?
    ensures r.Some? ==> ValidPost(r.value) && PostToDoc(r.value) == d
  {
    if d.images.Some? && RequiredString(d.name) && RequiredString(d.description) && d.createdAt.Some?
    then Some(Post(d.images.value, d.name.value, d.description.value, d.createdAt.value, d.updatedAt, d.deletedAt))
    else None
  }

  /** A stored record survives being written back: validation accepts exactly the valid records, unchanged. */
  lemma UserRoundTrip(u: User)
    ensures CastUser(UserToDoc(u)) == if ValidUser(u) then Some(u) else None
  {
  }

  lemma DeletedUserRoundTrip(d: DeletedUser)
    ensures CastDeletedUser(DeletedUserToDoc(d)) == if ValidDeletedUser(d) then Some(d) else None
  {
  }

  lemma PostRoundTrip(p: Post)
    ensures CastPost(PostToDoc(p)) == if ValidPost(p) then Some(p) else None
  {
  }
}
