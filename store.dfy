/**
 * The `users` collection as the handlers see it: a sequence of records in
 * insertion order, with no unique index. Only the handlers' lookups keep
 * names unique, so uniqueness is an invariant proved here, not a property
 * of the storage.
 */
module Store {
  import opened Wrappers
  import opened Schema

  /** `User.findOne({name})`: the position of the first record with that name, if any. */
  function FindByName(users: seq<User>, name: string): (r: Option<nat>)
    ensures r.Some? ==> r.value < |users| && users[r.value].name == name
    ensures r.Some? ==> forall j :: 0 <= j < r.value ==> users[j].name != name
    ensures r.None? <==> forall j :: 0 <= j < |users| ==> users[j].name != name
  {
    if |users| == 0 then None
    else if users[0].name == name then Some(0)
    else match FindByName(users[1..], name)
      case None => None
      case Some(k) => Some(k + 1)
  }

  /** No two records of the table share a name. */
  ghost predicate UniqueNames(users: seq<User>) {
    forall i, j :: 0 <= i < j < |users| ==> users[i].name != users[j].name
  }

  /** `deleteOne`: the table without the record at position i, the others in their order. */
  function RemoveAt<T>(s: seq<T>, i: nat): (r: seq<T>)
    requires i < |s|
    ensures |r| == |s| - 1
    ensures forall j :: 0 <= j < i ==> r[j] == s[j]
    ensures forall j :: i <= j < |r| ==> r[j] == s[j + 1]
  {
    s[..i] + s[i + 1..]
  }

  /** In a table with unique names, findOne by a record's own name finds that record. */
  lemma FindUnique(users: seq<User>, i: nat)
    requires UniqueNames(users) && i < |users|
    ensures FindByName(users, users[i].name) == Some(i)
  {
  }

  /** Inserting a record whose name findOne does not find keeps names unique, and findOne then finds it last. */
  lemma {:induction false} InsertKeepsUnique(users: seq<User>, u: User)
    requires UniqueNames(users) && FindByName(users, u.name).None?
    ensures UniqueNames(users + [u])
    ensures FindByName(users + [u], u.name) == Some(|users|)
  {
    var t := users + [u];
    forall i, j | 0 <= i < j < |t| ensures t[i].name != t[j].name {
      if j < |users| {
        assert t[i] == users[i] && t[j] == users[j];
      } else {
        assert t[i] == users[i] && t[j] == u;
      }
    }
    FindUnique(t, |users|);
  }

  /**
   * Removing one record keeps names unique, findOne no longer finds that name,
   * and every other record is still found under its name.
   */
  lemma {:induction false} RemoveKeepsUnique(users: seq<User>, i: nat)
    requires UniqueNames(users) && i < |users|
    ensures UniqueNames(RemoveAt(users, i))
    ensures FindByName(RemoveAt(users, i), users[i].name).None?
    ensures forall j :: 0 <= j < |users| && j != i ==> FindByName(RemoveAt(users, i), users[j].name).Some?
  {
    var t := RemoveAt(users, i);
    forall a, b | 0 <= a < b < |t| ensures t[a].name != t[b].name {
      var a' := if a < i then a else a + 1;
      var b' := if b < i then b else b + 1;
      assert t[a] == users[a'] && t[b] == users[b'];
    }
    forall j | 0 <= j < |t| ensures t[j].name != users[i].name {
      var j' := if j < i then j else j + 1;
      assert t[j] == users[j'];
    }
    forall j | 0 <= j < |users| && j != i ensures FindByName(t, users[j].name).Some? {
      var k := if j < i then j else j - 1;
      assert t[k] == users[j];
    }
  }

  /**
   * Overwriting record i with a record whose name no other record holds keeps
   * names unique, and findOne then finds the new record at the same position.
   */
  lemma {:induction false} ReplaceKeepsUnique(users: seq<User>, i: nat, u: User)
    requires UniqueNames(users) && i < |users|
    requires forall j :: 0 <= j < |users| && j != i ==> users[j].name != u.name
    ensures UniqueNames(users[i := u])
    ensures FindByName(users[i := u], u.name) == Some(i)
  {
    var t := users[i := u];
    forall a, b | 0 <= a < b < |t| ensures t[a].name != t[b].name {
      if a != i && b != i {
        assert t[a] == users[a] && t[b] == users[b];
      }
    }
    FindUnique(t, i);
  }
}
