/**
 * The YAML backend: whole-document edits by full scan.  It is the simple form that the
 * index-driven key/value backend has to agree with.
 */
module AclYaml {
  import opened ListKeys
  import opened AclModel
  import opened AclStore

  // ------------------------------------------------------------ documents in a list

  function MapBy<T>(s: seq<T>, key: T -> Key): map<Key, T> {
    if s == [] then map[] else MapBy(s[..|s| - 1], key)[key(s[|s| - 1]) := s[|s| - 1]]
  }

  predicate Unique<T>(s: seq<T>, key: T -> Key) {
    forall i, j :: 0 <= i < j < |s| ==> key(s[i]) != key(s[j])
  }

  function Retain<T>(s: seq<T>, key: T -> Key, k: Key): seq<T> {
    if s == [] then []
    else Retain(s[..|s| - 1], key, k) + (if key(s[|s| - 1]) == k then [] else [s[|s| - 1]])
  }

  function InsertBy<T>(s: seq<T>, key: T -> Key, x: T): seq<T> {
    if s == [] || !Lt(key(x), key(s[|s| - 1])) then s + [x]
    else InsertBy(s[..|s| - 1], key, x) + [s[|s| - 1]]
  }

  /** `sort_by` on the key, stable. */
  function SortBy<T>(s: seq<T>, key: T -> Key): seq<T> {
    if s == [] then [] else InsertBy(SortBy(s[..|s| - 1], key), key, s[|s| - 1])
  }

  lemma {:induction false} MapByHas<T>(s: seq<T>, key: T -> Key, k: Key)
    ensures k in MapBy(s, key) <==> exists i :: 0 <= i < |s| && key(s[i]) == k
  {
    if s != [] {
      var n := |s| - 1;
      MapByHas(s[..n], key, k);
      if i :| 0 <= i < n && key(s[..n][i]) == k { assert key(s[i]) == k; }
      if i :| 0 <= i < |s| && key(s[i]) == k { assert i < n ==> key(s[..n][i]) == k; }
    }
  }

  lemma {:induction false} MapByAt<T>(s: seq<T>, key: T -> Key, i: nat)
    requires Unique(s, key) && i < |s|
    ensures key(s[i]) in MapBy(s, key) && MapBy(s, key)[key(s[i])] == s[i]
  {
    var n := |s| - 1;
    if i < n {
      assert Unique(s[..n], key);
      MapByAt(s[..n], key, i);
      assert s[..n][i] == s[i];
    }
  }

  lemma {:induction false} RetainMaps<T>(s: seq<T>, key: T -> Key, k: Key)
    ensures MapBy(Retain(s, key, k), key) == MapBy(s, key) - {k}
  {
    if s != [] {
      var n := |s| - 1;
      var rest := Retain(s[..n], key, k);
      RetainMaps(s[..n], key, k);
      assert (rest + [s[n]])[..|rest|] == rest && rest + [] == rest;
    }
  }

  lemma {:induction false} RetainListed<T>(s: seq<T>, key: T -> Key, k: Key, i: nat)
    requires i < |Retain(s, key, k)|
    ensures key(Retain(s, key, k)[i]) != k
    ensures exists j :: i <= j < |s| && s[j] == Retain(s, key, k)[i]
  {
    var n := |s| - 1;
    var rest := Retain(s[..n], key, k);
    if i < |rest| {
      RetainListed(s[..n], key, k, i);
      var j :| i <= j < n && s[..n][j] == rest[i];
      assert s[j] == rest[i];
    } else {
      RetainShorter(s[..n], key, k);
      assert s[n] == Retain(s, key, k)[i];
    }
  }

  lemma {:induction false} RetainShorter<T>(s: seq<T>, key: T -> Key, k: Key)
    ensures |Retain(s, key, k)| <= |s|
  {
    if s != [] { RetainShorter(s[..|s| - 1], key, k); }
  }

  lemma {:induction false} RetainUnique<T>(s: seq<T>, key: T -> Key, k: Key)
    requires Unique(s, key)
    ensures Unique(Retain(s, key, k), key)
  {
    if s != [] {
      var n := |s| - 1;
      var rest := Retain(s[..n], key, k);
      RetainUnique(s[..n], key, k);
      forall i | 0 <= i < |rest|
        ensures key(rest[i]) != key(s[n])
      {
        RetainListed(s[..n], key, k, i);
        var j :| i <= j < n && s[..n][j] == rest[i];
        assert s[j] == rest[i];
      }
    }
  }

  lemma {:induction false} InsertByKeeps<T>(s: seq<T>, key: T -> Key, x: T)
    ensures multiset(InsertBy(s, key, x)) == multiset(s) + multiset{x}
  {
    hide Lt;
    var n := |s| - 1;
    if s != [] && Lt(key(x), key(s[n])) {
      InsertByKeeps(s[..n], key, x);
      assert s == s[..n] + [s[n]];
    }
  }

  lemma {:induction false} InsertByMaps<T>(s: seq<T>, key: T -> Key, x: T)
    requires forall i :: 0 <= i < |s| ==> key(s[i]) != key(x)
    ensures MapBy(InsertBy(s, key, x), key) == MapBy(s, key)[key(x) := x]
  {
    hide Lt;
    var out, n := InsertBy(s, key, x), |s| - 1;
    if s == [] || !Lt(key(x), key(s[n])) {
      assert out[..|s|] == s;
    } else {
      InsertByMaps(s[..n], key, x);
      assert out[..|out| - 1] == InsertBy(s[..n], key, x);
      assert key(s[n]) != key(x);
    }
  }

  lemma {:induction false} SortByKeeps<T>(s: seq<T>, key: T -> Key)
    ensures multiset(SortBy(s, key)) == multiset(s)
  {
    if s != [] {
      var n := |s| - 1;
      SortByKeeps(s[..n], key);
      InsertByKeeps(SortBy(s[..n], key), key, s[n]);
      assert s == s[..n] + [s[n]];
    }
  }

  /** None of the sorted earlier documents has the last one's key. */
  lemma SortedOthersDiffer<T>(s: seq<T>, key: T -> Key, i: nat)
    requires Unique(s, key) && s != [] && i < |SortBy(s[..|s| - 1], key)|
    ensures key(SortBy(s[..|s| - 1], key)[i]) != key(s[|s| - 1])
  {
    hide SortBy;
    var n := |s| - 1;
    var rest := SortBy(s[..n], key);
    SortByKeeps(s[..n], key);
    assert rest[i] in multiset(rest);
    assert rest[i] in multiset(s[..n]);
    var j :| 0 <= j < n && s[..n][j] == rest[i];
    assert s[j] == rest[i];
  }

  lemma {:induction false} SortByMaps<T>(s: seq<T>, key: T -> Key)
    requires Unique(s, key)
    ensures MapBy(SortBy(s, key), key) == MapBy(s, key)
  {
    hide InsertBy;
    if s != [] {
      var n := |s| - 1;
      SortByMaps(s[..n], key);
      forall i | 0 <= i < |SortBy(s[..n], key)|
        ensures key(SortBy(s[..n], key)[i]) != key(s[n])
      {
        SortedOthersDiffer(s, key, i);
      }
      InsertByMaps(SortBy(s[..n], key), key, s[n]);
    }
  }

  lemma {:induction false} InsertByUnique<T>(s: seq<T>, key: T -> Key, x: T)
    requires Unique(s, key) && forall i :: 0 <= i < |s| ==> key(s[i]) != key(x)
    ensures Unique(InsertBy(s, key, x), key)
  {
    hide Lt;
    if s != [] && Lt(key(x), key(s[|s| - 1])) {
      var n := |s| - 1;
      var rest := InsertBy(s[..n], key, x);
      InsertByUnique(s[..n], key, x);
      InsertByKeeps(s[..n], key, x);
      forall i | 0 <= i < |rest|
        ensures key(rest[i]) != key(s[n])
      {
        assert rest[i] in multiset(rest);
        if rest[i] != x {
          assert rest[i] in multiset(s[..n]);
          var j :| 0 <= j < n && s[..n][j] == rest[i];
          assert s[j] == rest[i];
        }
      }
    }
  }

  lemma {:induction false} SortByUnique<T>(s: seq<T>, key: T -> Key)
    requires Unique(s, key)
    ensures Unique(SortBy(s, key), key)
  {
    hide InsertBy;
    if s != [] {
      var n := |s| - 1;
      SortByUnique(s[..n], key);
      forall i | 0 <= i < |SortBy(s[..n], key)|
        ensures key(SortBy(s[..n], key)[i]) != key(s[n])
      {
        SortedOthersDiffer(s, key, i);
      }
      InsertByUnique(SortBy(s[..n], key), key, s[n]);
    }
  }

  predicate SortedBy<T>(s: seq<T>, key: T -> Key) {
    forall i, j :: 0 <= i < j < |s| ==> !Lt(key(s[j]), key(s[i]))
  }

  lemma AppendSortedBy<T>(s: seq<T>, key: T -> Key, x: T)
    requires SortedBy(s, key) && forall k :: 0 <= k < |s| ==> !Lt(key(x), key(s[k]))
    ensures SortedBy(s + [x], key)
  {
    hide Lt;
  }

  lemma NotAfter(a: Key, b: Key, c: Key)
    requires !Lt(b, a) && !Lt(c, b)
    ensures !Lt(c, a)
  {
    LtTotal(a, b);
    LtTotal(b, c);
    if Lt(a, b) && Lt(b, c) { LtTransitive(a, b, c); }
    LtIrreflexive(a);
    if Lt(a, c) { LtAsymmetric(a, c); }
  }

  lemma {:induction false} InsertBySorted<T>(s: seq<T>, key: T -> Key, x: T)
    requires SortedBy(s, key)
    ensures SortedBy(InsertBy(s, key, x), key)
  {
    hide Lt;
    var n := |s| - 1;
    if s == [] {
    } else if !Lt(key(x), key(s[n])) {
      forall k | 0 <= k < |s| ensures !Lt(key(x), key(s[k])) { if k < n { NotAfter(key(s[k]), key(s[n]), key(x)); } }
      AppendSortedBy(s, key, x);
    } else {
      var rest := InsertBy(s[..n], key, x);
      InsertBySorted(s[..n], key, x);
      InsertByKeeps(s[..n], key, x);
      LtAsymmetric(key(x), key(s[n]));
      forall k | 0 <= k < |rest|
        ensures !Lt(key(s[n]), key(rest[k]))
      {
        assert rest[k] in multiset(rest);
        if rest[k] != x {
          assert rest[k] in multiset(s[..n]);
          var i :| 0 <= i < n && s[..n][i] == rest[k];
          assert s[i] == rest[k];
        }
      }
      AppendSortedBy(rest, key, s[n]);
    }
  }

  /** Sorting orders by key and keeps exactly the documents. */
  lemma {:induction false} SortBySorts<T>(s: seq<T>, key: T -> Key)
    ensures SortedBy(SortBy(s, key), key) && multiset(SortBy(s, key)) == multiset(s)
  {
    SortByKeeps(s, key);
    if s != [] {
      SortBySorts(s[..|s| - 1], key);
      InsertBySorted(SortBy(s[..|s| - 1], key), key, s[|s| - 1]);
    }
  }

  /** Replace or add by key, then sort: the idiom of both upserts. */
  function Upsert<T>(s: seq<T>, key: T -> Key, x: T): seq<T> {
    SortBy(Retain(s, key, key(x)) + [x], key)
  }

  lemma UpsertMaps<T>(s: seq<T>, key: T -> Key, x: T)
    requires Unique(s, key)
    ensures Unique(Upsert(s, key, x), key) && MapBy(Upsert(s, key, x), key) == MapBy(s, key)[key(x) := x]
  {
    hide Lt, SortBy, Retain, MapBy, Unique;
    var rest := Retain(s, key, key(x));
    RetainUnique(s, key, key(x));
    forall i | 0 <= i < |rest| ensures key(rest[i]) != key(x) { RetainListed(s, key, key(x), i); }
    RetainMaps(s, key, key(x));
    AddLast(rest, key, x);
    SortByMaps(rest + [x], key);
    SortByUnique(rest + [x], key);
    UpdateOnce(MapBy(s, key), key(x), x);
  }

  lemma AddLast<T>(s: seq<T>, key: T -> Key, x: T)
    requires Unique(s, key) && forall i :: 0 <= i < |s| ==> key(s[i]) != key(x)
    ensures Unique(s + [x], key) && MapBy(s + [x], key) == MapBy(s, key)[key(x) := x]
  {
    assert (s + [x])[..|s|] == s;
  }

  lemma UpdateOnce<T>(m: map<Key, T>, k: Key, x: T)
    ensures (m - {k})[k := x] == m[k := x]
  {
  }

  // ------------------------------------------------------------ the document

  function UserKey(u: UserDoc): Key {
    u.accessKey
  }

  function BucketKey(b: BucketDoc): Key {
    b.id
  }

  function Views(bs: map<Key, BucketDoc>): map<Key, BucketView> {
    map id | id in bs :: ViewOf(bs[id])
  }

  lemma ViewsUpdate(bs: map<Key, BucketDoc>, b: BucketDoc)
    ensures Views(bs[b.id := b]) == Views(bs)[b.id := ViewOf(b)]
  {
  }

  lemma ViewsRemove(bs: map<Key, BucketDoc>, id: Key)
    ensures Views(bs - {id}) == Views(bs) - {id}
  {
  }

  lemma {:induction false} RetainMembers<T>(s: seq<T>, key: T -> Key, k: Key, y: T)
    ensures y in Retain(s, key, k) <==> y in s && key(y) != k
  {
    if s != [] {
      var n := |s| - 1;
      assert s == s[..n] + [s[n]];
      RetainMembers(s[..n], key, k, y);
    }
  }

  lemma UpsertMembers<T>(s: seq<T>, key: T -> Key, x: T, y: T)
    ensures y in Upsert(s, key, x) <==> y == x || (y in s && key(y) != key(x))
  {
    var all := Retain(s, key, key(x)) + [x];
    RetainMembers(s, key, key(x), y);
    SortByKeeps(all, key);
    assert y in SortBy(all, key) <==> y in multiset(SortBy(all, key));
    assert y in all <==> y in multiset(all);
  }

  /** Normalise, replace by id, sort; the result passes the file check exactly if the new document does. */
  method PutDoc(bs: seq<BucketDoc>, b: BucketDoc) returns (out: seq<BucketDoc>)
    requires Unique(bs, BucketKey) && BucketsValid(bs)
    ensures Unique(out, BucketKey) && Views(MapBy(out, BucketKey)) == Views(MapBy(bs, BucketKey))[b.id := ViewOf(b)]
    ensures BucketsValid(out) <==> ValidBucketName(b.name) && ValidAcl(b.acl)
  {
    hide SortedAcl, Levels, Views, MapBy, Upsert, Unique, ValidAcl, ValidBucketName;
    var acl := NormalizeAcl(b.acl);
    if ValidAcl(acl) { SameGrantsStayValid(acl, b.acl); }
    var doc := b.(acl := acl);
    UpsertMaps(bs, BucketKey, doc);
    ViewsUpdate(MapBy(bs, BucketKey), doc);
    out := Upsert(bs, BucketKey, doc);
    forall y ensures y in out <==> y == doc || (y in bs && y.id != doc.id) { UpsertMembers(bs, BucketKey, doc, y); }
  }

  /** The directory file.  An edit whose result does not pass the file check is not saved. */
  class YamlDoc {
    var users: seq<UserDoc>
    var buckets: seq<BucketDoc>

    constructor ()
      ensures Valid() && View() == Directory(map[], map[])
    {
      users, buckets := [], [];
    }

    ghost predicate Valid()
      reads this
    {
      Unique(users, UserKey) && Unique(buckets, BucketKey) && FileValid(users, buckets)
    }

    ghost function View(): Directory
      reads this
    {
      Directory(MapBy(users, UserKey), Views(MapBy(buckets, BucketKey)))
    }

    method UserUpsert(u: UserDoc) returns (ok: bool)
      requires Valid()
      modifies `users
      ensures Valid() && (ok <==> Identifier(u.accessKey, 128))
      ensures View() == if ok then PutUser(old(View()), u) else old(View())
    {
      hide MapBy, Upsert, Unique, Identifier, BucketsValid;
      UpsertMaps(users, UserKey, u);
      var edited := Upsert(users, UserKey, u);
      forall y
        ensures y in edited <==> y == u || (y in users && UserKey(y) != UserKey(u))
      {
        UpsertMembers(users, UserKey, u, y);
      }
      if !FileValid(edited, buckets) {
        return false;
      }
      users := edited;
      return true;
    }

    method BucketUpsert(b: BucketDoc) returns (ok: bool)
      requires Valid()
      modifies `buckets
      ensures Valid() && (ok <==> ValidBucketName(b.name) && ValidAcl(b.acl))
      ensures View() == if ok then PutBucket(old(View()), b) else old(View())
    {
      hide Views, MapBy, Unique, UsersValid, BucketsValid, ValidAcl, ValidBucketName, ViewOf;
      var edited := PutDoc(buckets, b);
      if !FileValid(users, edited) {
        return false;
      }
      buckets := edited;
      return true;
    }

    method BucketDelete(id: Key)
      requires Valid()
      modifies `buckets
      ensures Valid() && View() == RemoveBucket(old(View()), id)
    {
      hide Views, MapBy, Retain, Unique, ValidAcl, ValidBucketName;
      RetainUnique(buckets, BucketKey, id);
      RetainMaps(buckets, BucketKey, id);
      ViewsRemove(MapBy(buckets, BucketKey), id);
      forall y
        ensures y in Retain(buckets, BucketKey, id) ==> y in buckets
      {
        RetainMembers(buckets, BucketKey, id, y);
      }
      buckets := Retain(buckets, BucketKey, id);
    }

    method BucketSetAcl(id: Key, acl: seq<AclEntry>) returns (ok: bool)
      requires Valid()
      modifies `buckets
      ensures Valid() && (ok <==> id in old(View()).buckets && ValidAcl(acl))
      ensures View() == if ok then SetAcl(old(View()), id, acl) else old(View())
    {
      hide SortedAcl, Levels, MapBy, ValidAcl, ValidBucketName, UsersValid;
      var i := 0;
      while i < |buckets| && buckets[i].id != id
        invariant 0 <= i <= |buckets|
        invariant forall j :: 0 <= j < i ==> buckets[j].id != id
      {
        i := i + 1;
      }
      MapByHas(buckets, BucketKey, id);
      if i == |buckets| {
        return false;
      }
      assert BucketKey(buckets[i]) == id;
      var sorted := NormalizeAcl(acl);
      if ValidAcl(sorted) { SameGrantsStayValid(sorted, acl); }
      var doc := buckets[i].(acl := sorted);
      var edited := buckets[i := doc];
      ReplaceMaps(buckets, i, doc);
      ReplaceValid(buckets, i, doc);
      MapByAt(buckets, BucketKey, i);
      ViewsUpdate(MapBy(buckets, BucketKey), doc);
      if !FileValid(users, edited) {
        return false;
      }
      buckets := edited;
      return true;
    }

    /** Removes the user and, with `cleanup`, by scanning every bucket, all its grants. */
    method UserDelete(ak: Key, cleanup: bool)
      requires Valid()
      modifies this
      ensures Valid() && View() == if cleanup then RemoveUser(old(View()), ak) else DropUser(old(View()), ak)
    {
      hide SortedAcl, Levels, Views, MapBy, Retain, Unique, ValidAcl, ValidBucketName, Identifier;
      RetainUnique(users, UserKey, ak);
      RetainMaps(users, UserKey, ak);
      forall y ensures y in Retain(users, UserKey, ak) ==> y in users { RetainMembers(users, UserKey, ak, y); }
      users := Retain(users, UserKey, ak);
      if cleanup {
        for i := 0 to |buckets|
          invariant |buckets| == old(|buckets|) && users == Retain(old(users), UserKey, ak)
          invariant forall j :: i <= j < |buckets| ==> buckets[j] == old(buckets)[j]
          invariant forall j :: 0 <= j < i ==> ScrubbedDoc(old(buckets)[j], buckets[j], ak)
        {
          var b := buckets[i];
          DropKeyLevels(b.acl, ak);
          if ValidAcl(b.acl) { DropKeyValid(b.acl, ak); }
          var acl := NormalizeAcl(DropKey(b.acl, ak));
          buckets := buckets[i := b.(acl := acl)];
        }
        ScrubbedViews(old(buckets), buckets, ak);
        ScrubbedValid(old(buckets), buckets, ak);
      }
    }

    /** A file that does not validate is refused; otherwise it becomes the directory, or is merged into it. */
    method Import(us: seq<UserDoc>, bs: seq<BucketDoc>, replace: bool) returns (ok: bool)
      requires Valid() && (replace ==> Unique(us, UserKey) && Unique(bs, BucketKey))
      modifies this
      ensures Valid() && (ok <==> FileValid(us, bs))
      ensures View() == if !ok then old(View())
                        else PutBuckets(PutUsers(if replace then Directory(map[], map[]) else old(View()), us), bs)
    {
      hide MapBy, Views, Unique, PutUsers, PutBuckets, UsersValid, BucketsValid;
      if !FileValid(us, bs) {
        return false;
      }
      if replace {
        AllPut(us, bs);
        users, buckets := us, bs;
      } else {
        var cur := MergeUsers(users, us, View());
        var merged := MergeBuckets(buckets, bs, PutUsers(View(), us));
        assert FileValid(cur, merged);
        users, buckets := cur, merged;
      }
      return true;
    }
  }

  method MergeUsers(users: seq<UserDoc>, us: seq<UserDoc>, ghost d: Directory) returns (cur: seq<UserDoc>)
    requires Unique(users, UserKey) && UsersValid(users) && UsersValid(us) && d.users == MapBy(users, UserKey)
    ensures Unique(cur, UserKey) && UsersValid(cur)
    ensures PutUsers(d, us) == d.(users := MapBy(cur, UserKey))
  {
    hide MapBy, Upsert, Unique, Identifier, PutUsers;
    cur := users;
    PutNothing(d);
    assert us[..0] == [];
    for k := 0 to |us|
      invariant Unique(cur, UserKey) && UsersValid(cur)
      invariant PutUsers(d, us[..k]) == d.(users := MapBy(cur, UserKey))
    {
      UpsertMaps(cur, UserKey, us[k]);
      PutOneUser(d, us, k);
      forall y
        ensures y in Upsert(cur, UserKey, us[k]) ==> y == us[k] || y in cur
      {
        UpsertMembers(cur, UserKey, us[k], y);
      }
      cur := Upsert(cur, UserKey, us[k]);
    }
    assert us[..|us|] == us;
  }

  method MergeBuckets(buckets: seq<BucketDoc>, bs: seq<BucketDoc>, ghost d: Directory) returns (cur: seq<BucketDoc>)
    requires Unique(buckets, BucketKey) && BucketsValid(buckets) && BucketsValid(bs)
    requires d.buckets == Views(MapBy(buckets, BucketKey))
    ensures Unique(cur, BucketKey) && BucketsValid(cur)
    ensures PutBuckets(d, bs) == d.(buckets := Views(MapBy(cur, BucketKey)))
  {
    hide MapBy, Views, ViewOf, Unique, ValidAcl, ValidBucketName, PutBuckets, Unclashed;
    cur := buckets;
    PutNothing(d);
    assert bs[..0] == [];
    for k := 0 to |bs|
      invariant Unique(cur, BucketKey) && BucketsValid(cur)
      invariant PutBuckets(d, bs[..k]) == d.(buckets := Views(MapBy(cur, BucketKey)))
    {
      PutOneBucket(d, bs, k);
      cur := PutDoc(cur, bs[k]);
    }
    assert bs[..|bs|] == bs;
  }

  /** A file taken over as it is holds what storing its documents in order would. */
  lemma AllPut(us: seq<UserDoc>, bs: seq<BucketDoc>)
    ensures PutBuckets(PutUsers(Directory(map[], map[]), us), bs)
            == Directory(MapBy(us, UserKey), Views(MapBy(bs, BucketKey)))
  {
    AllUsersPut(us);
    AllBucketsPut(MapBy(us, UserKey), bs);
  }

  lemma {:induction false} AllUsersPut(us: seq<UserDoc>)
    ensures PutUsers(Directory(map[], map[]), us) == Directory(MapBy(us, UserKey), map[])
  {
    if us != [] { AllUsersPut(us[..|us| - 1]); }
  }

  lemma {:induction false} AllBucketsPut(users: map<Key, UserDoc>, bs: seq<BucketDoc>)
    ensures PutBuckets(Directory(users, map[]), bs) == Directory(users, Views(MapBy(bs, BucketKey)))
  {
    hide Views, ViewOf;
    if bs == [] {
      NoViews();
    } else {
      AllBucketsPut(users, bs[..|bs| - 1]);
      ViewsUpdate(MapBy(bs[..|bs| - 1], BucketKey), bs[|bs| - 1]);
    }
  }

  lemma NoViews()
    ensures Views(map[]) == map[]
  {
  }

  lemma ReplaceValid(bs: seq<BucketDoc>, i: nat, doc: BucketDoc)
    requires BucketsValid(bs) && i < |bs| && doc.name == bs[i].name
    ensures BucketsValid(bs[i := doc]) <==> ValidAcl(doc.acl)
  {
    hide ValidAcl, ValidBucketName;
    assert bs[i] in bs && bs[i := doc][i] in bs[i := doc];
    forall y | y in bs[i := doc] ensures y == doc || y in bs { var j :| 0 <= j < |bs| && bs[i := doc][j] == y; }
  }

  lemma {:induction false} ReplaceMaps(bs: seq<BucketDoc>, i: nat, doc: BucketDoc)
    requires Unique(bs, BucketKey) && i < |bs| && doc.id == bs[i].id
    ensures Unique(bs[i := doc], BucketKey)
    ensures MapBy(bs[i := doc], BucketKey) == MapBy(bs, BucketKey)[doc.id := doc]
  {
    var n := |bs| - 1;
    if i == n {
      assert bs[i := doc][..n] == bs[..n];
    } else {
      ReplaceMaps(bs[..n], i, doc);
      assert bs[i := doc][..n] == bs[..n][i := doc];
    }
  }

  predicate ScrubbedDoc(a: BucketDoc, b: BucketDoc, ak: Key) {
    && b.id == a.id && b.name == a.name && b.dataPath == a.dataPath
    && Levels(b.acl) == Levels(a.acl) - {AccessKey(ak)}
    && (ValidAcl(a.acl) ==> ValidAcl(b.acl))
  }

  lemma ScrubbedValid(was: seq<BucketDoc>, now: seq<BucketDoc>, ak: Key)
    requires |was| == |now| && forall j :: 0 <= j < |was| ==> ScrubbedDoc(was[j], now[j], ak)
    ensures BucketsValid(was) ==> BucketsValid(now)
  {
    hide Levels, ValidAcl, ValidBucketName;
    forall b | b in now && BucketsValid(was)
      ensures ValidBucketName(b.name) && ValidAcl(b.acl)
    {
      var j :| 0 <= j < |now| && now[j] == b;
      assert was[j] in was;
    }
  }

  lemma {:induction false} ScrubbedViews(was: seq<BucketDoc>, now: seq<BucketDoc>, ak: Key)
    requires |was| == |now| && forall j :: 0 <= j < |was| ==> ScrubbedDoc(was[j], now[j], ak)
    ensures Unique(was, BucketKey) ==> Unique(now, BucketKey)
    ensures Views(MapBy(now, BucketKey)) == ScrubViews(Views(MapBy(was, BucketKey)), ak)
  {
    hide Levels, Views, ScrubViews;
    if was == [] {
      NothingToScrub(ak);
    } else {
      var n := |was| - 1;
      ScrubbedViews(was[..n], now[..n], ak);
      ViewsUpdate(MapBy(was[..n], BucketKey), was[n]);
      ViewsUpdate(MapBy(now[..n], BucketKey), now[n]);
      ScrubUpdate(Views(MapBy(was[..n], BucketKey)), was[n].id, ViewOf(was[n]), ak);
    }
  }

  lemma NothingToScrub(ak: Key)
    ensures Views(map[]) == ScrubViews(Views(map[]), ak)
  {
  }

  lemma ScrubUpdate(vs: map<Key, BucketView>, id: Key, v: BucketView, ak: Key)
    ensures ScrubViews(vs[id := v], ak) == ScrubViews(vs, ak)[id := ScrubView(v, ak)]
  {
  }

  // ------------------------------------------------------------ both backends side by side

  datatype Op =
    | UserPut(user: UserDoc)
    | UserDrop(key: Key, cleanup: bool)
    | BucketPut(bucket: BucketDoc)
    | BucketDrop(id: Key)
    | AclSet(id: Key, acl: seq<AclEntry>)
    | ImportFile(users: seq<UserDoc>, buckets: seq<BucketDoc>, replace: bool)

  /** What the key/value backend accepts. */
  predicate Accepted(d: Directory, op: Op) {
    match op
    case UserPut(u) => ValidUser(u)
    case UserDrop(ak, _) => ak != []
    case BucketPut(b) => ValidBucket(b)
    case BucketDrop(id) => id != []
    case AclSet(id, acl) => id != [] && id in d.buckets && ValidAcl(acl)
    case ImportFile(us, bs, _) => (forall u :: u in us ==> ValidUser(u)) && (forall b :: b in bs ==> ValidBucket(b))
  }

  /** What the YAML backend accepts. */
  predicate YamlAccepts(d: Directory, op: Op) {
    match op
    case UserPut(u) => Identifier(u.accessKey, 128)
    case UserDrop(_, _) => true
    case BucketPut(b) => ValidBucketName(b.name) && ValidAcl(b.acl)
    case BucketDrop(_) => true
    case AclSet(id, acl) => id in d.buckets && ValidAcl(acl)
    case ImportFile(us, bs, _) => FileValid(us, bs)
  }

  predicate FilledUser(u: UserDoc) {
    u.secret != [] && u.username != []
  }

  predicate FilledBucket(b: BucketDoc) {
    b.id != [] && b.dataPath != []
  }

  /** No mandatory field is empty. */
  predicate Filled(op: Op) {
    match op
    case UserPut(u) => FilledUser(u)
    case UserDrop(ak, _) => ak != []
    case BucketPut(b) => FilledBucket(b)
    case BucketDrop(id) => id != []
    case AclSet(id, _) => id != []
    case ImportFile(us, bs, _) => (forall u :: u in us ==> FilledUser(u)) && (forall b :: b in bs ==> FilledBucket(b))
  }

  /** The backends accept the same operations but for empty mandatory fields, which only one of them checks. */
  lemma AcceptanceDiffers(d: Directory, op: Op)
    ensures Accepted(d, op) <==> YamlAccepts(d, op) && Filled(op)
  {
    hide Identifier, ValidBucketName, ValidAcl;
    if op.ImportFile? {
      assert UsersValid(op.users) && (forall u :: u in op.users ==> FilledUser(u))
          <==> forall u :: u in op.users ==> ValidUser(u);
      assert BucketsValid(op.buckets) && (forall b :: b in op.buckets ==> FilledBucket(b))
          <==> forall b :: b in op.buckets ==> ValidBucket(b);
    }
  }

  function Start(d: Directory, op: Op): Directory
    requires op.ImportFile?
  {
    PutUsers(if op.replace then Directory(map[], map[]) else d, op.users)
  }

  /** The operation names documents the way they are stored, and takes no index away that is still needed. */
  predicate Plain(d: Directory, op: Op) {
    match op
    case UserPut(_) => true
    case UserDrop(ak, cleanup) => !EndsWithSlash(ak) && (cleanup || !Grants(d.buckets, AccessKey(ak)))
    case BucketPut(b) => !Clash(d.buckets.Keys, b.id)
    case BucketDrop(id) => !Clash(d.buckets.Keys, id)
    case AclSet(id, _) => !Clash(d.buckets.Keys, id)
    case ImportFile(us, bs, replace) => Unclashed(Start(d, op), bs)
  }

  /** An imported file that replaces the directory lists nothing twice. */
  predicate ListsOnce(op: Op) {
    op.ImportFile? && op.replace ==> Unique(op.users, UserKey) && Unique(op.buckets, BucketKey)
  }

  /** What an operation means for the directory. */
  function Meaning(d: Directory, op: Op): Directory
    requires op.AclSet? ==> op.id in d.buckets
  {
    match op
    case UserPut(u) => PutUser(d, u)
    case UserDrop(ak, cleanup) => if cleanup then RemoveUser(d, ak) else DropUser(d, ak)
    case BucketPut(b) => PutBucket(d, b)
    case BucketDrop(id) => RemoveBucket(d, id)
    case AclSet(id, acl) => SetAcl(d, id, acl)
    case ImportFile(us, bs, _) => PutBuckets(Start(d, op), bs)
  }

  /** The YAML backend does all of an operation it accepts. */
  function YamlEffect(d: Directory, op: Op): Directory {
    if YamlAccepts(d, op) then Meaning(d, op) else d
  }

  /** The key/value backend as well, except that an import it refuses midway leaves what it has stored. */
  function Effect(d: Directory, op: Op): Directory {
    if Accepted(d, op) then Meaning(d, op)
    else if op.ImportFile? && FileValid(op.users, op.buckets)
    then PutBuckets(Start(d, op.(users := op.users[..ValidUsers(op.users)])), op.buckets[..StoredBuckets(op.users, op.buckets)])
    else d
  }

  function Effects(d: Directory, ops: seq<Op>): Directory {
    if ops == [] then d else Effect(Effects(d, ops[..|ops| - 1]), ops[|ops| - 1])
  }

  function YamlEffects(d: Directory, ops: seq<Op>): Directory {
    if ops == [] then d else YamlEffect(YamlEffects(d, ops[..|ops| - 1]), ops[|ops| - 1])
  }

  /** With no mandatory field empty both backends do the same. */
  lemma SameEffect(d: Directory, op: Op)
    requires Filled(op)
    ensures Effect(d, op) == YamlEffect(d, op)
  {
    hide Meaning, Filled, Accepted, YamlAccepts, PutUsers, PutBuckets;
    AcceptanceDiffers(d, op);
    if op.ImportFile? { assert YamlAccepts(d, op) <==> FileValid(op.users, op.buckets) by { ImportAccepted(d, op); } }
  }

  lemma ImportAccepted(d: Directory, op: Op)
    requires op.ImportFile?
    ensures YamlAccepts(d, op) <==> FileValid(op.users, op.buckets)
  {
  }

  lemma {:induction false} SameEffects(d: Directory, ops: seq<Op>)
    requires forall i :: 0 <= i < |ops| ==> Filled(ops[i])
    ensures Effects(d, ops) == YamlEffects(d, ops)
  {
    hide Effect, YamlEffect, Filled;
    if ops != [] {
      SameEffects(d, ops[..|ops| - 1]);
      SameEffect(Effects(d, ops[..|ops| - 1]), ops[|ops| - 1]);
    }
  }

  /** An accepted import stores everything. */
  lemma AcceptedStoresAll(us: seq<UserDoc>, bs: seq<BucketDoc>)
    ensures FileValid(us, bs) && ValidUsers(us) == |us| && StoredBuckets(us, bs) == |bs|
            <==> (forall u :: u in us ==> ValidUser(u)) && (forall b :: b in bs ==> ValidBucket(b))
  {
    hide Identifier, ValidBucketName, ValidAcl;
    var n, m := ValidUsers(us), ValidBuckets(bs);
    if n < |us| { assert us[n] in us; }
    if m < |bs| { assert bs[m] in bs; }
    if n == |us| { forall u | u in us ensures ValidUser(u) { var i :| 0 <= i < |us| && us[i] == u; } }
    if m == |bs| { forall b | b in bs ensures ValidBucket(b) { var i :| 0 <= i < |bs| && bs[i] == b; } }
  }

  method ApplyToStore(store: AdminStore, op: Op) returns (ok: bool)
    requires store.Valid() && Plain(store.View(), op)
    modifies store
    ensures ok <==> Accepted(old(store.View()), op)
    ensures store.Valid() && store.View() == Effect(old(store.View()), op)
  {
    hide Agree, DocsOk, ValidBucket, ValidUser, ValidAcl, Clash, Grants, ById, Levels, RemoveUser, Unclashed, Scrubbed, Reached;
    match op
    case UserPut(u) =>
      ok := store.UpsertUser(u);
    case UserDrop(ak, cleanup) =>
      GrantedInView(store.buckets, AccessKey(ak));
      ScrubNothing(store.View(), ak);
      AgreeingNamed(store.buckets, store.index);
      assert Segment(ak) == ak;
      ok := store.DeleteUser(ak, cleanup);
    case BucketPut(b) =>
      ok := store.UpsertBucket(b);
    case BucketDrop(id) =>
      ok := store.DeleteBucket(id);
    case AclSet(id, acl) =>
      ClashIsLookup(store.buckets, id);
      ByIdHas(store.buckets, id);
      ok := store.SetBucketAcl(id, acl);
    case ImportFile(us, bs, replace) =>
      AcceptedStoresAll(us, bs);
      PartUnclashed(store.View(), op);
      ok := store.Import(us, bs, replace);
      assert us[..|us|] == us && bs[..|bs|] == bs;
  }

  method ApplyToYaml(doc: YamlDoc, op: Op) returns (ok: bool)
    requires doc.Valid() && ListsOnce(op)
    modifies doc
    ensures ok <==> YamlAccepts(old(doc.View()), op)
    ensures doc.Valid() && doc.View() == YamlEffect(old(doc.View()), op)
  {
    hide Identifier, ValidBucketName, ValidAcl, Clash, Grants, Levels, RemoveUser, Unclashed, MapBy, Views, Unique;
    match op
    case UserPut(u) =>
      ok := doc.UserUpsert(u);
    case UserDrop(ak, cleanup) =>
      doc.UserDelete(ak, cleanup);
      ok := true;
    case BucketPut(b) =>
      ok := doc.BucketUpsert(b);
    case BucketDrop(id) =>
      doc.BucketDelete(id);
      ok := true;
    case AclSet(id, acl) =>
      ok := doc.BucketSetAcl(id, acl);
    case ImportFile(us, bs, replace) =>
      ok := doc.Import(us, bs, replace);
  }

  /**
   * Any sequence of operations on both backends, each on its own: after each the indices
   * agree with the documents, and each directory is what the operations mean to its backend.
   * With no mandatory field empty that is the same directory, and both accept the same
   * operations.
   */
  method RunBoth(ops: seq<Op>) returns (store: AdminStore, doc: YamlDoc, stored: seq<bool>, saved: seq<bool>)
    requires forall i :: 0 <= i < |ops| ==> Plain(Effects(Directory(map[], map[]), ops[..i]), ops[i]) && ListsOnce(ops[i])
    ensures store.Valid() && store.View() == Effects(Directory(map[], map[]), ops)
    ensures doc.Valid() && doc.View() == YamlEffects(Directory(map[], map[]), ops)
    ensures |stored| == |saved| == |ops|
    ensures forall i :: 0 <= i < |ops| ==>
              && stored[i] == Accepted(Effects(Directory(map[], map[]), ops[..i]), ops[i])
              && saved[i] == YamlAccepts(YamlEffects(Directory(map[], map[]), ops[..i]), ops[i])
    ensures (forall i :: 0 <= i < |ops| ==> Filled(ops[i])) ==> store.View() == doc.View() && stored == saved
  {
    hide Agree, DocsOk, Plain, ListsOnce, Filled, Effect, YamlEffect, Accepted, YamlAccepts, ById, MapBy, Views, Unique, FileValid;
    store := new AdminStore();
    doc := new YamlDoc();
    stored, saved := [], [];
    for i := 0 to |ops|
      invariant fresh(store) && fresh(doc) && store.Valid() && doc.Valid()
      invariant store.View() == Effects(Directory(map[], map[]), ops[..i])
      invariant doc.View() == YamlEffects(Directory(map[], map[]), ops[..i])
      invariant |stored| == |saved| == i
      invariant forall j :: 0 <= j < i ==>
                  && stored[j] == Accepted(Effects(Directory(map[], map[]), ops[..j]), ops[j])
                  && saved[j] == YamlAccepts(YamlEffects(Directory(map[], map[]), ops[..j]), ops[j])
    {
      assert ops[..i + 1][..i] == ops[..i];
      var ok := ApplyToStore(store, ops[i]);
      var ok' := ApplyToYaml(doc, ops[i]);
      stored, saved := stored + [ok], saved + [ok'];
    }
    assert ops[..|ops|] == ops;
    if forall i :: 0 <= i < |ops| ==> Filled(ops[i]) { SameAnswers(ops, stored, saved); }
  }

  lemma SameAnswers(ops: seq<Op>, stored: seq<bool>, saved: seq<bool>)
    requires (forall i :: 0 <= i < |ops| ==> Filled(ops[i])) && |stored| == |saved| == |ops|
    requires forall i :: 0 <= i < |ops| ==>
               && stored[i] == Accepted(Effects(Directory(map[], map[]), ops[..i]), ops[i])
               && saved[i] == YamlAccepts(YamlEffects(Directory(map[], map[]), ops[..i]), ops[i])
    ensures Effects(Directory(map[], map[]), ops) == YamlEffects(Directory(map[], map[]), ops) && stored == saved
  {
    hide Filled, Accepted, YamlAccepts, Effect, YamlEffect;
    SameEffects(Directory(map[], map[]), ops);
    forall i | 0 <= i < |ops|
      ensures stored[i] == saved[i]
    {
      SameEffects(Directory(map[], map[]), ops[..i]);
      AcceptanceDiffers(Effects(Directory(map[], map[]), ops[..i]), ops[i]);
    }
  }

  /** Without clashes among all buckets of a file there are none among those stored. */
  lemma PartUnclashed(d: Directory, op: Op)
    requires op.ImportFile? && Plain(d, op)
    ensures var users := op.users[..ValidUsers(op.users)];
            Unclashed(Start(d, op.(users := users)), op.buckets[..StoredBuckets(op.users, op.buckets)])
  {
    hide Clash, PutBuckets, ValidUser, ValidBucket;
    var us, n := op.users[..ValidUsers(op.users)], StoredBuckets(op.users, op.buckets);
    assert n > 0 ==> us == op.users;
    forall i | 0 <= i < n
      ensures op.buckets[..n][..i] == op.buckets[..i] && op.buckets[..n][i] == op.buckets[i]
    {
    }
  }
}
