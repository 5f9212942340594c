/**
 * The key/value backend: users, bucket documents and, for every principal, an index of the
 * buckets that grant it.
 */
module AclStore {
  import opened ListKeys
  import opened AclModel

  datatype UserDoc = UserDoc(accessKey: Key, secret: Key, username: Key)

  datatype BucketDoc = BucketDoc(id: Key, name: Key, dataPath: Key, acl: seq<AclEntry>)

  // ------------------------------------------------------------ what a directory means

  datatype BucketView = BucketView(name: Key, dataPath: Key, levels: LevelMap)

  /** A directory independent of its backend. */
  datatype Directory = Directory(users: map<Key, UserDoc>, buckets: map<Key, BucketView>)

  function ViewOf(b: BucketDoc): BucketView {
    BucketView(b.name, b.dataPath, Levels(b.acl))
  }

  function PutUser(d: Directory, u: UserDoc): Directory {
    d.(users := d.users[u.accessKey := u])
  }

  function DropUser(d: Directory, ak: Key): Directory {
    d.(users := d.users - {ak})
  }

  /** Deleting a user with ACL cleanup: the user goes, and so does every grant to it. */
  function RemoveUser(d: Directory, ak: Key): Directory {
    Directory(d.users - {ak}, ScrubViews(d.buckets, ak))
  }

  function ScrubView(v: BucketView, ak: Key): BucketView {
    v.(levels := v.levels - {AccessKey(ak)})
  }

  function ScrubViews(vs: map<Key, BucketView>, ak: Key): map<Key, BucketView> {
    map id | id in vs :: ScrubView(vs[id], ak)
  }

  function PutBucket(d: Directory, b: BucketDoc): Directory {
    d.(buckets := d.buckets[b.id := ViewOf(b)])
  }

  function RemoveBucket(d: Directory, id: Key): Directory {
    d.(buckets := d.buckets - {id})
  }

  predicate Grants(vs: map<Key, BucketView>, p: Principal) {
    exists id :: id in vs && p in vs[id].levels
  }

  function SetAcl(d: Directory, id: Key, acl: seq<AclEntry>): Directory
    requires id in d.buckets
  {
    d.(buckets := d.buckets[id := d.buckets[id].(levels := Levels(acl))])
  }

  /** The buckets among `ids` lose their grant to the user. */
  function Scrubbed(d: Directory, ids: seq<Key>, ak: Key): Directory {
    d.(buckets := map id | id in d.buckets ::
         if id in ids then ScrubView(d.buckets[id], ak) else d.buckets[id])
  }

  /** Scrubbing the buckets that grant the user is scrubbing all of them. */
  lemma ScrubbingTheGrantingIsEnough(d: Directory, ids: seq<Key>, ak: Key)
    requires forall id :: id in d.buckets && AccessKey(ak) in d.buckets[id].levels ==> id in ids
    ensures Scrubbed(d, ids, ak).buckets == RemoveUser(d, ak).buckets
  {
    forall id | id in d.buckets && id !in ids
      ensures d.buckets[id].levels - {AccessKey(ak)} == d.buckets[id].levels
    {
    }
  }

  lemma ScrubNothing(d: Directory, ak: Key)
    ensures Scrubbed(d, [], ak) == d
  {
  }

  lemma NoneLeft(d: Directory, d': Directory, ak: Key)
    requires d'.buckets == RemoveUser(d, ak).buckets
    ensures forall id :: id in d'.buckets ==> AccessKey(ak) !in d'.buckets[id].levels
  {
  }

  lemma SetAclScrubs(d: Directory, id: Key, acl: seq<AclEntry>, ak: Key)
    requires id in d.buckets && Levels(acl) == d.buckets[id].levels - {AccessKey(ak)}
    ensures SetAcl(d, id, acl) == Scrubbed(d, [id], ak)
  {
    hide Levels;
  }

  /** Removing a user is dropping its document and scrubbing every bucket. */
  lemma RemoveIsBoth(d: Directory, d': Directory, ak: Key)
    requires d'.users == d.users && d'.buckets == RemoveUser(d, ak).buckets
    ensures DropUser(d', ak) == RemoveUser(d, ak)
  {
  }

  lemma ScrubOneMore(d: Directory, ids: seq<Key>, k: nat, ak: Key)
    requires k < |ids|
    ensures Scrubbed(Scrubbed(d, ids[..k], ak), [ids[k]], ak) == Scrubbed(d, ids[..k + 1], ak)
  {
    assert ids[..k + 1] == ids[..k] + [ids[k]];
    assert forall m: LevelMap :: m - {AccessKey(ak)} - {AccessKey(ak)} == m - {AccessKey(ak)};
  }

  predicate ValidUser(u: UserDoc) {
    u.secret != [] && u.username != [] && Identifier(u.accessKey, 128)
  }

  predicate ValidBucket(b: BucketDoc) {
    b.id != [] && b.dataPath != [] && ValidBucketName(b.name) && ValidAcl(b.acl)
  }

  // ------------------------------------------------------------ index documents

  type Index = map<Principal, seq<Key>>

  predicate In(ix: Index, p: Principal, id: Key) {
    p in ix && id in ix[p]
  }

  /** No index lists a bucket without a name. */
  ghost predicate Named(ix: Index) {
    forall p, id :: In(ix, p, id) ==> id != []
  }

  /** The index document a principal's name leads to. */
  function Slot(p: Principal): Principal {
    if p.AccessKey? then AccessKey(Segment(p.name)) else Group(Segment(p.name))
  }

  function InsertId(ids: seq<Key>, id: Key): seq<Key> {
    if ids == [] || Lt(ids[|ids| - 1], id) then ids + [id]
    else if ids[|ids| - 1] == id then ids
    else InsertId(ids[..|ids| - 1], id) + [ids[|ids| - 1]]
  }

  /** `sort` then `dedup`. */
  function SortDedup(ids: seq<Key>): seq<Key> {
    if ids == [] then [] else InsertId(SortDedup(ids[..|ids| - 1]), ids[|ids| - 1])
  }

  lemma {:induction false} InsertIdKeeps(ids: seq<Key>, id: Key, x: Key)
    ensures x in InsertId(ids, id) <==> x == id || x in ids
  {
    hide Lt;
    if ids != [] {
      var n := |ids| - 1;
      assert ids == ids[..n] + [ids[n]];
      InsertIdKeeps(ids[..n], id, x);
    }
  }

  lemma {:induction false} SortDedupKeeps(ids: seq<Key>, x: Key)
    ensures x in SortDedup(ids) <==> x in ids
  {
    if ids != [] {
      var n := |ids| - 1;
      assert ids == ids[..n] + [ids[n]];
      SortDedupKeeps(ids[..n], x);
      InsertIdKeeps(SortDedup(ids[..n]), ids[n], x);
    }
  }

  predicate Ascending(ids: seq<Key>) {
    forall i, j :: 0 <= i < j < |ids| ==> Lt(ids[i], ids[j])
  }

  lemma AppendAscends(ids: seq<Key>, id: Key)
    requires Ascending(ids) && forall k :: 0 <= k < |ids| ==> Lt(ids[k], id)
    ensures Ascending(ids + [id])
  {
    hide Lt;
  }

  lemma {:induction false} InsertIdAscends(ids: seq<Key>, id: Key)
    requires Ascending(ids)
    ensures Ascending(InsertId(ids, id))
  {
    hide Lt;
    var n := |ids| - 1;
    if ids == [] {
    } else if Lt(ids[n], id) {
      forall k | 0 <= k < |ids| ensures Lt(ids[k], id) { if k < n { LtTransitive(ids[k], ids[n], id); } }
      AppendAscends(ids, id);
    } else if ids[n] != id {
      var rest := InsertId(ids[..n], id);
      InsertIdAscends(ids[..n], id);
      LtTotal(ids[n], id);
      forall k | 0 <= k < |rest|
        ensures Lt(rest[k], ids[n])
      {
        InsertIdKeeps(ids[..n], id, rest[k]);
        if rest[k] != id {
          var i :| 0 <= i < n && ids[..n][i] == rest[k];
          assert ids[i] == rest[k];
        }
      }
      AppendAscends(rest, ids[n]);
    }
  }

  /** The stored index lists are strictly ascending, whatever was stored before. */
  lemma {:induction false} SortDedupAscends(ids: seq<Key>)
    ensures Ascending(SortDedup(ids))
  {
    if ids != [] {
      SortDedupAscends(ids[..|ids| - 1]);
      InsertIdAscends(SortDedup(ids[..|ids| - 1]), ids[|ids| - 1]);
    }
  }

  function Without(ids: seq<Key>, id: Key): seq<Key> {
    if ids == [] then [] else Without(ids[..|ids| - 1], id) + (if ids[|ids| - 1] == id then [] else [ids[|ids| - 1]])
  }

  lemma {:induction false} WithoutKeeps(ids: seq<Key>, id: Key)
    ensures forall x :: x in Without(ids, id) <==> x in ids && x != id
    ensures |Without(ids, id)| == |ids| <==> id !in ids
    ensures |Without(ids, id)| <= |ids|
    ensures id !in ids ==> Without(ids, id) == ids
  {
    if ids != [] {
      var n := |ids| - 1;
      assert ids == ids[..n] + [ids[n]];
      WithoutKeeps(ids[..n], id);
    }
  }

  function DropKey(acl: seq<AclEntry>, ak: Key): seq<AclEntry> {
    if acl == [] then []
    else
      var e := acl[|acl| - 1];
      DropKey(acl[..|acl| - 1], ak) + (if e.principal == AccessKey(ak) then [] else [e])
  }

  lemma RaiseWithout(m: LevelMap, e: AclEntry, p: Principal)
    ensures Raise(m, e) - {p} == if e.principal == p then m - {p} else Raise(m - {p}, e)
  {
  }

  /** `retain` drops exactly the user's own entries. */
  lemma {:induction false} DropKeyLevels(acl: seq<AclEntry>, ak: Key)
    ensures Levels(DropKey(acl, ak)) == Levels(acl) - {AccessKey(ak)}
  {
    hide Raise;
    if acl != [] {
      var n := |acl| - 1;
      var rest := DropKey(acl[..n], ak);
      DropKeyLevels(acl[..n], ak);
      assert (rest + [acl[n]])[..|rest|] == rest && rest + [] == rest;
      RaiseWithout(Levels(acl[..n]), acl[n], AccessKey(ak));
    }
  }

  lemma {:induction false} DropKeyLength(acl: seq<AclEntry>, ak: Key)
    ensures |DropKey(acl, ak)| <= |acl|
    ensures |DropKey(acl, ak)| == |acl| <==> AccessKey(ak) !in Levels(acl)
  {
    if acl != [] { DropKeyLength(acl[..|acl| - 1], ak); }
  }

  lemma {:induction false} DropKeyValid(acl: seq<AclEntry>, ak: Key)
    requires ValidAcl(acl)
    ensures ValidAcl(DropKey(acl, ak))
  {
    hide ValidPrincipal;
    if acl != [] { DropKeyValid(acl[..|acl| - 1], ak); }
  }

  // ------------------------------------------------------------ principals in a list

  function Keys(ps: set<Principal>): set<Key> {
    set p | p in ps :: PrincipalKey(p)
  }

  lemma ValidSlot(p: Principal)
    requires ValidPrincipal(p)
    ensures Slot(p) == p
  {
  }

  lemma ValidLevels(acl: seq<AclEntry>, p: Principal)
    requires ValidAcl(acl) && p in Levels(acl)
    ensures ValidPrincipal(p) && Slot(p) == p
  {
    hide ValidPrincipal, Slot;
    GrantedIffListed(acl, p);
    var i :| 0 <= i < |acl| && acl[i].principal == p;
    ValidSlot(p);
  }

  lemma KeysDifference(a: set<Principal>, b: set<Principal>)
    ensures Keys(a) - Keys(b) == Keys(a - b)
  {
    hide PrincipalKey;
    forall k | k in Keys(a - b)
      ensures k in Keys(a) - Keys(b)
    {
      var p :| p in a - b && PrincipalKey(p) == k;
      if q :| q in b && PrincipalKey(q) == k { PrincipalKeyInjective(p, q); }
    }
  }

  lemma KeysRemove(ps: set<Principal>, p: Principal)
    requires p in ps
    ensures Keys(ps) - {PrincipalKey(p)} == Keys(ps - {p})
  {
    KeysDifference(ps, {p});
    assert Keys({p}) == {PrincipalKey(p)};
  }

  lemma NoKeysNoPrincipals(ps: set<Principal>)
    ensures Keys(ps) == {} ==> ps == {}
  {
    if ps != {} {
      var p :| p in ps;
      assert PrincipalKey(p) in Keys(ps);
    }
  }

  function KeySet(acl: seq<AclEntry>): set<Key> {
    set i | 0 <= i < |acl| :: PrincipalKey(acl[i].principal)
  }

  lemma KeySetIsKeys(acl: seq<AclEntry>)
    ensures KeySet(acl) == Keys(Levels(acl).Keys)
  {
    hide PrincipalKey, Levels;
    forall k | k in KeySet(acl)
      ensures k in Keys(Levels(acl).Keys)
    {
      var i :| 0 <= i < |acl| && PrincipalKey(acl[i].principal) == k;
      GrantedIffListed(acl, acl[i].principal);
    }
    forall k | k in Keys(Levels(acl).Keys)
      ensures k in KeySet(acl)
    {
      var p :| p in Levels(acl).Keys && PrincipalKey(p) == k;
      GrantedIffListed(acl, p);
      var i :| 0 <= i < |acl| && acl[i].principal == p;
    }
  }

  /** A key of the set parses back to the principal it stands for. */
  lemma KeyParses(ps: set<Principal>, k: Key)
    requires k in Keys(ps)
    ensures var p := ParsePrincipalKey(k); p.Some? && p.value in ps && PrincipalKey(p.value) == k
  {
    hide PrincipalKey, ParsePrincipalKey;
    var p :| p in ps && PrincipalKey(p) == k;
    PrincipalKeyRoundTrip(p);
  }

  // ------------------------------------------------------------ the store

  /** Every document is stored where its own id leads and could be stored again as it is. */
  predicate DocsOk(buckets: map<Key, BucketDoc>) {
    forall seg :: seg in buckets ==> Segment(buckets[seg].id) == seg && ValidBucket(buckets[seg])
  }

  /** Looking `id` up finds a document that has this very id. */
  predicate Leads(buckets: map<Key, BucketDoc>, id: Key) {
    Segment(id) in buckets && buckets[Segment(id)].id == id
  }

  /** A bucket is in a principal's index exactly when looking it up finds it and its document grants that principal. */
  ghost predicate Agree(buckets: map<Key, BucketDoc>, ix: Index) {
    forall p, id :: In(ix, p, id) <==> Leads(buckets, id) && p in Levels(buckets[Segment(id)].acl)
  }

  function Ids(buckets: map<Key, BucketDoc>): set<Key> {
    set seg | seg in buckets :: buckets[seg].id
  }

  /** The documents by their own ids. */
  function ById(buckets: map<Key, BucketDoc>): map<Key, BucketView> {
    map id | id in Ids(buckets) && Segment(id) in buckets :: ViewOf(buckets[Segment(id)])
  }

  lemma ByIdHas(buckets: map<Key, BucketDoc>, id: Key)
    requires DocsOk(buckets)
    ensures id in ById(buckets) <==> Leads(buckets, id)
    ensures id in ById(buckets) ==> ById(buckets)[id] == ViewOf(buckets[Segment(id)])
  {
    hide Segment, ValidBucket;
  }

  /** Some document has another id that leads to the same place: the same one but for trailing slashes. */
  predicate Clash(ids: set<Key>, id: Key) {
    exists o :: o in ids && o != id && Segment(o) == Segment(id)
  }

  lemma ClashIsLookup(buckets: map<Key, BucketDoc>, id: Key)
    requires DocsOk(buckets)
    ensures Clash(ById(buckets).Keys, id) <==> Segment(id) in buckets && buckets[Segment(id)].id != id
  {
    hide Segment, ValidBucket, ById;
    if o :| o in ById(buckets).Keys && o != id && Segment(o) == Segment(id) { ByIdHas(buckets, o); }
    if Segment(id) in buckets { ByIdHas(buckets, buckets[Segment(id)].id); }
  }

  /** Two stores with the same document ids have them in the same places. */
  lemma SamePlaces(a: map<Key, BucketDoc>, b: map<Key, BucketDoc>)
    requires DocsOk(a) && DocsOk(b) && ById(a).Keys == ById(b).Keys
    ensures a.Keys == b.Keys && forall seg :: seg in a ==> a[seg].id == b[seg].id
  {
    hide ById, ValidBucket, Segment;
    forall seg | seg in a ensures seg in b && a[seg].id == b[seg].id { ByIdHas(a, a[seg].id); ByIdHas(b, a[seg].id); }
    forall seg | seg in b ensures seg in a { ByIdHas(b, b[seg].id); ByIdHas(a, b[seg].id); }
  }

  /** The ids of the documents that a list of ids leads to. */
  function Reached(buckets: map<Key, BucketDoc>, ids: seq<Key>): seq<Key> {
    if ids == [] then []
    else
      var n := |ids| - 1;
      Reached(buckets, ids[..n]) + (if Segment(ids[n]) in buckets then [buckets[Segment(ids[n])].id] else [])
  }

  /** Ids that lead to documents of their own reach themselves. */
  lemma {:induction false} LeadingReach(buckets: map<Key, BucketDoc>, ids: seq<Key>)
    requires forall i :: 0 <= i < |ids| ==> Leads(buckets, ids[i])
    ensures Reached(buckets, ids) == ids
  {
    hide Segment;
    if ids != [] {
      var n := |ids| - 1;
      LeadingReach(buckets, ids[..n]);
      assert Leads(buckets, ids[n]);
      assert ids == ids[..n] + [ids[n]];
    }
  }

  lemma {:induction false} SameReach(a: map<Key, BucketDoc>, b: map<Key, BucketDoc>, ids: seq<Key>)
    requires a.Keys == b.Keys && forall seg :: seg in a ==> a[seg].id == b[seg].id
    ensures Reached(a, ids) == Reached(b, ids)
  {
    if ids != [] { SameReach(a, b, ids[..|ids| - 1]); }
  }

  /** The index document of a user's key. */
  function IndexOf(ix: Index, ak: Key): seq<Key> {
    var slot := AccessKey(Segment(ak));
    if slot in ix then ix[slot] else []
  }

  /** The directory without whatever document `id` leads to. */
  function Displaced(d: map<Key, BucketView>, buckets: map<Key, BucketDoc>, id: Key): map<Key, BucketView> {
    if Segment(id) in buckets then d - {buckets[Segment(id)].id} else d
  }

  lemma PutById(buckets: map<Key, BucketDoc>, b: BucketDoc)
    requires DocsOk(buckets) && ValidBucket(b)
    ensures DocsOk(buckets[Segment(b.id) := b])
    ensures ById(buckets[Segment(b.id) := b]) == Displaced(ById(buckets), buckets, b.id)[b.id := ViewOf(b)]
  {
    hide Segment, ValidBucket, ById;
    var after := buckets[Segment(b.id) := b];
    var want := Displaced(ById(buckets), buckets, b.id)[b.id := ViewOf(b)];
    forall id
      ensures id in ById(after) <==> id in want
      ensures id in want ==> ById(after)[id] == want[id]
    {
      ByIdHas(buckets, id);
      ByIdHas(after, id);
    }
  }

  lemma RemoveById(buckets: map<Key, BucketDoc>, id: Key)
    requires DocsOk(buckets)
    ensures DocsOk(buckets - {Segment(id)})
    ensures ById(buckets - {Segment(id)}) == Displaced(ById(buckets), buckets, id)
  {
    hide Segment, ValidBucket, ById;
    var after := buckets - {Segment(id)};
    var want := Displaced(ById(buckets), buckets, id);
    forall i
      ensures i in ById(after) <==> i in want
      ensures i in want ==> ById(after)[i] == want[i]
    {
      ByIdHas(buckets, i);
      ByIdHas(after, i);
    }
  }

  lemma NoClashDisplaces(buckets: map<Key, BucketDoc>, id: Key, v: BucketView)
    requires DocsOk(buckets) && !Clash(ById(buckets).Keys, id)
    ensures Displaced(ById(buckets), buckets, id) == ById(buckets) - {id}
    ensures Displaced(ById(buckets), buckets, id)[id := v] == ById(buckets)[id := v]
  {
    hide Segment, ValidBucket, ById, Clash;
    ByIdHas(buckets, id);
    ClashIsLookup(buckets, id);
  }

  /** The principals granted by the document that an id leads to. */
  function GrantedAt(buckets: map<Key, BucketDoc>, id: Key): set<Principal> {
    if Segment(id) in buckets then Levels(buckets[Segment(id)].acl).Keys else {}
  }

  /** The index after an upsert agrees exactly when no other spelling was displaced, or that one granted nothing. */
  lemma UpsertAgrees(buckets: map<Key, BucketDoc>, ix: Index, ix': Index, b: BucketDoc)
    requires DocsOk(buckets) && Agree(buckets, ix)
    requires var was, now := GrantedAt(buckets, b.id), Levels(b.acl).Keys;
             forall q, i :: In(ix', q, i) <==> (In(ix, q, i) && !(q in was - now && i == b.id)) || (q in now - was && i == b.id)
    ensures Agree(buckets[Segment(b.id) := b], ix') <==> !Clash(ById(buckets).Keys, b.id) || GrantedAt(buckets, b.id) == {}
  {
    hide In, Levels, ValidBucket, Segment, ById, Clash;
    ClashIsLookup(buckets, b.id);
    var was, now, seg := GrantedAt(buckets, b.id), Levels(b.acl).Keys, Segment(b.id);
    var buckets' := buckets[seg := b];
    if Clash(ById(buckets).Keys, b.id) {
      var o := buckets[seg].id;
      assert forall q :: In(ix, q, o) <==> q in was;
      assert forall q :: !In(ix, q, b.id);
      if q :| q in was { assert In(ix', q, o) && !Leads(buckets', o); }
    } else {
      assert forall q :: In(ix, q, b.id) <==> q in was;
    }
  }

  lemma DeleteAgrees(buckets: map<Key, BucketDoc>, ix: Index, ix': Index, id: Key)
    requires DocsOk(buckets) && Agree(buckets, ix)
    requires forall q, i :: In(ix', q, i) <==> In(ix, q, i) && !(q in GrantedAt(buckets, id) && i == id)
    ensures Agree(buckets - {Segment(id)}, ix') <==> !Clash(ById(buckets).Keys, id) || GrantedAt(buckets, id) == {}
  {
    hide In, Levels, ValidBucket, Segment, ById, Clash;
    ClashIsLookup(buckets, id);
    var was, seg := GrantedAt(buckets, id), Segment(id);
    if Clash(ById(buckets).Keys, id) {
      var o := buckets[seg].id;
      assert forall q :: In(ix, q, o) <==> q in was;
      if q :| q in was { assert In(ix', q, o); }
    } else {
      assert forall q :: In(ix, q, id) <==> q in was;
    }
  }

  predicate GrantedAnywhere(buckets: map<Key, BucketDoc>, p: Principal) {
    exists seg :: seg in buckets && p in Levels(buckets[seg].acl)
  }

  lemma GrantedInView(buckets: map<Key, BucketDoc>, p: Principal)
    requires DocsOk(buckets)
    ensures GrantedAnywhere(buckets, p) <==> Grants(ById(buckets), p)
  {
    hide Levels, Segment, ValidBucket, ById;
    if seg :| seg in buckets && p in Levels(buckets[seg].acl) { ByIdHas(buckets, buckets[seg].id); }
    if id :| id in ById(buckets) && p in ById(buckets)[id].levels { ByIdHas(buckets, id); }
  }

  lemma PlainSegment(ak: Key)
    requires !EndsWithSlash(ak)
    ensures Segment(ak) == ak
  {
  }

  lemma StillNamed(ix: Index, p: Principal)
    requires Named(ix)
    ensures Named(ix - {p})
  {
    forall q, id | In(ix - {p}, q, id) ensures id != [] { assert In(ix, q, id); }
  }

  /** Agreeing indices name their buckets. */
  lemma AgreeingNamed(buckets: map<Key, BucketDoc>, ix: Index)
    requires DocsOk(buckets) && Agree(buckets, ix)
    ensures Named(ix)
  {
    hide Levels, Segment;
    forall p, id | In(ix, p, id) ensures id != [] { assert Leads(buckets, id) && ValidBucket(buckets[Segment(id)]); }
  }

  lemma ReachedNothing(buckets: map<Key, BucketDoc>)
    ensures Reached(buckets, []) == []
  {
  }

  /** One more id of the index: one more document scrubbed. */
  lemma ScrubMore(d: Directory, buckets: map<Key, BucketDoc>, ids: seq<Key>, k: nat, ak: Key)
    requires k < |ids|
    ensures Scrubbed(Scrubbed(d, Reached(buckets, ids[..k]), ak), Reached(buckets, [ids[k]]), ak)
            == Scrubbed(d, Reached(buckets, ids[..k + 1]), ak)
  {
    hide Scrubbed, Segment;
    var before, one := Reached(buckets, ids[..k]), Reached(buckets, [ids[k]]);
    var single := [ids[k]];
    assert ids[..k + 1][..k] == ids[..k] && single[..0] == [];
    ReachedNothing(buckets);
    assert Reached(buckets, ids[..k + 1]) == before + one;
    if one == [] {
      ScrubNothing(Scrubbed(d, before, ak), ak);
      assert before + one == before;
    } else {
      var all := before + one;
      ScrubOneMore(d, all, |before|, ak);
      assert all[..|before|] == before && all[..|before| + 1] == all && one == [all[|before|]];
    }
  }

  /** From agreeing indices: every entry leads to its document, and every granting document is an entry. */
  lemma IndexLeads(buckets: map<Key, BucketDoc>, ix: Index, p: Principal)
    requires DocsOk(buckets) && Agree(buckets, ix)
    ensures var ids := if p in ix then ix[p] else [];
            && (forall i :: 0 <= i < |ids| ==> Leads(buckets, ids[i]))
            && (forall id :: id in ById(buckets) && p in ById(buckets)[id].levels ==> id in ids)
  {
    hide Levels, Segment, ValidBucket, ById;
    var ids := if p in ix then ix[p] else [];
    forall i | 0 <= i < |ids| ensures Leads(buckets, ids[i]) { assert In(ix, p, ids[i]); }
    forall id | id in ById(buckets) && p in ById(buckets)[id].levels
      ensures id in ids
    {
      ByIdHas(buckets, id);
      assert In(ix, p, id);
    }
  }

  /** Dropping an index document is right exactly when no document grants its principal. */
  lemma DropSlotAgrees(buckets: map<Key, BucketDoc>, ix: Index, p: Principal)
    requires DocsOk(buckets) && Agree(buckets, ix)
    ensures Agree(buckets, ix - {p}) <==> !GrantedAnywhere(buckets, p)
  {
    hide Levels, Segment, ValidBucket;
    if seg :| seg in buckets && p in Levels(buckets[seg].acl) {
      assert Leads(buckets, buckets[seg].id) && !In(ix - {p}, p, buckets[seg].id);
    } else {
      forall q, i
        ensures In(ix - {p}, q, i) <==> In(ix, q, i)
      {
        assert q == p ==> !In(ix, q, i);
      }
    }
  }

  lemma SlashIsInvalid(ak: Key)
    requires EndsWithSlash(ak)
    ensures !ValidPrincipal(AccessKey(ak))
  {
  }

  class AdminStore {
    var users: map<Key, UserDoc>
    var buckets: map<Key, BucketDoc>
    var index: Index

    constructor ()
      ensures Valid() && View() == Directory(map[], map[])
    {
      users, buckets, index := map[], map[], map[];
    }

    ghost predicate Valid()
      reads this
    {
      DocsOk(buckets) && Agree(buckets, index)
    }

    ghost function View(): Directory
      reads `users, `buckets
    {
      Directory(users, ById(buckets))
    }

    method IndexWrite(slot: Principal, ids: seq<Key>)
      modifies `index
      ensures forall q, i :: In(index, q, i) <==> if q == slot then i in ids else In(old(index), q, i)
    {
      if ids == [] {
        index := index - {slot};
      } else {
        index := index[slot := ids];
      }
    }

    method IndexAddBucket(p: Principal, id: Key)
      modifies `index
      ensures forall q, i :: In(index, q, i) <==> In(old(index), q, i) || (q == Slot(p) && i == id)
    {
      var slot := Slot(p);
      var ids := if slot in index then index[slot] else [];
      if id !in ids {
        forall i ensures i in SortDedup(ids + [id]) <==> i in ids || i == id { SortDedupKeeps(ids + [id], i); }
        IndexWrite(slot, SortDedup(ids + [id]));
      }
    }

    method IndexRemoveBucket(p: Principal, id: Key)
      modifies `index
      ensures forall q, i :: In(index, q, i) <==> In(old(index), q, i) && !(q == Slot(p) && i == id)
    {
      var slot := Slot(p);
      var ids := if slot in index then index[slot] else [];
      WithoutKeeps(ids, id);
      if |Without(ids, id)| != |ids| {
        IndexWrite(slot, Without(ids, id));
      }
    }

    method RemoveFromIndices(id: Key, pks: set<Key>, ghost ps: set<Principal>)
      requires pks == Keys(ps) && forall p :: p in ps ==> Slot(p) == p
      modifies `index
      ensures forall q, i :: In(index, q, i) <==> In(old(index), q, i) && !(q in ps && i == id)
    {
      hide PrincipalKey, ParsePrincipalKey, Slot, In;
      var rest := pks;
      ghost var left := ps;
      while rest != {}
        invariant rest == Keys(left) && left <= ps
        invariant forall q, i :: In(index, q, i) <==> In(old(index), q, i) && !(q in ps - left && i == id)
        decreases rest
      {
        var pk :| pk in rest;
        KeyParses(left, pk);
        var p := ParsePrincipalKey(pk);
        KeysRemove(left, p.value);
        IndexRemoveBucket(p.value, id);
        rest := rest - {pk};
        left := left - {p.value};
      }
      NoKeysNoPrincipals(left);
    }

    method AddToIndices(id: Key, pks: set<Key>, ghost ps: set<Principal>)
      requires pks == Keys(ps) && forall p :: p in ps ==> Slot(p) == p
      modifies `index
      ensures forall q, i :: In(index, q, i) <==> In(old(index), q, i) || (q in ps && i == id)
    {
      hide PrincipalKey, ParsePrincipalKey, Slot, In;
      var rest := pks;
      ghost var left := ps;
      while rest != {}
        invariant rest == Keys(left) && left <= ps
        invariant forall q, i :: In(index, q, i) <==> In(old(index), q, i) || (q in ps - left && i == id)
        decreases rest
      {
        var pk :| pk in rest;
        KeyParses(left, pk);
        var p := ParsePrincipalKey(pk);
        KeysRemove(left, p.value);
        IndexAddBucket(p.value, id);
        rest := rest - {pk};
        left := left - {p.value};
      }
      NoKeysNoPrincipals(left);
    }

    /** `add_bucket_to_indices` */
    method AddBucketToIndices(id: Key, acl: seq<AclEntry>)
      requires ValidAcl(acl)
      modifies `index
      ensures forall q, i :: In(index, q, i) <==> In(old(index), q, i) || (q in Levels(acl) && i == id)
    {
      hide Slot, In, ValidPrincipal, Levels;
      LevelsOfNothing();
      for k := 0 to |acl|
        invariant forall q, i :: In(index, q, i) <==> In(old(index), q, i) || (q in Levels(acl[..k]) && i == id)
      {
        LevelsStep(acl, k);
        ValidSlot(acl[k].principal);
        IndexAddBucket(acl[k].principal, id);
      }
      assert acl[..|acl|] == acl;
    }

    /** `remove_bucket_from_indices` */
    method RemoveBucketFromIndices(id: Key, acl: seq<AclEntry>)
      requires ValidAcl(acl)
      modifies `index
      ensures forall q, i :: In(index, q, i) <==> In(old(index), q, i) && !(q in Levels(acl) && i == id)
    {
      hide Slot, In, ValidPrincipal, Levels;
      LevelsOfNothing();
      for k := 0 to |acl|
        invariant forall q, i :: In(index, q, i) <==> In(old(index), q, i) && !(q in Levels(acl[..k]) && i == id)
      {
        LevelsStep(acl, k);
        ValidSlot(acl[k].principal);
        IndexRemoveBucket(acl[k].principal, id);
      }
      assert acl[..|acl|] == acl;
    }

    /** The index part of an upsert: drop the principals no longer granted, add the new ones. */
    method Reindex(id: Key, acl: seq<AclEntry>)
      requires DocsOk(buckets) && ValidAcl(acl)
      modifies `index
      ensures var was, now := GrantedAt(buckets, id), Levels(acl).Keys;
              forall q, i :: In(index, q, i)
                <==> (In(old(index), q, i) && !(q in was - now && i == id)) || (q in now - was && i == id)
    {
      hide In, Levels, PrincipalKey, Slot, ValidPrincipal, SortedAcl;
      if Segment(id) in buckets {
        assert ValidBucket(buckets[Segment(id)]);
        var before := NormalizeAcl(buckets[Segment(id)].acl);
        ghost var was, now := Levels(before).Keys, Levels(acl).Keys;
        forall p | p in was ensures Slot(p) == p { ValidLevels(before, p); }
        forall p | p in now ensures Slot(p) == p { ValidLevels(acl, p); }
        KeySetIsKeys(before);
        KeySetIsKeys(acl);
        KeysDifference(was, now);
        KeysDifference(now, was);
        RemoveFromIndices(id, KeySet(before) - KeySet(acl), was - now);
        AddToIndices(id, KeySet(acl) - KeySet(before), now - was);
      } else {
        AddBucketToIndices(id, acl);
      }
    }

    /**
     * Stores a bucket document, displacing whatever its id leads to.  If the indices
     * agreed they agree afterwards exactly when no document of another spelling was
     * displaced, or that one granted nothing.
     */
    method UpsertBucket(b: BucketDoc) returns (ok: bool)
      requires DocsOk(buckets)
      modifies `buckets, `index
      ensures DocsOk(buckets) && (ok <==> ValidBucket(b)) && (old(Named(index)) ==> Named(index))
      ensures !ok ==> buckets == old(buckets) && index == old(index)
      ensures ok ==> View().buckets == Displaced(old(View()).buckets, old(buckets), b.id)[b.id := ViewOf(b)]
      ensures ok && !Clash(old(View()).buckets.Keys, b.id) ==> View() == PutBucket(old(View()), b)
      ensures ok && old(Agree(buckets, index))
              ==> (Agree(buckets, index) <==> !Clash(old(View()).buckets.Keys, b.id) || GrantedAt(old(buckets), b.id) == {})
    {
      hide In, Levels, PrincipalKey, Slot, ValidPrincipal, SortedAcl, ValidBucketName, Segment, DocsOk, Agree, ById, Clash;
      if b.id == [] || !ValidBucketName(b.name) || b.dataPath == [] || !ValidAcl(b.acl) {
        return false;
      }
      var acl := NormalizeAcl(b.acl);
      var doc := b.(acl := acl);
      Reindex(b.id, acl);
      if old(Agree(buckets, index)) { UpsertAgrees(buckets, old(index), index, doc); }
      PutById(buckets, doc);
      if !Clash(ById(buckets).Keys, b.id) { NoClashDisplaces(buckets, b.id, ViewOf(doc)); }
      buckets := buckets[Segment(b.id) := doc];
      return true;
    }

    method DeleteBucket(id: Key) returns (ok: bool)
      requires DocsOk(buckets)
      modifies `buckets, `index
      ensures DocsOk(buckets) && (ok <==> id != []) && (old(Named(index)) ==> Named(index))
      ensures !ok ==> buckets == old(buckets) && index == old(index)
      ensures ok ==> View().buckets == Displaced(old(View()).buckets, old(buckets), id)
      ensures ok && !Clash(old(View()).buckets.Keys, id) ==> View() == RemoveBucket(old(View()), id)
      ensures ok && old(Agree(buckets, index))
              ==> (Agree(buckets, index) <==> !Clash(old(View()).buckets.Keys, id) || GrantedAt(old(buckets), id) == {})
    {
      hide In, Levels, ValidAcl, ValidBucketName, Segment, Agree, ById, Clash;
      if id == [] {
        return false;
      }
      if !Clash(ById(buckets).Keys, id) { NoClashDisplaces(buckets, id, BucketView([], [], map[])); }
      if Segment(id) in buckets {
        assert ValidBucket(buckets[Segment(id)]);
        RemoveBucketFromIndices(id, buckets[Segment(id)].acl);
        if old(Agree(buckets, index)) { DeleteAgrees(buckets, old(index), index, id); }
        RemoveById(buckets, id);
        buckets := buckets - {Segment(id)};
      }
      return true;
    }

    /** Works on the stored document under the document's own id, however the caller spells it. */
    method SetBucketAcl(id: Key, acl: seq<AclEntry>) returns (ok: bool)
      requires DocsOk(buckets)
      modifies `buckets, `index
      ensures DocsOk(buckets) && (ok <==> id != [] && Segment(id) in old(buckets) && ValidAcl(acl))
      ensures ok ==> old(buckets)[Segment(id)].id in old(View()).buckets
      ensures ok ==> View() == SetAcl(old(View()), old(buckets)[Segment(id)].id, acl)
      ensures !ok ==> buckets == old(buckets) && index == old(index)
      ensures (old(Agree(buckets, index)) ==> Agree(buckets, index)) && (old(Named(index)) ==> Named(index))
    {
      hide In, Levels, ValidAcl, ValidBucketName, Agree, Segment, ById, Clash, Named;
      if id == [] || Segment(id) !in buckets {
        return false;
      }
      var b := buckets[Segment(id)];
      assert ValidBucket(b) && Segment(b.id) == Segment(id);
      ByIdHas(buckets, b.id);
      ClashIsLookup(buckets, b.id);
      ok := UpsertBucket(b.(acl := acl));
    }

    method UpsertUser(u: UserDoc) returns (ok: bool)
      modifies `users
      ensures ok <==> ValidUser(u)
      ensures View() == if ok then PutUser(old(View()), u) else old(View())
    {
      if u.secret == [] || u.username == [] || !Identifier(u.accessKey, 128) {
        return false;
      }
      ValidSlot(AccessKey(u.accessKey));
      users := users[Segment(u.accessKey) := u];
      return true;
    }

    /** The body of the cleanup loop: rewrite the list of whatever document the id leads to, if it names the user. */
    method ScrubBucket(id: Key, ak: Key)
      requires DocsOk(buckets) && id != []
      modifies `buckets, `index
      ensures DocsOk(buckets) && (old(Agree(buckets, index)) ==> Agree(buckets, index)) && (old(Named(index)) ==> Named(index))
      ensures View() == Scrubbed(old(View()), Reached(old(buckets), [id]), ak)
      ensures ById(buckets).Keys == old(ById(buckets)).Keys
      ensures !ValidPrincipal(AccessKey(ak)) ==> buckets == old(buckets) && index == old(index)
    {
      hide In, Levels, ValidAcl, ValidBucketName, Agree, ValidPrincipal, Segment, ById, Named;
      ghost var single := [id];
      assert single[..0] == [];
      if Segment(id) in buckets {
        var b := buckets[Segment(id)];
        assert ValidBucket(b) && Segment(b.id) == Segment(id);
        ByIdHas(buckets, b.id);
        assert Reached(buckets, [id]) == [b.id] by { assert Reached(buckets, []) == []; }
        var kept := DropKey(b.acl, ak);
        DropKeyLevels(b.acl, ak);
        DropKeyLength(b.acl, ak);
        DropKeyValid(b.acl, ak);
        if AccessKey(ak) in Levels(b.acl) { ValidLevels(b.acl, AccessKey(ak)); }
        if |kept| != |b.acl| {
          var _ := SetBucketAcl(id, kept);
          SetAclScrubs(old(View()), b.id, kept, ak);
        } else {
          assert Levels(b.acl) - {AccessKey(ak)} == Levels(b.acl);
        }
      }
    }

    /**
     * Deletes a user and, with `cleanup`, the grants in the documents its index leads to.
     * From agreeing indices and for a key without a trailing slash that is the full scan of
     * the directory.  Without cleanup, or for a key with a trailing slash, the index document
     * goes while the bucket documents stay, so the indices agree afterwards exactly if no
     * bucket granted the user.
     */
    method DeleteUser(ak: Key, cleanup: bool) returns (ok: bool)
      requires DocsOk(buckets) && Named(index)
      modifies this
      ensures DocsOk(buckets) && Named(index) && (ok <==> ak != [])
      ensures !ok ==> buckets == old(buckets) && index == old(index) && users == old(users)
      ensures !cleanup || EndsWithSlash(ak) ==> buckets == old(buckets)
      ensures ok ==>
                var ids := if cleanup then Reached(old(buckets), IndexOf(old(index), ak)) else [];
                View() == DropUser(Scrubbed(old(View()), ids, ak), Segment(ak))
      ensures old(Agree(buckets, index)) ==>
                && (ok && cleanup && !EndsWithSlash(ak) ==> View() == RemoveUser(old(View()), ak))
                && (ok ==> (Agree(buckets, index)
                            <==> (cleanup && !EndsWithSlash(ak)) || !GrantedAnywhere(old(buckets), AccessKey(Segment(ak)))))
    {
      hide Levels, ValidBucketName, ValidAcl, ById, Scrubbed, RemoveUser, Reached, IndexOf, DocsOk, Agree, GrantedAnywhere, Segment;
      if ak == [] {
        return false;
      }
      ScrubNothing(View(), ak);
      if cleanup {
        Scrub(ak);
      }
      ghost var agreed := old(Agree(buckets, index));
      if agreed { DropSlotAgrees(buckets, index, AccessKey(Segment(ak))); }
      if agreed && cleanup && !EndsWithSlash(ak) { PlainSegment(ak); RemoveIsBoth(old(View()), View(), ak); }
      StillNamed(index, AccessKey(Segment(ak)));
      users := users - {Segment(ak)};
      index := index - {AccessKey(Segment(ak))};
      return true;
    }

    /** Scrubs every document the user's index leads to; from agreeing indices that leaves no grant to the user. */
    method Scrub(ak: Key)
      requires DocsOk(buckets) && Named(index)
      modifies `buckets, `index
      ensures DocsOk(buckets) && Named(index) && (old(Agree(buckets, index)) ==> Agree(buckets, index))
      ensures View() == Scrubbed(old(View()), Reached(old(buckets), IndexOf(old(index), ak)), ak)
      ensures EndsWithSlash(ak) ==> buckets == old(buckets) && index == old(index)
      ensures old(Agree(buckets, index)) && !EndsWithSlash(ak) ==>
                View().buckets == RemoveUser(old(View()), ak).buckets && !GrantedAnywhere(buckets, AccessKey(ak))
    {
      hide Levels, ValidBucketName, ValidAcl, RemoveUser, Scrubbed, ValidPrincipal, ById, Reached, Agree, GrantedAnywhere, DocsOk;
      var slot := AccessKey(Segment(ak));
      var ids := if slot in index then index[slot] else [];
      ghost var d, was := View(), buckets;
      ScrubNothing(d, ak);
      assert Reached(was, ids[..0]) == [] by { ReachedNothing(was); assert ids[..0] == []; }
      if EndsWithSlash(ak) { SlashIsInvalid(ak); }
      forall k | 0 <= k < |ids| ensures ids[k] != [] { assert In(index, slot, ids[k]); }
      for k := 0 to |ids|
        invariant DocsOk(buckets) && Named(index) && (old(Agree(buckets, index)) ==> Agree(buckets, index))
        invariant View() == Scrubbed(d, Reached(was, ids[..k]), ak) && ById(buckets).Keys == ById(was).Keys
        invariant EndsWithSlash(ak) ==> buckets == old(buckets) && index == old(index)
      {
        SamePlaces(was, buckets);
        SameReach(was, buckets, [ids[k]]);
        ScrubBucket(ids[k], ak);
        ScrubMore(d, was, ids, k, ak);
      }
      assert ids[..|ids|] == ids;
      if old(Agree(buckets, index)) && !EndsWithSlash(ak) {
        assert Segment(ak) == ak;
        IndexLeads(was, old(index), slot);
        LeadingReach(was, ids);
        ScrubbingTheGrantingIsEnough(d, ids, ak);
        NoneLeft(d, View(), ak);
        GrantedInView(buckets, slot);
      }
    }

    /**
     * Import: a file that does not validate is refused before anything changes.  Then,
     * after an optional purge, users and buckets are stored one by one, up to the first with
     * an empty mandatory field.  While no id is another spelling of an earlier one, this is
     * what is added, and the indices agree throughout.
     */
    method Import(us: seq<UserDoc>, bs: seq<BucketDoc>, replace: bool) returns (ok: bool)
      requires DocsOk(buckets)
      modifies this
      ensures DocsOk(buckets) && (old(Named(index)) ==> Named(index))
      ensures ok <==> FileValid(us, bs) && ValidUsers(us) == |us| && StoredBuckets(us, bs) == |bs|
      ensures !FileValid(us, bs) ==> users == old(users) && buckets == old(buckets) && index == old(index)
      ensures var start := PutUsers(if replace then Directory(map[], map[]) else old(View()), us[..ValidUsers(us)]);
              FileValid(us, bs) && Unclashed(start, bs[..StoredBuckets(us, bs)]) ==>
                && View() == PutBuckets(start, bs[..StoredBuckets(us, bs)])
                && (replace || old(Agree(buckets, index)) ==> Agree(buckets, index))
    {
      hide ValidBucket, ValidUser, Agree, DocsOk, Segment, ById, FileValid, PutUsers, PutBuckets, PutBucket, Unclashed, Named;
      ghost var start := if replace then Directory(map[], map[]) else View();
      ghost var agreed := replace || Agree(buckets, index);
      if !FileValid(us, bs) {
        return false;
      }
      if replace {
        EmptyStoreOk();
        users, buckets, index := map[], map[], map[];
      }
      PutNothing(start);
      assert us[..0] == [];
      for k := 0 to |us|
        invariant DocsOk(buckets) && View() == PutUsers(start, us[..k]) && (old(Named(index)) ==> Named(index))
        invariant agreed ==> Agree(buckets, index)
        invariant forall n :: 0 <= n < k ==> ValidUser(us[n])
      {
        var stored := UpsertUser(us[k]);
        if !stored {
          PutNothing(View());
          assert ValidUsers(us) == k && bs[..0] == [];
          return false;
        }
        PutOneUser(start, us, k);
      }
      assert us[..|us|] == us && ValidUsers(us) == |us|;
      ghost var e := View();
      PutNothing(e);
      for k := 0 to |bs|
        invariant DocsOk(buckets) && (old(Named(index)) ==> Named(index))
        invariant Unclashed(e, bs[..k]) ==> View() == PutBuckets(e, bs[..k]) && (agreed ==> Agree(buckets, index))
        invariant forall n :: 0 <= n < k ==> ValidBucket(bs[n])
      {
        var stored := UpsertBucket(bs[k]);
        if !stored {
          assert ValidBuckets(bs) == k;
          return false;
        }
        PutOneBucket(e, bs, k);
      }
      assert bs[..|bs|] == bs && ValidBuckets(bs) == |bs|;
      return true;
    }
  }

  lemma EmptyStoreOk()
    ensures DocsOk(map[]) && Agree(map[], map[]) && Named(map[]) && ById(map[]) == map[]
  {
  }

  predicate UsersValid(us: seq<UserDoc>) {
    forall u :: u in us ==> Identifier(u.accessKey, 128)
  }

  predicate BucketsValid(bs: seq<BucketDoc>) {
    forall b :: b in bs ==> ValidBucketName(b.name) && ValidAcl(b.acl)
  }

  /** What a directory file is checked for when it is read or written. */
  predicate FileValid(us: seq<UserDoc>, bs: seq<BucketDoc>) {
    UsersValid(us) && BucketsValid(bs)
  }

  /** How many users come before the first that is refused. */
  function ValidUsers(us: seq<UserDoc>): (n: nat)
    ensures n <= |us| && (forall i :: 0 <= i < n ==> ValidUser(us[i])) && (n < |us| ==> !ValidUser(us[n]))
  {
    if us == [] || !ValidUser(us[0]) then 0 else 1 + ValidUsers(us[1..])
  }

  function ValidBuckets(bs: seq<BucketDoc>): (n: nat)
    ensures n <= |bs| && (forall i :: 0 <= i < n ==> ValidBucket(bs[i])) && (n < |bs| ==> !ValidBucket(bs[n]))
  {
    if bs == [] || !ValidBucket(bs[0]) then 0 else 1 + ValidBuckets(bs[1..])
  }

  /** How many buckets of an imported file are stored: none after a refused user. */
  function StoredBuckets(us: seq<UserDoc>, bs: seq<BucketDoc>): (n: nat)
    ensures n <= |bs|
  {
    if ValidUsers(us) == |us| then ValidBuckets(bs) else 0
  }

  /** Storing the buckets in order never meets another spelling of an id. */
  predicate Unclashed(d: Directory, bs: seq<BucketDoc>) {
    forall i :: 0 <= i < |bs| ==> !Clash(PutBuckets(d, bs[..i]).buckets.Keys, bs[i].id)
  }

  function PutUsers(d: Directory, us: seq<UserDoc>): Directory {
    if us == [] then d else PutUser(PutUsers(d, us[..|us| - 1]), us[|us| - 1])
  }

  function PutBuckets(d: Directory, bs: seq<BucketDoc>): Directory {
    if bs == [] then d else PutBucket(PutBuckets(d, bs[..|bs| - 1]), bs[|bs| - 1])
  }

  lemma PutNothing(d: Directory)
    ensures PutUsers(d, []) == d && PutBuckets(d, []) == d && Unclashed(d, [])
  {
  }

  lemma PutOneUser(d: Directory, us: seq<UserDoc>, k: nat)
    requires k < |us|
    ensures PutUsers(d, us[..k + 1]) == PutUser(PutUsers(d, us[..k]), us[k])
  {
    assert us[..k + 1][..k] == us[..k];
  }

  lemma PutOneBucket(d: Directory, bs: seq<BucketDoc>, k: nat)
    requires k < |bs|
    ensures PutBuckets(d, bs[..k + 1]) == PutBucket(PutBuckets(d, bs[..k]), bs[k])
    ensures Unclashed(d, bs[..k + 1])
            <==> Unclashed(d, bs[..k]) && !Clash(PutBuckets(d, bs[..k]).buckets.Keys, bs[k].id)
  {
    hide Clash, PutBuckets, PutBucket;
    assert bs[..k + 1][..k] == bs[..k] && bs[..k + 1][k] == bs[k];
    assert forall i :: 0 <= i < k ==> bs[..k + 1][..i] == bs[..k][..i] && bs[..k + 1][i] == bs[..k][i];
    assert PutBuckets(d, bs[..k + 1]) == PutBucket(PutBuckets(d, bs[..k]), bs[k]) by { PutLast(d, bs[..k + 1]); }
  }

  lemma PutLast(d: Directory, bs: seq<BucketDoc>)
    requires bs != []
    ensures PutBuckets(d, bs) == PutBucket(PutBuckets(d, bs[..|bs| - 1]), bs[|bs| - 1])
  {
  }

  /** A bucket granting some key, then deleting the user by the key with a slash: the index forgets a standing grant. */
  method SlashBreaksAgreement(b: BucketDoc, ak: Key) returns (store: AdminStore)
    requires ValidBucket(b) && EndsWithSlash(ak) && AccessKey(Segment(ak)) in Levels(b.acl)
    ensures !Agree(store.buckets, store.index) && store.View().buckets == map[b.id := ViewOf(b)]
  {
    assert ak != [];
    hide Agree, ValidBucket, Segment, Levels, ById, Scrubbed, Reached, IndexOf, EndsWithSlash, GrantedAnywhere, Grants;
    store := new AdminStore();
    var _ := store.UpsertBucket(b);
    ByIdHas(store.buckets, b.id);
    assert store.View().buckets == map[b.id := ViewOf(b)];
    GrantedInView(store.buckets, AccessKey(Segment(ak)));
    assert Grants(store.View().buckets, AccessKey(Segment(ak))) by { OneGrants(b, AccessKey(Segment(ak))); }
    AgreeingNamed(store.buckets, store.index);
    var _ := store.DeleteUser(ak, true);
  }

  lemma OneGrants(b: BucketDoc, p: Principal)
    requires p in Levels(b.acl)
    ensures Grants(map[b.id := ViewOf(b)], p)
  {
    hide Levels;
    var vs := map[b.id := ViewOf(b)];
    assert b.id in vs && p in vs[b.id].levels;
  }

  /** "a" and "a/" are such keys. */
  method SlashKeyBreaksAgreement() returns (store: AdminStore)
    ensures !Agree(store.buckets, store.index)
  {
    var name: Key := [97];
    var b := BucketDoc([98], [98, 98, 98], [47], [AclEntry(AccessKey(name), 1)]);
    ValidExample(name);
    assert Segment([97, 47]) == name by { assert [97, 47][..1] == name; }
    assert AccessKey(name) in Levels(b.acl) by { GrantedIffListed(b.acl, AccessKey(name)); assert b.acl[0].principal == AccessKey(name); }
    hide Agree;
    store := SlashBreaksAgreement(b, [97, 47]);
  }

  /** Two spellings of one id, the first with a grant: its index entry outlives its document. */
  method TwoSpellingsBreakAgreement(b: BucketDoc, c: BucketDoc) returns (store: AdminStore)
    requires ValidBucket(b) && ValidBucket(c) && Segment(b.id) == Segment(c.id) && b.id != c.id && Levels(b.acl) != map[]
    ensures !Agree(store.buckets, store.index) && store.View().buckets == map[c.id := ViewOf(c)]
  {
    hide Agree, ValidBucket, Segment, Levels, ById;
    store := new AdminStore();
    var _ := store.UpsertBucket(b);
    ByIdHas(store.buckets, b.id);
    assert store.View().buckets == map[b.id := ViewOf(b)];
    assert Clash(store.View().buckets.Keys, c.id);
    assert GrantedAt(store.buckets, c.id) == Levels(b.acl).Keys != {};
    var _ := store.UpsertBucket(c);
  }

  /** "b" and "b/" are such spellings. */
  method StoreBThenBSlash() returns (store: AdminStore)
    ensures !Agree(store.buckets, store.index)
  {
    var name: Key := [97];
    var b := BucketDoc([98], [98, 98, 98], [47], [AclEntry(AccessKey(name), 1)]);
    ValidExample(name);
    assert Segment([98, 47]) == [98] by { assert [98, 47][..1] == [98]; }
    assert AccessKey(name) in Levels(b.acl) by { GrantedIffListed(b.acl, AccessKey(name)); }
    hide Agree;
    store := TwoSpellingsBreakAgreement(b, b.(id := [98, 47]));
  }

  lemma ValidExample(name: Key)
    requires name == [97]
    ensures ValidBucket(BucketDoc([98], [98, 98, 98], [47], [AclEntry(AccessKey(name), 1)]))
  {
  }
}
