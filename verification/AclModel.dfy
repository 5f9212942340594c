/** Access-control lists: principals, their string keys, normalisation and the storage layout. */
module AclModel {
  import opened Posix
  import opened ListKeys

  datatype Principal = AccessKey(name: Key) | Group(name: Key)

  datatype AclEntry = AclEntry(principal: Principal, access: nat)

  // ------------------------------------------------------------ names

  predicate Alphanumeric(b: byte) {
    48 <= b <= 57 || 65 <= b <= 90 || 97 <= b <= 122
  }

  /** `[A-Za-z0-9_][A-Za-z0-9_.-]*`, at most `limit` characters. */
  predicate Identifier(k: Key, limit: nat) {
    && 1 <= |k| <= limit && (Alphanumeric(k[0]) || k[0] == 95)
    && forall i :: 0 <= i < |k| ==> Alphanumeric(k[i]) || k[i] == 95 || k[i] == 46 || k[i] == 45
  }

  predicate ValidPrincipal(p: Principal) {
    Identifier(p.name, if p.AccessKey? then 128 else 64)
  }

  predicate ValidAcl(acl: seq<AclEntry>) {
    forall i :: 0 <= i < |acl| ==> ValidPrincipal(acl[i].principal)
  }

  predicate LowerOrDigit(b: byte) {
    48 <= b <= 57 || 97 <= b <= 122
  }

  /** 3 to 63 characters of `[a-z0-9.-]`, alphanumeric at both ends, no two dots in a row. */
  predicate ValidBucketName(k: Key) {
    && 3 <= |k| <= 63 && LowerOrDigit(k[0]) && LowerOrDigit(k[|k| - 1])
    && (forall i :: 0 <= i < |k| ==> LowerOrDigit(k[i]) || k[i] == 46 || k[i] == 45)
    && (forall i :: 0 < i < |k| ==> !(k[i - 1] == 46 && k[i] == 46))
  }

  /** The name rules in characters, as the regular expressions have them. */
  predicate Word(c: char) {
    'A' <= c <= 'Z' || 'a' <= c <= 'z' || '0' <= c <= '9' || c == '_'
  }

  predicate Lower(c: char) {
    'a' <= c <= 'z' || '0' <= c <= '9'
  }

  lemma NamesInCharacters(k: Key, limit: nat)
    ensures Identifier(k, limit) <==>
            && 1 <= |k| <= limit && Word(k[0] as char)
            && forall i :: 0 <= i < |k| ==> Word(k[i] as char) || k[i] as char in ".-"
    ensures ValidBucketName(k) <==>
            && 3 <= |k| < 64 && Lower(k[0] as char) && Lower(k[|k| - 1] as char)
            && (forall i :: 0 <= i < |k| ==> Lower(k[i] as char) || k[i] as char in ".-")
            && !exists i :: 0 <= i < |k| - 1 && k[i] as char == k[i + 1] as char == '.'
  {
    forall i | 0 <= i < |k|
      ensures (Alphanumeric(k[i]) || k[i] == 95 <==> Word(k[i] as char)) && (LowerOrDigit(k[i]) <==> Lower(k[i] as char))
      ensures k[i] == 46 || k[i] == 45 <==> k[i] as char in ".-"
      ensures k[i] == 46 <==> k[i] as char == '.'
    {
    }
    hide Alphanumeric, LowerOrDigit, Word, Lower;
    if i :| 0 <= i < |k| - 1 && k[i] as char == k[i + 1] as char == '.' { assert k[i + 1 - 1] == 46 && k[i + 1] == 46; }
    if i :| 0 < i < |k| && k[i - 1] == 46 && k[i] == 46 { assert k[i - 1] as char == k[i - 1 + 1] as char == '.'; }
  }

  // ------------------------------------------------------------ principal keys

  const COLON: byte := 58
  const AK: Key := [97, 107]
  const GROUP: Key := [103, 114, 111, 117, 112]

  function PrincipalKey(p: Principal): Key {
    (if p.AccessKey? then AK else GROUP) + [COLON] + p.name
  }

  function FirstColon(k: Key): (n: nat)
    ensures n <= |k|
  {
    if k == [] || k[0] == COLON then 0 else 1 + FirstColon(k[1..])
  }

  /** `split_once(':')` and the match on the kind. */
  function ParsePrincipalKey(k: Key): Option<Principal> {
    var n := FirstColon(k);
    if n == |k| then None
    else if k[..n] == AK then Some(AccessKey(k[n + 1..]))
    else if k[..n] == GROUP then Some(Group(k[n + 1..]))
    else None
  }

  lemma {:induction false} FirstColonAfter(kind: Key, rest: Key)
    requires COLON !in kind
    ensures FirstColon(kind + [COLON] + rest) == |kind|
  {
    var k := kind + [COLON] + rest;
    if kind == [] {
      assert k[0] == COLON;
    } else {
      assert k[1..] == kind[1..] + [COLON] + rest && k[0] == kind[0];
      FirstColonAfter(kind[1..], rest);
    }
  }

  /** Whatever the name contains, the key parses back to the principal. */
  lemma PrincipalKeyRoundTrip(p: Principal)
    ensures ParsePrincipalKey(PrincipalKey(p)) == Some(p)
  {
    var kind := if p.AccessKey? then AK else GROUP;
    var k := PrincipalKey(p);
    FirstColonAfter(kind, p.name);
    assert k[..|kind|] == kind && k[|kind| + 1..] == p.name;
  }

  lemma PrincipalKeyInjective(p: Principal, q: Principal)
    requires PrincipalKey(p) == PrincipalKey(q)
    ensures p == q
  {
    PrincipalKeyRoundTrip(p);
    PrincipalKeyRoundTrip(q);
  }

  // ------------------------------------------------------------ levels

  type LevelMap = map<Principal, nat>

  function Raise(m: LevelMap, e: AclEntry): LevelMap {
    m[e.principal := if e.principal in m then Max(m[e.principal], e.access) else e.access]
  }

  /** What a list grants: each principal at the highest level it is listed with. */
  function Levels(acl: seq<AclEntry>): LevelMap {
    if acl == [] then map[] else Raise(Levels(acl[..|acl| - 1]), acl[|acl| - 1])
  }

  lemma RaiseCommutes(m: LevelMap, a: AclEntry, b: AclEntry)
    ensures Raise(Raise(m, a), b) == Raise(Raise(m, b), a)
  {
  }

  lemma {:induction false} GrantedIffListed(acl: seq<AclEntry>, p: Principal)
    ensures p in Levels(acl) <==> Lists(acl, p)
  {
    if acl != [] {
      var n := |acl| - 1;
      GrantedIffListed(acl[..n], p);
      assert acl[n].principal == p || p in Levels(acl[..n]) <==> p in Levels(acl);
      if i :| 0 <= i < n && acl[..n][i].principal == p { assert acl[i].principal == p; }
      if i :| 0 <= i < |acl| && acl[i].principal == p { assert i < n ==> acl[..n][i].principal == p; }
    }
  }

  predicate Lists(acl: seq<AclEntry>, p: Principal) {
    exists i :: 0 <= i < |acl| && acl[i].principal == p
  }

  /** `level` is the highest access the list gives `p`: no entry of `p` exceeds it, and one of them has it. */
  predicate Highest(acl: seq<AclEntry>, p: Principal, level: nat) {
    && (forall i :: 0 <= i < |acl| && acl[i].principal == p ==> acl[i].access <= level)
    && exists i :: 0 <= i < |acl| && acl[i] == AclEntry(p, level)
  }

  /** The level granted is the highest one listed. */
  lemma {:induction false} LevelIsHighest(acl: seq<AclEntry>, p: Principal)
    requires p in Levels(acl)
    ensures Highest(acl, p, Levels(acl)[p])
  {
    var n := |acl| - 1;
    var e, rest, level := acl[n], Levels(acl[..n]), Levels(acl)[p];
    if p in rest {
      LevelIsHighest(acl[..n], p);
      var i :| 0 <= i < n && acl[..n][i] == AclEntry(p, rest[p]);
      assert acl[i] == AclEntry(p, rest[p]);
    } else {
      forall i | 0 <= i < n ensures acl[i].principal != p { GrantedIffListed(acl[..n], p); assert acl[..n][i] == acl[i]; }
    }
    forall i | 0 <= i < |acl| && acl[i].principal == p
      ensures acl[i].access <= level
    {
      if i < n { assert acl[..n][i] == acl[i]; }
    }
    assert acl[n] == e;
  }

  predicate SortedAcl(acl: seq<AclEntry>) {
    forall i, j :: 0 <= i < j < |acl| ==> Lt(PrincipalKey(acl[i].principal), PrincipalKey(acl[j].principal))
  }

  function InsertEntry(acl: seq<AclEntry>, e: AclEntry): seq<AclEntry> {
    if acl == [] || Lt(PrincipalKey(acl[|acl| - 1].principal), PrincipalKey(e.principal)) then acl + [e]
    else InsertEntry(acl[..|acl| - 1], e) + [acl[|acl| - 1]]
  }

  lemma {:induction false} InsertEntryRaises(acl: seq<AclEntry>, e: AclEntry)
    ensures Levels(InsertEntry(acl, e)) == Raise(Levels(acl), e)
  {
    hide Lt, PrincipalKey, Raise;
    var out, n := InsertEntry(acl, e), |acl| - 1;
    if acl == [] || Lt(PrincipalKey(acl[n].principal), PrincipalKey(e.principal)) {
      assert out[..|acl|] == acl;
    } else {
      InsertEntryRaises(acl[..n], e);
      assert out[..|out| - 1] == InsertEntry(acl[..n], e);
      RaiseCommutes(Levels(acl[..n]), e, acl[n]);
    }
  }

  lemma {:induction false} InsertEntryListed(acl: seq<AclEntry>, e: AclEntry, k: nat)
    requires k < |InsertEntry(acl, e)|
    ensures InsertEntry(acl, e)[k] == e || exists i :: 0 <= i < |acl| && acl[i] == InsertEntry(acl, e)[k]
  {
    hide Lt, PrincipalKey;
    var out, n := InsertEntry(acl, e), |acl| - 1;
    if !(acl == [] || Lt(PrincipalKey(acl[n].principal), PrincipalKey(e.principal))) && k < |out| - 1 {
      InsertEntryListed(acl[..n], e, k);
      assert out[k] == InsertEntry(acl[..n], e)[k];
      if i :| 0 <= i < n && acl[..n][i] == out[k] { assert acl[i] == out[k]; }
    }
  }

  lemma AppendSorted(acl: seq<AclEntry>, e: AclEntry)
    requires SortedAcl(acl)
    requires forall k :: 0 <= k < |acl| ==> Lt(PrincipalKey(acl[k].principal), PrincipalKey(e.principal))
    ensures SortedAcl(acl + [e])
  {
    hide Lt, PrincipalKey;
  }

  lemma {:induction false} InsertEntrySorted(acl: seq<AclEntry>, e: AclEntry)
    requires SortedAcl(acl) && forall i :: 0 <= i < |acl| ==> acl[i].principal != e.principal
    ensures SortedAcl(InsertEntry(acl, e))
  {
    hide Lt, PrincipalKey;
    var n, ke := |acl| - 1, PrincipalKey(e.principal);
    if acl == [] {
    } else if Lt(PrincipalKey(acl[n].principal), ke) {
      forall k | 0 <= k < |acl|
        ensures Lt(PrincipalKey(acl[k].principal), ke)
      {
        if k < n { LtTransitive(PrincipalKey(acl[k].principal), PrincipalKey(acl[n].principal), ke); }
      }
      AppendSorted(acl, e);
    } else {
      var rest, kn := InsertEntry(acl[..n], e), PrincipalKey(acl[n].principal);
      InsertEntrySorted(acl[..n], e);
      LtTotal(ke, kn);
      if ke == kn { PrincipalKeyInjective(e.principal, acl[n].principal); }
      forall k | 0 <= k < |rest|
        ensures Lt(PrincipalKey(rest[k].principal), kn)
      {
        InsertEntryListed(acl[..n], e, k);
        if rest[k] != e {
          var i :| 0 <= i < n && acl[..n][i] == rest[k];
          assert acl[i] == rest[k];
        }
      }
      AppendSorted(rest, acl[n]);
    }
  }

  /** `normalize_acl`: one entry per principal at its highest level, in key order; nothing granted changes. */
  method NormalizeAcl(acl: seq<AclEntry>) returns (out: seq<AclEntry>)
    ensures Levels(out) == Levels(acl) && SortedAcl(out)
    ensures forall i :: 0 <= i < |out| ==> Highest(acl, out[i].principal, out[i].access)
    ensures forall i :: 0 <= i < |acl| ==> Lists(out, acl[i].principal)
    ensures ValidAcl(acl) ==> ValidAcl(out)
  {
    hide Lt, PrincipalKey, Levels, SortedAcl, Highest;
    LevelsOfNothing();
    var m: LevelMap := map[];
    for i := 0 to |acl|
      invariant m == Levels(acl[..i])
    {
      LevelsStep(acl, i);
      m := Raise(m, acl[i]);
    }
    assert acl[..|acl|] == acl;
    out := [];
    var rest := m.Keys;
    while rest != {}
      invariant rest <= m.Keys && Levels(out) == map p | p in m && p !in rest :: m[p]
      invariant SortedAcl(out)
      decreases rest
    {
      var p :| p in rest;
      var e := AclEntry(p, m[p]);
      forall i | 0 <= i < |out| ensures out[i].principal != p { GrantedIffListed(out, out[i].principal); }
      InsertEntryRaises(out, e);
      InsertEntrySorted(out, e);
      out := InsertEntry(out, e);
      rest := rest - {p};
    }
    assert Levels(out) == m;
    SameGrantsSameLevels(acl, out);
    if ValidAcl(acl) { SameGrantsStayValid(acl, out); }
  }

  lemma SortedDiffer(acl: seq<AclEntry>, i: nat, j: nat)
    requires SortedAcl(acl) && i < |acl| && j < |acl| && acl[i].principal == acl[j].principal
    ensures i == j
  {
    hide PrincipalKey;
    LtIrreflexive(PrincipalKey(acl[i].principal));
  }

  /** A sorted list with the same grants has each principal once, at its highest level. */
  lemma SameGrantsSameLevels(acl: seq<AclEntry>, out: seq<AclEntry>)
    requires Levels(out) == Levels(acl) && SortedAcl(out)
    ensures forall i :: 0 <= i < |out| ==> Highest(acl, out[i].principal, out[i].access)
    ensures forall i :: 0 <= i < |acl| ==> Lists(out, acl[i].principal)
  {
    hide Levels, SortedAcl, PrincipalKey;
    forall i | 0 <= i < |out|
      ensures Highest(acl, out[i].principal, out[i].access)
    {
      var p := out[i].principal;
      GrantedIffListed(out, p);
      LevelIsHighest(out, p);
      LevelIsHighest(acl, p);
      var j :| 0 <= j < |out| && out[j] == AclEntry(p, Levels(out)[p]);
      SortedDiffer(out, i, j);
    }
    forall i | 0 <= i < |acl|
      ensures Lists(out, acl[i].principal)
    {
      GrantedIffListed(acl, acl[i].principal);
      GrantedIffListed(out, acl[i].principal);
    }
  }

  lemma SameGrantsStayValid(acl: seq<AclEntry>, out: seq<AclEntry>)
    requires Levels(out) == Levels(acl) && ValidAcl(acl)
    ensures ValidAcl(out)
  {
    hide Levels, ValidPrincipal;
    forall i | 0 <= i < |out|
      ensures ValidPrincipal(out[i].principal)
    {
      GrantedIffListed(out, out[i].principal);
      GrantedIffListed(acl, out[i].principal);
      var j :| 0 <= j < |acl| && acl[j].principal == out[i].principal;
    }
  }

  lemma LevelsOfNothing()
    ensures Levels([]) == map[] && SortedAcl([])
  {
  }

  lemma LevelsStep(acl: seq<AclEntry>, i: nat)
    requires i < |acl|
    ensures Levels(acl[..i + 1]) == Raise(Levels(acl[..i]), acl[i])
  {
    assert acl[..i + 1][..i] == acl[..i];
  }

  // ------------------------------------------------------------ storage layout

  /** `DirectoryLayout::join` below the common prefix: trailing slashes of the whole path are trimmed. */
  function StoredAt(dir: Key, id: Key): Key {
    TrimEnd(dir + [SLASH] + id)
  }

  /** The part of an identifier that reaches the storage path. */
  function Segment(id: Key): Key {
    TrimEnd(id)
  }

  lemma {:induction false} TrimEndAfter(k: Key, id: Key)
    ensures TrimEnd(k + id) == if TrimEnd(id) == [] then TrimEnd(k) else k + TrimEnd(id)
    decreases |id|
  {
    if id == [] {
      assert k + id == k;
    } else if EndsWithSlash(id) {
      assert (k + id)[..|k + id| - 1] == k + id[..|id| - 1];
      TrimEndAfter(k, id[..|id| - 1]);
    }
  }

  /** Two identifiers share a document exactly when they differ only in trailing slashes. */
  lemma SamePathIffSameSegment(dir: Key, a: Key, b: Key)
    requires !EndsWithSlash(dir) && dir != []
    ensures StoredAt(dir, a) == StoredAt(dir, b) <==> Segment(a) == Segment(b)
  {
    var k := dir + [SLASH];
    TrimEndAfter(k, a);
    TrimEndAfter(k, b);
    assert TrimEnd(k) == dir by { assert k[..|k| - 1] == dir; }
    assert forall x: Key, y: Key :: k + x == k + y ==> (k + x)[|k|..] == (k + y)[|k|..];
    assert forall x: Key {:trigger k + x} :: (k + x)[|k|..] == x;
  }
}
