/** What equal digests say about two trees. */
module DigestMeaning {
  import opened Names
  import opened Tree
  import opened Transaction
  import opened TreePaths

  /** The same trails lead to the same hashed contents. */
  ghost predicate SameFiles(a: Disk, b: Disk) {
    forall t, c :: HashedAt(Dir(a), t, c) <==> HashedAt(Dir(b), t, c)
  }

  lemma {:induction false} EarlierTransitive(a: seq<string>, b: seq<string>, c: seq<string>)
    requires Earlier(a, b) && Earlier(b, c)
    ensures Earlier(a, c)
    decreases |a|
  {
    hide Less;
    if Less(a[0], b[0]) && Less(b[0], c[0]) {
      LessTransitive(a[0], b[0], c[0]);
    } else if a[0] == b[0] && b[0] == c[0] && !Less(a[0], c[0]) {
      EarlierTransitive(a[1..], b[1..], c[1..]);
    }
  }

  ghost predicate InOrder(trails: seq<seq<string>>) {
    forall i, j :: 0 <= i < j < |trails| ==> Earlier(trails[i], trails[j])
  }

  lemma SameFirst(a: seq<seq<string>>, b: seq<seq<string>>)
    requires InOrder(a) && InOrder(b) && a != [] && b != [] && a[0] in b && b[0] in a
    ensures a[0] == b[0]
  {
    hide Earlier;
    var k :| 0 <= k < |b| && b[k] == a[0];
    var m :| 0 <= m < |a| && a[m] == b[0];
    if k > 0 && m > 0 {
      EarlierTransitive(a[0], b[0], a[0]);
      EarlierIsOther(a[0], a[0]);
    }
  }

  lemma TailMembers(a: seq<seq<string>>, t: seq<string>)
    requires InOrder(a) && a != []
    ensures t in a[1..] <==> t in a && t != a[0]
  {
    hide Earlier;
    assert a == [a[0]] + a[1..];
    if t in a[1..] {
      var k :| 0 <= k < |a[1..]| && a[1..][k] == t;
      assert Earlier(a[0], a[k + 1]);
      EarlierIsOther(a[0], t);
    }
  }

  lemma HasMember(trails: seq<seq<string>>)
    ensures trails == [] || exists t :: t in trails
  {
    if trails != [] { assert trails[0] in trails; }
  }

  lemma {:induction false} OrderUnique(a: seq<seq<string>>, b: seq<seq<string>>)
    requires InOrder(a) && InOrder(b) && forall t :: t in a <==> t in b
    ensures a == b
    decreases |a|
  {
    hide Earlier;
    if a == [] {
      HasMember(b);
    } else {
      assert a[0] in a && a[0] in b;
      assert b[0] in b && b[0] in a;
      SameFirst(a, b);
      forall t ensures t in a[1..] <==> t in b[1..] { TailMembers(a, t); TailMembers(b, t); }
      OrderUnique(a[1..], b[1..]);
      assert a == [a[0]] + a[1..] && b == [b[0]] + b[1..];
    }
  }

  /** Trees that hash the same files at the same trails have the same list of hashed files. */
  lemma SameFilesSameList(a: Disk, b: Disk)
    requires SameFiles(a, b)
    ensures Files(a) == Files(b)
  {
    hide Files, Earlier, Joined, HashedAt;
    var ta := FilesExactly(a);
    var tb := FilesExactly(b);
    var fa, fb := Files(a), Files(b);
    forall t ensures t in ta <==> t in tb {
      if t in ta { var i :| 0 <= i < |ta| && ta[i] == t; assert HashedAt(Dir(a), t, fa[i].content); }
      if t in tb { var i :| 0 <= i < |tb| && tb[i] == t; assert HashedAt(Dir(b), t, fb[i].content); }
    }
    OrderUnique(ta, tb);
    forall i | 0 <= i < |fa| ensures fa[i] == fb[i] {
      OneContent(Dir(b), tb[i], fa[i].content, fb[i].content);
      assert fa[i] == Hashed(Joined(ta[i]), fa[i].content) && fb[i] == Hashed(Joined(tb[i]), fb[i].content);
    }
  }

  lemma SameListSameFiles(a: Disk, b: Disk, t: seq<string>, c: string)
    requires Files(a) == Files(b) && ProperDisk(a) && ProperDisk(b) && HashedAt(Dir(a), t, c)
    ensures HashedAt(Dir(b), t, c)
  {
    hide Files, Joined, ProperDisk;
    HashedExactly(a, Joined(t), c);
    HashedExactly(b, Joined(t), c);
    var u :| u != [] && Joined(u) == Joined(t) && HashedAt(Dir(b), u, c);
    TrailSlashFree(Dir(a), t, File(c));
    TrailSlashFree(Dir(b), u, File(c));
    JoinedInjective(t, u);
  }

  /**
   * Over proper trees without links and without NUL bytes: equal digests exactly if the same trails lead to the same
   * hashed contents.
   */
  lemma DigestsAgreeExactly(h: Host, a: Disk, b: Disk)
    requires CollisionFree(h) && ProperDisk(a) && ProperDisk(b) && Clean(a) && Clean(b)
    requires NulFree(Files(a)) && NulFree(Files(b))
    ensures Digest(h, a) == Digest(h, b) <==> SameFiles(a, b)
  {
    hide Files, HashedAt, ProperDisk, Clean, NulFree, Stream;
    var x, y := h.hash(Stream(Files(a))), h.hash(Stream(Files(b)));
    assert ("sha256:" + x)[7..] == x && ("sha256:" + y)[7..] == y;
    if Digest(h, a) == Digest(h, b) {
      StreamInjective(Files(a), Files(b));
      forall t, c ensures HashedAt(Dir(a), t, c) <==> HashedAt(Dir(b), t, c) {
        if HashedAt(Dir(a), t, c) { SameListSameFiles(a, b, t, c); }
        if HashedAt(Dir(b), t, c) { SameListSameFiles(b, a, t, c); }
      }
    }
    if SameFiles(a, b) { SameFilesSameList(a, b); }
  }
}
