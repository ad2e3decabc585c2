/** The hand-written splitter behind `namespace/name` secret references. */
module SecretRef {

  ghost predicate OccursAt(s: string, sub: string, i: int) {
    0 <= i <= |s| - |sub| && s[i..i + |sub|] == sub
  }

  ghost predicate Contains(s: string, sub: string) {
    exists i :: OccursAt(s, sub, i)
  }

  method IndexOf(s: string, sub: string) returns (r: int)
    ensures r < 0 ==> r == -1 && !Contains(s, sub)
    ensures r >= 0 ==> OccursAt(s, sub, r) && forall i :: 0 <= i < r ==> !OccursAt(s, sub, i)
  {
    var i := 0;
    while i <= |s| - |sub|
      invariant 0 <= i && forall j :: 0 <= j < i ==> !OccursAt(s, sub, j)
    {
      if s[i..i + |sub|] == sub { return i; }
      i := i + 1;
    }
    return -1;
  }

  ghost function Join(pieces: seq<string>, sep: string): string
    requires pieces != []
  {
    if |pieces| == 1 then pieces[0] else pieces[0] + sep + Join(pieces[1..], sep)
  }

  lemma {:induction false} JoinSplitLast(pieces: seq<string>, left: string, right: string, sep: string)
    ensures Join(pieces + [left, right], sep) == Join(pieces + [left + sep + right], sep)
    decreases |pieces|
  {
    var split, whole := pieces + [left, right], pieces + [left + sep + right];
    if pieces == [] {
      assert Join(split[1..], sep) == right;
    } else {
      assert split[1..] == pieces[1..] + [left, right] && whole[1..] == pieces[1..] + [left + sep + right];
      JoinSplitLast(pieces[1..], left, right, sep);
    }
  }

  /** Cut at a first occurrence, the part before it is free of a non-empty separator. */
  lemma FreeBefore(s: string, sep: string, idx: nat)
    requires sep != "" && OccursAt(s, sep, idx) && forall i :: 0 <= i < idx ==> !OccursAt(s, sep, i)
    ensures !Contains(s[..idx], sep)
  {
    forall i ensures !OccursAt(s[..idx], sep, i) {
      if 0 <= i <= idx - |sep| {
        assert s[..idx][i..i + |sep|] == s[i..i + |sep|];
        assert !OccursAt(s, sep, i);
      }
    }
  }

  /** Inverse of joining: at most n pieces, cut at separators only, and cut further whenever n allows. */
  method SplitN(input: string, sep: string, n: nat) returns (pieces: seq<string>)
    ensures pieces != [] && |pieces| <= (if n == 0 then 1 else n)
    ensures Join(pieces, sep) == input
    ensures sep != "" ==> forall k :: 0 <= k < |pieces| - 1 ==> !Contains(pieces[k], sep)
    ensures |pieces| < n ==> !Contains(pieces[|pieces| - 1], sep)
    ensures |pieces| > 1 ==> |pieces| - 1 < n && OccursAt(input, sep, |pieces[0]|)
    ensures |pieces| > 1 ==> forall i :: 0 <= i < |pieces[0]| ==> !OccursAt(input, sep, i)
  {
    var result: seq<string>, s, i := [], input, 0;
    while i < n - 1
      invariant 0 <= i && |result| == i && (i == 0 || i <= n - 1)
      invariant Join(result + [s], sep) == input && (i == 0 ==> s == input)
      invariant sep != "" ==> forall k :: 0 <= k < i ==> !Contains(result[k], sep)
      invariant i > 0 ==> OccursAt(input, sep, |result[0]|) && forall k :: 0 <= k < |result[0]| ==>
          !OccursAt(input, sep, k)
    {
      var idx := IndexOf(s, sep);
      if idx < 0 { break; }
      if sep != "" { FreeBefore(s, sep, idx); }
      assert s == s[..idx] + sep + s[idx + |sep|..];
      JoinSplitLast(result, s[..idx], s[idx + |sep|..], sep);
      assert result + [s[..idx], s[idx + |sep|..]] == (result + [s[..idx]]) + [s[idx + |sep|..]];
      result, s, i := result + [s[..idx]], s[idx + |sep|..], i + 1;
    }
    pieces := result + [s];
  }

  datatype Parsed = Ref(ns: string, name: string) | Malformed

  predicate Splits(reference: string, ns: string, name: string) {
    ns != "" && name != "" && '/' !in ns && reference == ns + "/" + name
  }

  lemma SlashFree(s: string)
    ensures Contains(s, "/") <==> '/' in s
  {
    if Contains(s, "/") {
      var i :| OccursAt(s, "/", i);
      assert s[i..i + 1][0] == '/';
    }
    if '/' in s {
      var i :| 0 <= i < |s| && s[i] == '/';
      assert OccursAt(s, "/", i);
    }
  }

  /** A text has one cut at its first slash. */
  lemma FirstSlash(left: string, right: string, left': string, right': string)
    requires '/' !in left && '/' !in left' && left + "/" + right == left' + "/" + right'
    ensures left == left' && right == right'
  {
    var text := left + "/" + right;
    assert forall i :: 0 <= i < |left| ==> text[i] == left[i];
    assert forall i :: 0 <= i < |left'| ==> text[i] == left'[i];
    assert text[|left|] == '/' && text[|left'|] == '/';
    assert text[..|left|] == left && text[..|left'|] == left';
    assert text[|left| + 1..] == right && text[|left'| + 1..] == right';
  }

  /** The two pieces are the two parts, whenever the reference has such parts. */
  lemma PiecesAreParts(reference: string, pieces: seq<string>, ns: string, name: string)
    requires 1 <= |pieces| <= 2 && Join(pieces, "/") == reference && '/' !in pieces[0]
    requires Splits(reference, ns, name)
    ensures pieces == [ns, name]
  {
    assert reference[|ns|] == '/';
    assert |pieces| == 2;
    assert Join(pieces[1..], "/") == pieces[1];
    FirstSlash(pieces[0], pieces[1], ns, name);
  }

  /** Succeeds exactly on `ns/name` with both parts non-empty and no slash in the first, and gives those parts back. */
  method ParseSecretRef(reference: string) returns (r: Parsed)
    ensures r.Ref? <==> exists ns, name :: Splits(reference, ns, name)
    ensures r.Ref? ==> Splits(reference, r.ns, r.name)
    ensures forall ns, name :: Splits(reference, ns, name) ==> r == Ref(ns, name)
  {
    var pieces := SplitN(reference, "/", 2);
    SlashFree(pieces[0]);
    forall ns, name | Splits(reference, ns, name) ensures pieces == [ns, name] {
      PiecesAreParts(reference, pieces, ns, name);
    }
    if |pieces| != 2 || pieces[0] == "" || pieces[1] == "" {
      r := Malformed;
    } else {
      r := Ref(pieces[0], pieces[1]);
      assert Join(pieces[1..], "/") == pieces[1];
      assert Splits(reference, r.ns, r.name);
    }
  }
}
