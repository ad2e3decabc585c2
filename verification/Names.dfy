/** Byte-wise name order and the sorted listings that os.ReadDir and sort.Slice produce. */
module Names {

  /** Go's `<` on strings. */
  predicate Less(a: string, b: string) {
    b != [] && (a == [] || a[0] < b[0] || (a[0] == b[0] && Less(a[1..], b[1..])))
  }

  predicate Leq(a: string, b: string) {
    a == b || Less(a, b)
  }

  lemma {:induction false} LessTotal(a: string, b: string)
    ensures Less(a, b) || Less(b, a) || a == b
  {
    if a != [] && b != [] && a[0] == b[0] {
      LessTotal(a[1..], b[1..]);
      assert a == [a[0]] + a[1..] && b == [b[0]] + b[1..];
    }
  }

  lemma {:induction false} LessIrreflexive(a: string)
    ensures !Less(a, a)
  {
    if a != [] { LessIrreflexive(a[1..]); }
  }

  lemma {:induction false} LessTransitive(a: string, b: string, c: string)
    requires Less(a, b) && Less(b, c)
    ensures Less(a, c)
  {
    if a != [] && a[0] == b[0] == c[0] { LessTransitive(a[1..], b[1..], c[1..]); }
  }

  /** A proper prefix sorts before the longer name. */
  lemma {:induction false} PrefixLess(a: string, b: string)
    requires |b| > 0
    ensures Less(a, a + b)
  {
    if a != [] {
      PrefixLess(a[1..], b);
      assert (a + b)[1..] == a[1..] + b;
    }
  }

  ghost predicate IsLeast(x: string, s: set<string>) {
    x in s && forall y :: y in s ==> Leq(x, y)
  }

  lemma {:induction false} LeastExists(s: set<string>)
    requires s != {}
    ensures exists x :: IsLeast(x, s)
    decreases s
  {
    var z :| z in s;
    if s == {z} {
      assert IsLeast(z, s);
    } else {
      var rest := s - {z};
      LeastExists(rest);
      var m :| IsLeast(m, rest);
      LessTotal(z, m);
      var least := if Less(z, m) then z else m;
      forall y | y in s ensures Leq(least, y) {
        if y != z && y != m && least == z {
          assert y in rest && Leq(m, y);
          LessTransitive(z, m, y);
        }
      }
      assert IsLeast(least, s);
    }
  }

  ghost function Least(s: set<string>): (x: string)
    requires s != {}
    ensures IsLeast(x, s)
  {
    LeastExists(s);
    var x :| IsLeast(x, s);
    x
  }

  ghost predicate Ascending(names: seq<string>) {
    forall i, j :: 0 <= i < j < |names| ==> Less(names[i], names[j])
  }

  /** The listing of a directory: its names in ascending order. */
  ghost function Sorted(s: set<string>): (names: seq<string>)
    ensures Ascending(names)
    ensures forall n :: n in names <==> n in s
    decreases s
  {
    if s == {} then [] else
      var x := Least(s);
      var rest := Sorted(s - {x});
      assert forall y :: y in s - {x} ==> Less(x, y);
      assert forall j :: 0 <= j < |rest| ==> rest[j] in s - {x};
      [x] + rest
  }

  lemma AscendingTail(names: seq<string>)
    requires Ascending(names) && names != []
    ensures Ascending(names[1..])
    ensures names[0] !in names[1..]
  {
    LessIrreflexive(names[0]);
  }

  /** There is only one ascending listing of a set of names. */
  lemma {:induction false} AscendingUnique(a: seq<string>, b: seq<string>)
    requires Ascending(a) && Ascending(b)
    requires forall n :: n in a <==> n in b
    ensures a == b
  {
    assert a == [] <==> b == [] by {
      if a != [] { assert a[0] in b; }
      if b != [] { assert b[0] in a; }
    }
    if a != [] {
      assert a[0] in b && b[0] in a;
      if a[0] != b[0] {
        var i :| 0 <= i < |b| && b[i] == a[0];
        var j :| 0 <= j < |a| && a[j] == b[0];
        LessTransitive(a[0], b[0], a[0]);
        LessIrreflexive(a[0]);
        assert false;
      }
      AscendingTail(a);
      AscendingTail(b);
      forall n ensures n in a[1..] <==> n in b[1..] {
        assert n in a <==> n == a[0] || n in a[1..];
        assert n in b <==> n == b[0] || n in b[1..];
      }
      AscendingUnique(a[1..], b[1..]);
      assert a == [a[0]] + a[1..] && b == [b[0]] + b[1..];
    }
  }

  /** Any contiguous part of a listing is the listing of its own names. */
  lemma SortedSlice(names: seq<string>, lo: nat, hi: nat, s: set<string>)
    requires Ascending(names) && lo <= hi <= |names|
    requires forall n :: n in s <==> n in names[lo..hi]
    ensures Sorted(s) == names[lo..hi]
  {
    AscendingUnique(Sorted(s), names[lo..hi]);
  }

  /** Leaving one name out of an ascending listing. */
  lemma AscendingDrop(names: seq<string>, at: nat)
    requires Ascending(names) && at < |names|
    ensures Ascending(names[..at] + names[at + 1..])
    ensures forall n :: n in names[..at] + names[at + 1..] <==> n in names && n != names[at]
  {
    var rest := names[..at] + names[at + 1..];
    assert forall i :: 0 <= i < |rest| ==> rest[i] == names[if i < at then i else i + 1];
    LessIrreflexive(names[at]);
    forall n | n in names && n != names[at] ensures n in rest {
      var i :| 0 <= i < |names| && names[i] == n;
      assert rest[if i < at then i else i - 1] == n;
    }
  }

  lemma HalvesAround(names: seq<string>, cut: nat)
    requires cut < |names|
    ensures var rest := names[..cut] + names[cut + 1..]; names == rest[..cut] + [names[cut]] + rest[cut..]
  {
  }

  /** Two ascending listings that differ in one name. */
  lemma AscendingInsert(small: seq<string>, x: string, big: seq<string>) returns (cut: nat)
    requires Ascending(small) && Ascending(big) && x !in small
    requires forall n :: n in big <==> n in small || n == x
    ensures cut <= |small| && big == small[..cut] + [x] + small[cut..]
  {
    assert x in big;
    cut :| 0 <= cut < |big| && big[cut] == x;
    AscendingDrop(big, cut);
    hide Ascending;
    var rest := big[..cut] + big[cut + 1..];
    AscendingUnique(rest, small);
    HalvesAround(big, cut);
  }

  /** One more name splits the listing in two and stands between the halves. */
  lemma SortedInsert(s: set<string>, x: string) returns (cut: nat)
    requires x !in s
    ensures cut <= |Sorted(s)|
    ensures Sorted(s + {x}) == Sorted(s)[..cut] + [x] + Sorted(s)[cut..]
  {
    cut := AscendingInsert(Sorted(s), x, Sorted(s + {x}));
  }

  lemma SortedOne(n: string)
    ensures Sorted({n}) == [n]
  {
    AscendingUnique(Sorted({n}), [n]);
  }

  lemma SortedTwo(n: string, m: string)
    requires Less(n, m)
    ensures Sorted({n, m}) == [n, m]
  {
    AscendingUnique(Sorted({n, m}), [n, m]);
  }
}
