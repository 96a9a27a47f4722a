/** The order in which a std::map of strings is walked. */
module SortedKeys {
  import opened Basics

  /** Bytes compare as unsigned numbers; a proper prefix comes first. */
  predicate Less(a: bytes, b: bytes) {
    b != [] && (a == [] || a[0] < b[0] || (a[0] == b[0] && Less(a[1..], b[1..])))
  }

  lemma {:induction false} LessTotal(a: bytes, b: bytes)
    ensures Less(a, b) || Less(b, a) || a == b
  {
    if a != [] && b != [] && a[0] == b[0] {
      LessTotal(a[1..], b[1..]);
      assert a == [a[0]] + a[1..] && b == [b[0]] + b[1..];
    }
  }

  lemma {:induction false} LessTransitive(a: bytes, b: bytes, c: bytes)
    requires Less(a, b) && Less(b, c)
    ensures Less(a, c)
  {
    if a != [] && a[0] == b[0] == c[0] {
      LessTransitive(a[1..], b[1..], c[1..]);
    }
  }

  lemma {:induction false} LessIrreflexive(a: bytes)
    ensures !Less(a, a)
  {
    if a != [] { LessIrreflexive(a[1..]); }
  }

  predicate IsLeast(m: bytes, s: set<bytes>) {
    m in s && forall x :: x in s ==> x == m || Less(m, x)
  }

  lemma LeastUnique(a: bytes, b: bytes, s: set<bytes>)
    requires IsLeast(a, s) && IsLeast(b, s)
    ensures a == b
  {
    if a != b {
      LessTransitive(a, b, a);
      LessIrreflexive(a);
    }
  }

  lemma {:induction false} LeastExists(s: set<bytes>) returns (m: bytes)
    requires s != {}
    ensures IsLeast(m, s)
    decreases |s|
  {
    m :| m in s;
    var others := s - {m};
    if others != {} {
      var o := LeastExists(others);
      LessTotal(m, o);
      if Less(o, m) {
        m := o;
      } else {
        forall x | x in s ensures x == m || Less(m, x) {
          if x != m && x != o { LessTransitive(m, o, x); }
        }
      }
    }
  }

  /** The keys of a map in the order its iterator meets them. */
  ghost function Sorted(s: set<bytes>): (r: seq<bytes>)
    ensures |r| == |s| && forall x :: x in s <==> x in r
    ensures s != {} ==> IsLeast(r[0], s)
    decreases |s|
  {
    if s == {} then []
    else
      assert exists m :: IsLeast(m, s) by { var m := LeastExists(s); }
      var m :| IsLeast(m, s);
      var rest := Sorted(s - {m});
      SortedStep(s, m, rest);
      [m] + rest
  }

  lemma SortedStep(s: set<bytes>, m: bytes, rest: seq<bytes>)
    requires IsLeast(m, s) && |rest| == |s| - 1 && forall x :: x in s - {m} <==> x in rest
    ensures |[m] + rest| == |s| && forall x :: x in s <==> x in [m] + rest
  {
    hide Less;
    var r := [m] + rest;
    forall x ensures x in s <==> x in r {
      assert x in s <==> x == m || x in s - {m};
    }
  }

  /** The walk goes upwards. */
  lemma {:induction false} SortedIncreasing(s: set<bytes>, i: nat, j: nat)
    requires i < j < |Sorted(s)|
    ensures Less(Sorted(s)[i], Sorted(s)[j])
    decreases |s|
  {
    hide Less, Sorted;
    var m := Sorted(s)[0];
    SortedNext(s, m);
    if i == 0 {
      assert Sorted(s)[j] in s && Sorted(s)[j] == Sorted(s - {m})[j - 1];
      assert Sorted(s - {m})[j - 1] in s - {m};
    } else {
      SortedIncreasing(s - {m}, i - 1, j - 1);
    }
  }

  lemma SortedDistinct(s: set<bytes>, i: nat, j: nat)
    requires i < |Sorted(s)| && j < |Sorted(s)| && Sorted(s)[i] == Sorted(s)[j]
    ensures i == j
  {
    hide Sorted;
    LessIrreflexive(Sorted(s)[i]);
    if i < j { SortedIncreasing(s, i, j); }
    if j < i { SortedIncreasing(s, j, i); }
  }

  /** Taking the least key first: walking the map one key at a time. */
  lemma SortedNext(s: set<bytes>, m: bytes)
    requires IsLeast(m, s)
    ensures Sorted(s) == [m] + Sorted(s - {m})
  {
    LeastUnique(m, Sorted(s)[0], s);
    var n :| IsLeast(n, s) && Sorted(s) == [n] + Sorted(s - {n});
    LeastUnique(m, n, s);
  }

  /** Where a key comes in the walk. */
  ghost function Rank(s: set<bytes>, x: bytes): (i: nat)
    requires x in s
    ensures i < |s| == |Sorted(s)| && Sorted(s)[i] == x
  {
    var i: nat :| i < |Sorted(s)| && Sorted(s)[i] == x;
    i
  }

  lemma RankOf(s: set<bytes>, i: nat)
    requires i < |Sorted(s)|
    ensures Sorted(s)[i] in s && Rank(s, Sorted(s)[i]) == i
  {
    SortedDistinct(s, i, Rank(s, Sorted(s)[i]));
  }

  /** The next key of a walk. */
  method NextKey(s: set<bytes>) returns (m: bytes)
    requires s != {}
    ensures IsLeast(m, s)
  {
    ghost var least := LeastExists(s);
    m :| IsLeast(m, s);
  }
}
