/**
 * The ordered set of host names one virtual host is registered under (a `BTreeSet<String>`
 * in the dispatcher). It is a strictly increasing sequence under the lexicographic order
 * of `String`, so iterating it visits every name once, in sorted order.
 */
module OrderedNames {

  /**
   * `String`'s ordering: byte-wise lexicographic on UTF-8, which coincides with
   * lexicographic order on code points, with a proper prefix sorting first.
   */
  predicate Less(a: string, b: string)
  {
    if |a| == 0 then |b| > 0
    else if |b| == 0 then false
    else if a[0] != b[0] then a[0] < b[0]
    else Less(a[1..], b[1..])
  }

  lemma {:induction false} LessIrreflexive(a: string)
    ensures !Less(a, a)
  {
    if |a| > 0 {
      LessIrreflexive(a[1..]);
    }
  }

  lemma {:induction false} LessTransitive(a: string, b: string, c: string)
    requires Less(a, b) && Less(b, c)
    ensures Less(a, c)
  {
    if |a| > 0 && |b| > 0 && |c| > 0 && a[0] == b[0] == c[0] {
      LessTransitive(a[1..], b[1..], c[1..]);
    }
  }

  lemma {:induction false} LessTotal(a: string, b: string)
    requires a != b
    ensures Less(a, b) || Less(b, a)
  {
    if |a| > 0 && |b| > 0 && a[0] == b[0] {
      assert a == [a[0]] + a[1..] && b == [b[0]] + b[1..];
      LessTotal(a[1..], b[1..]);
    }
  }

  ghost predicate StrictlySorted(s: seq<string>)
  {
    forall i, j :: 0 <= i < j < |s| ==> Less(s[i], s[j])
  }

  /** A strictly sorted sequence holds every name at most once. */
  lemma SortedDistinct(s: seq<string>)
    requires StrictlySorted(s)
    ensures forall i, j :: 0 <= i < |s| && 0 <= j < |s| && i != j ==> s[i] != s[j]
  {
    forall i, j | 0 <= i < |s| && 0 <= j < |s| && i != j
      ensures s[i] != s[j]
    {
      if i < j {
        LessIrreflexive(s[i]);
      } else {
        LessIrreflexive(s[j]);
      }
    }
  }

  lemma LessBelowAll(x: string, s: seq<string>)
    requires StrictlySorted(s) && |s| > 0 && Less(x, s[0])
    ensures StrictlySorted([x] + s)
  {
    forall j | 0 <= j < |s|
      ensures Less(x, s[j])
    {
      if j > 0 {
        LessTransitive(x, s[0], s[j]);
      }
    }
  }

  /** `BTreeSet::insert`: places `x` before the first larger name, unless it is present. */
  function Insert(s: seq<string>, x: string): (r: seq<string>)
    ensures x in r
    ensures |s| <= |r| <= |s| + 1
    decreases |s|
  {
    if s == [] then [x]
    else if x == s[0] then s
    else if Less(x, s[0]) then [x] + s
    else [s[0]] + Insert(s[1..], x)
  }

  /** The set gains `x` and nothing else. */
  lemma {:induction false} InsertMembers(s: seq<string>, x: string)
    ensures forall y :: y in Insert(s, x) <==> y in s || y == x
    decreases |s|
  {
    if s != [] && x != s[0] && !Less(x, s[0]) {
      InsertMembers(s[1..], x);
      assert s == [s[0]] + s[1..];
    }
  }

  /** Inserting keeps the set sorted, so every name stays present once. */
  lemma {:induction false} InsertSorted(s: seq<string>, x: string)
    requires StrictlySorted(s)
    ensures StrictlySorted(Insert(s, x))
    decreases |s|
  {
    if s == [] || x == s[0] {
    } else if Less(x, s[0]) {
      LessBelowAll(x, s);
    } else {
      LessTotal(x, s[0]);
      var rest := Insert(s[1..], x);
      InsertSorted(s[1..], x);
      InsertMembers(s[1..], x);
      forall j | 0 <= j < |rest|
        ensures Less(s[0], rest[j])
      {
        assert rest[j] in rest;
        if rest[j] != x {
          var k :| 0 <= k < |s[1..]| && s[1..][k] == rest[j];
          assert s[k + 1] == rest[j];
        }
      }
    }
  }

  /** `extend`: inserts every element of `xs`, in order. */
  function InsertAll(s: seq<string>, xs: seq<string>): (r: seq<string>)
    ensures |s| <= |r| <= |s| + |xs|
  {
    if xs == [] then s
    else Insert(InsertAll(s, xs[..|xs| - 1]), xs[|xs| - 1])
  }

  /** Extending a sorted set keeps it sorted and adds exactly the elements of `xs`. */
  lemma {:induction false} InsertAllSpec(s: seq<string>, xs: seq<string>)
    requires StrictlySorted(s)
    ensures StrictlySorted(InsertAll(s, xs))
    ensures forall y :: y in InsertAll(s, xs) <==> y in s || y in xs
  {
    if xs != [] {
      var init := xs[..|xs| - 1];
      InsertAllSpec(s, init);
      InsertSorted(InsertAll(s, init), xs[|xs| - 1]);
      InsertMembers(InsertAll(s, init), xs[|xs| - 1]);
      assert xs == init + [xs[|xs| - 1]];
    }
  }
}
