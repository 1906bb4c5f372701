/** The tag vocabulary search: the stored tag names whose lower-cased form
    starts with the lower-cased query, in store order. */
module TagSearch {
  import opened Records

  /** ASCII case folding of one character. */
  function LowerChar(c: char): (r: char)
    ensures 'A' <= c <= 'Z' ==> r as int == c as int + 32
    ensures !('A' <= c <= 'Z') ==> r == c
    ensures !('A' <= r <= 'Z')
  {
    if 'A' <= c <= 'Z' then (c as int + 32) as char else c
  }

  /** `s` lower-cased: each upper-case letter becomes its lower-case
      letter, every other character is kept, and no upper-case letter is
      left. */
  function Lower(s: string): (r: string)
    ensures |r| == |s|
    ensures forall i :: 0 <= i < |s| && 'A' <= s[i] <= 'Z' ==> r[i] as int == s[i] as int + 32
    ensures forall i :: 0 <= i < |r| ==> !('A' <= r[i] <= 'Z')
    ensures forall i :: 0 <= i < |s| && !('A' <= s[i] <= 'Z') ==> r[i] == s[i]
  {
    seq(|s|, i requires 0 <= i < |s| => LowerChar(s[i]))
  }

  /** Lower-casing twice is lower-casing once. */
  lemma LowerIdempotent(s: string)
    ensures Lower(Lower(s)) == Lower(s)
  {
    assert forall i :: 0 <= i < |s| ==> Lower(Lower(s))[i] == Lower(s)[i];
  }

  /** `name` starts with `prefix`, ignoring case. */
  predicate Matches(name: string, prefix: string)
    ensures Matches(name, prefix) <==>
      |prefix| <= |name| && forall i :: 0 <= i < |prefix| ==> LowerChar(prefix[i]) == LowerChar(name[i])
  {
    Lower(prefix) <= Lower(name)
  }

  /** The names kept by the GET search, in their stored order. */
  function FilterByPrefix(names: seq<string>, prefix: string): (r: seq<string>)
    ensures |r| <= |names|
    ensures forall x :: x in r ==> x in names && Matches(x, prefix)
  {
    if |names| == 0 then []
    else (if Matches(names[0], prefix) then [names[0]] else []) + FilterByPrefix(names[1..], prefix)
  }

  /** The GET search over the stored tags. */
  function SearchTags(tags: seq<Tag>, prefix: string): (r: seq<string>)
    ensures forall n :: n in r <==> n in TagNames(tags) && Matches(n, prefix)
  {
    FilterByPrefixCounts(TagNames(tags), prefix);
    FilterByPrefix(TagNames(tags), prefix)
  }

  /** `r` keeps some of the elements of `s`, in their order in `s`. */
  ghost predicate IsSubsequence<T>(r: seq<T>, s: seq<T>)
    decreases |s|
  {
    |r| == 0 ||
    (|s| > 0 &&
     ((r[0] == s[0] && IsSubsequence(r[1..], s[1..])) || IsSubsequence(r, s[1..])))
  }

  /** Every matching name is kept as often as it is stored, and no other name
      is kept. */
  lemma {:induction false} FilterByPrefixCounts(names: seq<string>, prefix: string)
    ensures forall x :: multiset(FilterByPrefix(names, prefix))[x] ==
                        if Matches(x, prefix) then multiset(names)[x] else 0
  {
    if |names| > 0 {
      FilterByPrefixCounts(names[1..], prefix);
      assert names == [names[0]] + names[1..];
    }
  }

  /** The search keeps store order. */
  lemma {:induction false} FilterByPrefixIsSubsequence(names: seq<string>, prefix: string)
    ensures IsSubsequence(FilterByPrefix(names, prefix), names)
  {
    if |names| > 0 {
      FilterByPrefixIsSubsequence(names[1..], prefix);
      var rest := FilterByPrefix(names[1..], prefix);
      if Matches(names[0], prefix) {
        assert FilterByPrefix(names, prefix) == [names[0]] + rest;
        assert ([names[0]] + rest)[1..] == rest;
      } else {
        assert FilterByPrefix(names, prefix) == rest;
      }
    }
  }

  /** The counts and the order pin the search result down: any subsequence
      of the stored names that keeps each matching name as often as it is
      stored, and nothing else, is the search result. */
  lemma {:induction false} FilterByPrefixUnique(names: seq<string>, prefix: string, r: seq<string>)
    requires IsSubsequence(r, names)
    requires forall x :: multiset(r)[x] == if Matches(x, prefix) then multiset(names)[x] else 0
    ensures r == FilterByPrefix(names, prefix)
    decreases |names|
  {
    if |names| > 0 {
      var n := names[0];
      assert names == [n] + names[1..];
      if |r| > 0 && r[0] == n && IsSubsequence(r[1..], names[1..]) {
        assert r == [n] + r[1..];
        assert Matches(n, prefix) by {
          assert multiset(r)[n] > 0;
        }
        FilterByPrefixUnique(names[1..], prefix, r[1..]);
      } else {
        assert IsSubsequence(r, names[1..]);
        SubsequenceCounts(r, names[1..], n);
        assert !Matches(n, prefix);
        FilterByPrefixUnique(names[1..], prefix, r);
        assert FilterByPrefix(names, prefix) == FilterByPrefix(names[1..], prefix);
      }
    }
  }

  /** A subsequence holds no element more often than the sequence. */
  lemma {:induction false} SubsequenceCounts<T>(r: seq<T>, s: seq<T>, x: T)
    requires IsSubsequence(r, s)
    ensures multiset(r)[x] <= multiset(s)[x]
    decreases |s|
  {
    if |r| > 0 {
      assert s == [s[0]] + s[1..];
      if r[0] == s[0] && IsSubsequence(r[1..], s[1..]) {
        SubsequenceCounts(r[1..], s[1..], x);
        assert r == [r[0]] + r[1..];
      } else {
        SubsequenceCounts(r, s[1..], x);
      }
    }
  }

  /** An empty query returns every stored name. */
  lemma {:induction false} FilterByEmptyPrefix(names: seq<string>)
    ensures FilterByPrefix(names, "") == names
  {
    if |names| > 0 {
      FilterByEmptyPrefix(names[1..]);
      assert Matches(names[0], "");
      assert names == [names[0]] + names[1..];
    }
  }

  /** The case of either side does not matter: lower-casing the query or the
      name does not change whether it matches. */
  lemma MatchesIgnoresCase(name: string, prefix: string)
    ensures Matches(name, prefix) == Matches(Lower(name), prefix)
    ensures Matches(name, prefix) == Matches(name, Lower(prefix))
  {
    LowerIdempotent(name);
    LowerIdempotent(prefix);
  }

  /** Querying "mu" finds the stored tag "Music". */
  lemma MuFindsMusic()
    ensures SearchTags([Tag(1, "Music"), Tag(2, "art")], "mu") == ["Music"]
  {
    var names := TagNames([Tag(1, "Music"), Tag(2, "art")]);
    assert names == ["Music", "art"];
    assert Lower("mu") == "mu";
    assert Lower("Music") == "music";
    assert Matches("Music", "mu");
    assert Lower("art")[0] == 'a';
    assert !Matches("art", "mu");
    assert FilterByPrefix(names, "mu") == ["Music"] + FilterByPrefix(["art"], "mu") by {
      assert names[1..] == ["art"];
    }
    assert ["art"][1..] == [];
  }
}
