/** The autocomplete search: the fixed index of skills and projects, the
    case-insensitive substring filter the widget calls whenever the query changes,
    and the two-character threshold below which the widget asks nothing. */
module Search {
  import opened Text

  /** The index: twelve skills, then six projects; "Node.js" is listed twice. */
  const SearchData: seq<string> := [
    "HTML/CSS", "JavaScript", "jQuery", "React", "Node.js", "Python",
    "React.js", "Node.js", "Spring Boot", "AWS", "C++", "Software Engineering",
    "Nutrify", "FlameExchange", "RotAlert", "Portfolio Website",
    "App", "Project"
  ]

  /** The widget's `minLength` option. */
  const MinLength: nat := 2

  /** An index entry matches a query when its lower-cased form contains the
      lower-cased query. */
  ghost predicate Matches(item: string, query: string) {
    Contains(Lower(item), Lower(query))
  }

  /** The `source` callback: the entries of `index` whose lower-cased form has
      the lower-cased query at some position, in index order. */
  function Match(index: seq<string>, query: string): (r: seq<string>)
    ensures |r| <= |index|
    ensures forall s :: s in r ==> s in index && Matches(s, query)
    ensures forall i :: 0 <= i < |index| && Matches(index[i], query) ==> index[i] in r
    decreases |index|
  {
    if index == [] then []
    else
      var keep := IndexOf(Lower(index[0]), Lower(query)) != -1;
      (if keep then [index[0]] else []) + Match(index[1..], query)
  }

  /** What the search callback hands the widget: nothing for a query shorter
      than `MinLength`, otherwise every matching entry of the index. */
  function Suggest(index: seq<string>, query: string): (r: seq<string>)
    ensures |query| < MinLength ==> r == []
    ensures |query| >= MinLength ==>
              (forall s :: s in r ==> s in index && Matches(s, query)) &&
              (forall i :: 0 <= i < |index| && Matches(index[i], query) ==> index[i] in r)
  {
    if |query| < MinLength then [] else Match(index, query)
  }

  /** At or above the threshold the widget is handed exactly the filter's output. */
  lemma SuggestIsMatch(index: seq<string>, query: string)
    requires |query| >= MinLength
    ensures Suggest(index, query) == Match(index, query)
  {
  }

  /** Filtering distributes over concatenation: the result keeps the order of
      the index. */
  lemma {:induction false} MatchAppend(a: seq<string>, b: seq<string>, query: string)
    ensures Match(a + b, query) == Match(a, query) + Match(b, query)
    decreases |a|
  {
    if a != [] {
      assert (a + b)[0] == a[0];
      assert (a + b)[1..] == a[1..] + b;
      MatchAppend(a[1..], b, query);
    } else {
      assert a + b == b;
    }
  }

  /** `r` is obtained from `s` by deleting elements, keeping the rest in order. */
  ghost predicate IsSubsequence(r: seq<string>, s: seq<string>)
    decreases |s|
  {
    if r == [] then true
    else if s == [] then false
    else (r[0] == s[0] && IsSubsequence(r[1..], s[1..])) || IsSubsequence(r, s[1..])
  }

  /** The suggestions are a subsequence of the index. */
  lemma {:induction false} MatchIsSubsequence(index: seq<string>, query: string)
    ensures IsSubsequence(Match(index, query), index)
    decreases |index|
  {
    if index != [] {
      var rest := Match(index[1..], query);
      MatchIsSubsequence(index[1..], query);
      if IndexOf(Lower(index[0]), Lower(query)) != -1 {
        assert Match(index, query) == [index[0]] + rest;
        assert ([index[0]] + rest)[1..] == rest;
      } else {
        assert Match(index, query) == rest;
        if rest != [] {
          assert IsSubsequence(rest, index[1..]);
        }
      }
    }
  }

  /** Duplicates are kept: every matching entry occurs in the result exactly as
      often as in the index, and no other entry occurs at all. */
  lemma {:induction false} MatchMultiplicity(index: seq<string>, query: string, s: string)
    ensures multiset(Match(index, query))[s] ==
              if Matches(s, query) then multiset(index)[s] else 0
    decreases |index|
  {
    if index != [] {
      MatchMultiplicity(index[1..], query, s);
      assert index == [index[0]] + index[1..];
      assert multiset(index) == multiset([index[0]]) + multiset(index[1..]);
    }
  }

  /** Queries that lower-case alike give the same suggestions. */
  lemma {:induction false} MatchCaseInsensitive(index: seq<string>, q1: string, q2: string)
    requires Lower(q1) == Lower(q2)
    ensures Match(index, q1) == Match(index, q2)
    decreases |index|
  {
    if index != [] {
      MatchCaseInsensitive(index[1..], q1, q2);
    }
  }

  /** In particular a query gives the same suggestions as its lower-cased form. */
  lemma MatchIgnoresQueryCase(index: seq<string>, query: string)
    ensures Match(index, query) == Match(index, Lower(query))
  {
    LowerIdempotent(query);
    MatchCaseInsensitive(index, query, Lower(query));
  }

  /** The empty query is contained in every entry, so the filter alone keeps
      the whole index (the threshold keeps it from being shown). */
  lemma {:induction false} MatchEmptyQuery(index: seq<string>)
    ensures Match(index, "") == index
    decreases |index|
  {
    if index != [] {
      IndexOfEmpty(Lower(index[0]));
      MatchEmptyQuery(index[1..]);
    }
  }

  /** A single entry is suggested exactly when it matches. */
  lemma MatchSingleEntry(item: string, query: string)
    ensures Match([item], query) == if Matches(item, query) then [item] else []
  {
    assert [item][1..] == [];
  }

  /** An index in which nothing matches suggests nothing. */
  lemma MatchNone(index: seq<string>, query: string)
    requires forall i :: 0 <= i < |index| ==> !Matches(index[i], query)
    ensures Match(index, query) == []
  {
  }

  /** When exactly one position matches, the suggestions are that entry alone. */
  lemma {:induction false} MatchOnlyAt(index: seq<string>, query: string, k: nat)
    requires k < |index| && Matches(index[k], query)
    requires forall i :: 0 <= i < |index| && i != k ==> !Matches(index[i], query)
    ensures Match(index, query) == [index[k]]
    decreases k
  {
    var rest := index[1..];
    if k == 0 {
      MatchNone(rest, query);
    } else {
      MatchOnlyAt(rest, query, k - 1);
    }
  }

  /** When exactly two positions match, the suggestions are those two entries
      in index order. */
  lemma {:induction false} MatchOnlyAtTwo(index: seq<string>, query: string, j: nat, k: nat)
    requires j < k < |index| && Matches(index[j], query) && Matches(index[k], query)
    requires forall i :: 0 <= i < |index| && i != j && i != k ==> !Matches(index[i], query)
    ensures Match(index, query) == [index[j], index[k]]
    decreases j
  {
    var rest := index[1..];
    if j == 0 {
      MatchOnlyAt(rest, query, k - 1);
    } else {
      MatchOnlyAtTwo(rest, query, j - 1, k - 1);
    }
  }
}
