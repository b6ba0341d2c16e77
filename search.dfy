/** The community search behind `GET /api/search?q=<term>`, without its HTTP
    wrapper: the query is validated and normalised, the community records are
    filtered by case-insensitive substring match on name, description or an
    interest tag, the matches are ordered name-match first and then by
    descending member count, and each is projected to four fields. */
module Search {
  import opened JsString

  datatype Option<+T> = None | Some(value: T)

  /** One community record of the searched list. */
  datatype Community = Community(
    id: string,
    name: string,
    description: string,
    interests: seq<string>,
    imageUrl: string,
    members: int)

  /** What the response reports of a matched community. */
  datatype SearchResult = SearchResult(id: string, name: string, description: string, imageUrl: string)

  /** The two outcomes of the endpoint: the 400 response for a missing or
      blank query, and the 200 response. */
  datatype Response =
    | Invalid(error: string, message: string)
    | Ok(results: seq<SearchResult>, total: nat, query: string)

  const MissingQueryError: string := "Query parameter \"q\" is required and cannot be empty"
  const MissingQueryMessage: string := "Please provide a search term using the \"q\" query parameter"

  /** The query the matching uses: lower-cased, then trimmed. It is the
      lower-cased form of the trimmed query, and empty exactly when the
      query is white space only. */
  function Normalize(q: string): (nq: string)
    ensures nq == Lower(Trim(q))
    ensures nq == [] <==> AllSpace(q)
  {
    TrimLowerCommute(q);
    Trim(Lower(q))
  }

  predicate NameMatch(c: Community, nq: string)
  {
    Includes(Lower(c.name), nq)
  }

  predicate DescriptionMatch(c: Community, nq: string)
  {
    Includes(Lower(c.description), nq)
  }

  /** `interests.some(i => i.toLowerCase().includes(nq))`. */
  function AnyInterestMatch(interests: seq<string>, nq: string): bool
  {
    if interests == [] then false
    else Includes(Lower(interests[0]), nq) || AnyInterestMatch(interests[1..], nq)
  }

  /** `some` holds exactly when one of the interests contains the query. */
  lemma {:induction false} AnyInterestMatchIffSome(interests: seq<string>, nq: string)
    ensures AnyInterestMatch(interests, nq) <==> exists i :: 0 <= i < |interests| && Includes(Lower(interests[i]), nq)
  {
    if interests != [] {
      AnyInterestMatchIffSome(interests[1..], nq);
      assert forall i :: 1 <= i < |interests| ==> interests[i] == interests[1..][i - 1];
    }
  }

  /** The filter predicate: the normalised query occurs in the lower-cased
      name, the lower-cased description or some lower-cased interest. */
  predicate Matches(c: Community, nq: string)
    ensures Matches(c, nq) <==>
      || Occurs(Lower(c.name), nq) || Occurs(Lower(c.description), nq)
      || exists i :: 0 <= i < |c.interests| && Occurs(Lower(c.interests[i]), nq)
  {
    AnyInterestMatchIffSome(c.interests, nq);
    NameMatch(c, nq) || DescriptionMatch(c, nq) || AnyInterestMatch(c.interests, nq)
  }

  /** `communities.filter(Matches)`, keeping the input order. */
  function FilterMatches(cs: seq<Community>, nq: string): seq<Community>
  {
    if cs == [] then []
    else if Matches(cs[0], nq) then [cs[0]] + FilterMatches(cs[1..], nq)
    else FilterMatches(cs[1..], nq)
  }

  /** The filter keeps every matching record as often as it occurs and
      drops every other one. */
  lemma {:induction false} FilterMatchesCounts(cs: seq<Community>, nq: string, c: Community)
    ensures multiset(FilterMatches(cs, nq))[c] == if Matches(c, nq) then multiset(cs)[c] else 0
  {
    if cs != [] {
      FilterMatchesCounts(cs[1..], nq, c);
      assert cs == [cs[0]] + cs[1..];
    }
  }

  lemma {:induction false} FilterConcat(a: seq<Community>, b: seq<Community>, nq: string)
    ensures FilterMatches(a + b, nq) == FilterMatches(a, nq) + FilterMatches(b, nq)
  {
    if a == [] {
      assert a + b == b;
    } else {
      assert (a + b)[0] == a[0];
      assert (a + b)[1..] == a[1..] + b;
      FilterConcat(a[1..], b, nq);
    }
  }

  /** The comparator handed to `sort`, returning what the source's arrow
      function returns. */
  function Compare(a: Community, b: Community, nq: string): (r: int)
    ensures r < 0 <==>
      || (NameMatch(a, nq) && !NameMatch(b, nq))
      || (NameMatch(a, nq) == NameMatch(b, nq) && a.members > b.members)
    ensures r == 0 <==> SameRank(a, b, nq)
  {
    var aNameMatch := NameMatch(a, nq);
    var bNameMatch := NameMatch(b, nq);
    if aNameMatch && !bNameMatch then -1
    else if !aNameMatch && bNameMatch then 1
    else b.members - a.members
  }

  /** Two records the comparator cannot tell apart. */
  predicate SameRank(a: Community, b: Community, nq: string)
  {
    NameMatch(a, nq) == NameMatch(b, nq) && a.members == b.members
  }

  /** The comparator is consistent: its sign flips with its arguments and
      "not after" is transitive. With `Compare` zero exactly on records of
      the same rank, it orders records by a total preorder. */
  lemma CompareIsConsistent(a: Community, b: Community, c: Community, nq: string)
    ensures Compare(a, b, nq) < 0 <==> Compare(b, a, nq) > 0
    ensures Compare(a, b, nq) <= 0 && Compare(b, c, nq) <= 0 ==> Compare(a, c, nq) <= 0
  {
  }

  predicate Sorted(s: seq<Community>, nq: string)
  {
    forall i, j :: 0 <= i < j < |s| ==> Compare(s[i], s[j], nq) <= 0
  }

  /** The records of `s` that have the rank of `c`, in the order of `s`. */
  function SameRankAs(s: seq<Community>, c: Community, nq: string): seq<Community>
  {
    if s == [] then []
    else (if SameRank(s[0], c, nq) then [s[0]] else []) + SameRankAs(s[1..], c, nq)
  }

  /** `s` with `x` put in front when `x` has the rank of `c`: how a rank
      class changes when `x` is put before the list it is taken from. */
  function PrependIfSameRank(x: Community, c: Community, s: seq<Community>, nq: string): seq<Community>
  {
    (if SameRank(x, c, nq) then [x] else []) + s
  }

  lemma SameRankAsPrepend(x: Community, s: seq<Community>, c: Community, nq: string)
    ensures SameRankAs([x] + s, c, nq) == PrependIfSameRank(x, c, SameRankAs(s, c, nq), nq)
  {
    assert ([x] + s)[1..] == s;
  }

  lemma {:induction false} SameRankAsMembers(s: seq<Community>, c: Community, x: Community, nq: string)
    ensures x in SameRankAs(s, c, nq) <==> x in s && SameRank(x, c, nq)
  {
    if s != [] {
      SameRankAsMembers(s[1..], c, x, nq);
      assert s == [s[0]] + s[1..];
    }
  }

  /** Inserts `x` after the records that sort strictly before it and before
      all others, so `x` precedes the records of its own rank already in
      `s`. */
  function Insert(x: Community, s: seq<Community>, nq: string): seq<Community>
  {
    if s == [] || Compare(s[0], x, nq) >= 0 then [x] + s
    else [s[0]] + Insert(x, s[1..], nq)
  }

  lemma {:induction false} InsertCounts(x: Community, s: seq<Community>, nq: string)
    ensures multiset(Insert(x, s, nq)) == multiset(s) + multiset{x}
  {
    if s != [] && Compare(s[0], x, nq) < 0 {
      InsertCounts(x, s[1..], nq);
      assert s == [s[0]] + s[1..];
    }
  }

  lemma {:induction false} InsertKeepsSorted(x: Community, s: seq<Community>, nq: string)
    requires Sorted(s, nq)
    ensures Sorted(Insert(x, s, nq), nq)
  {
    if s == [] {
    } else if Compare(s[0], x, nq) >= 0 {
      PrependLeast(x, s, nq);
    } else {
      var rest := Insert(x, s[1..], nq);
      SortedTail(s, nq);
      InsertKeepsSorted(x, s[1..], nq);
      InsertCounts(x, s[1..], nq);
      forall y | y in rest ensures Compare(s[0], y, nq) <= 0 {
        assert y in multiset(rest);
        if y == x {
          CompareIsConsistent(s[0], x, x, nq);
        } else {
          assert y in multiset(s[1..]);
          assert y in s[1..] && s == [s[0]] + s[1..];
          FirstIsLeast(s, y, nq);
        }
      }
      PrependLeastOf(s[0], rest, nq);
      assert Insert(x, s, nq) == [s[0]] + rest;
    }
  }

  /** A record ranking no later than the head of a sorted sequence may be
      put in front of it. */
  lemma PrependLeast(x: Community, s: seq<Community>, nq: string)
    requires Sorted(s, nq) && s != [] && Compare(s[0], x, nq) >= 0
    ensures Sorted([x] + s, nq)
  {
    var r := [x] + s;
    forall i, j | 0 <= i < j < |r| ensures Compare(r[i], r[j], nq) <= 0 {
      if i == 0 {
        assert r[j] == s[j - 1];
        CompareIsConsistent(x, s[0], s[j - 1], nq);
      } else {
        assert r[i] == s[i - 1] && r[j] == s[j - 1];
      }
    }
  }

  /** A record ranking no later than every record of a sorted sequence may
      be put in front of it. */
  lemma PrependLeastOf(x: Community, s: seq<Community>, nq: string)
    requires Sorted(s, nq) && forall y :: y in s ==> Compare(x, y, nq) <= 0
    ensures Sorted([x] + s, nq)
  {
    var r := [x] + s;
    forall i, j | 0 <= i < j < |r| ensures Compare(r[i], r[j], nq) <= 0 {
      if i == 0 {
        assert r[j] == s[j - 1];
      } else {
        assert r[i] == s[i - 1] && r[j] == s[j - 1];
      }
    }
  }

  lemma {:induction false} InsertClasses(x: Community, s: seq<Community>, c: Community, nq: string)
    ensures SameRankAs(Insert(x, s, nq), c, nq) == PrependIfSameRank(x, c, SameRankAs(s, c, nq), nq)
  {
    if s == [] || Compare(s[0], x, nq) >= 0 {
      SameRankAsPrepend(x, s, c, nq);
    } else {
      var rest := Insert(x, s[1..], nq);
      InsertClasses(x, s[1..], c, nq);
      SameRankAsPrepend(s[0], rest, c, nq);
      SameRankAsPrepend(s[0], s[1..], c, nq);
      assert Insert(x, s, nq) == [s[0]] + rest;
      assert [s[0]] + s[1..] == s;
      assert !SameRank(s[0], x, nq);
    }
  }

  /** The effect of `sort` with `Compare`: insertion sort, which is stable,
      as `Array.prototype.sort` is required to be. */
  function SortByRelevance(s: seq<Community>, nq: string): seq<Community>
  {
    if s == [] then [] else Insert(s[0], SortByRelevance(s[1..], nq), nq)
  }

  /** Sorting is a permutation. */
  lemma {:induction false} SortPermutes(s: seq<Community>, nq: string)
    ensures multiset(SortByRelevance(s, nq)) == multiset(s)
  {
    if s != [] {
      SortPermutes(s[1..], nq);
      InsertCounts(s[0], SortByRelevance(s[1..], nq), nq);
      assert s == [s[0]] + s[1..];
    }
  }

  /** Sorting puts no record after one the comparator ranks after it. */
  lemma {:induction false} SortIsSorted(s: seq<Community>, nq: string)
    ensures Sorted(SortByRelevance(s, nq), nq)
  {
    if s != [] {
      SortIsSorted(s[1..], nq);
      InsertKeepsSorted(s[0], SortByRelevance(s[1..], nq), nq);
    }
  }

  /** Sorting is stable: the records of each rank keep their order in `s`. */
  lemma {:induction false} SortIsStable(s: seq<Community>, c: Community, nq: string)
    ensures SameRankAs(SortByRelevance(s, nq), c, nq) == SameRankAs(s, c, nq)
  {
    if s != [] {
      SortIsStable(s[1..], c, nq);
      InsertClasses(s[0], SortByRelevance(s[1..], nq), c, nq);
    }
  }

  /** Any sorted sequence whose records of every rank are those of `s` in
      the order of `s` is the one `SortByRelevance` gives: every stable
      sort with `Compare` yields the same result. */
  lemma StableSortIsUnique(s: seq<Community>, t: seq<Community>, nq: string)
    requires Sorted(t, nq)
    requires forall c :: SameRankAs(t, c, nq) == SameRankAs(s, c, nq)
    ensures t == SortByRelevance(s, nq)
  {
    var u := SortByRelevance(s, nq);
    SortIsSorted(s, nq);
    forall c ensures SameRankAs(t, c, nq) == SameRankAs(u, c, nq) {
      SortIsStable(s, c, nq);
    }
    SortedSameClassesEqual(t, u, nq);
  }

  /** The first record of a sorted sequence ranks no later than any record
      in it. */
  lemma FirstIsLeast(u: seq<Community>, x: Community, nq: string)
    requires Sorted(u, nq) && x in u
    ensures Compare(u[0], x, nq) <= 0
  {
    var j :| 0 <= j < |u| && u[j] == x;
    if j == 0 {
      CompareIsConsistent(x, x, x, nq);
    }
  }

  lemma SortedTail(u: seq<Community>, nq: string)
    requires Sorted(u, nq) && u != []
    ensures Sorted(u[1..], nq)
  {
    forall i, j | 0 <= i < j < |u[1..]| ensures Compare(u[1..][i], u[1..][j], nq) <= 0 {
      assert u[1..][i] == u[i + 1] && u[1..][j] == u[j + 1];
    }
  }

  /** Two sorted sequences with the same rank classes are equal. */
  lemma {:induction false} SortedSameClassesEqual(t: seq<Community>, u: seq<Community>, nq: string)
    requires Sorted(t, nq) && Sorted(u, nq)
    requires forall c :: SameRankAs(t, c, nq) == SameRankAs(u, c, nq)
    ensures t == u
    decreases |t|
  {
    if t == [] {
      NoClassesEmpty(t, u, nq);
    } else if u == [] {
      NoClassesEmpty(u, t, nq);
    } else {
      SortedHeadsEqual(t, u, nq);
      TailClassesEqual(t, u, nq);
      SortedTail(t, nq);
      SortedTail(u, nq);
      SortedSameClassesEqual(t[1..], u[1..], nq);
      assert t == [t[0]] + t[1..] && u == [u[0]] + u[1..];
    }
  }

  /** A sequence with the rank classes of the empty one is empty. */
  lemma NoClassesEmpty(t: seq<Community>, u: seq<Community>, nq: string)
    requires t == [] && forall c :: SameRankAs(t, c, nq) == SameRankAs(u, c, nq)
    ensures u == []
  {
    if u != [] {
      SameRankAsMembers(u, u[0], u[0], nq);
    }
  }

  /** Two sorted sequences with the same rank classes start alike: each
      head ranks no later than the other, so both open the same class. */
  lemma SortedHeadsEqual(t: seq<Community>, u: seq<Community>, nq: string)
    requires t != [] && u != [] && Sorted(t, nq) && Sorted(u, nq)
    requires forall c :: SameRankAs(t, c, nq) == SameRankAs(u, c, nq)
    ensures t[0] == u[0]
  {
    var a, b := t[0], u[0];
    SameRankAsMembers(t, a, a, nq);
    SameRankAsMembers(u, a, a, nq);
    assert SameRankAs(t, a, nq) == SameRankAs(u, a, nq);
    FirstIsLeast(u, a, nq);
    SameRankAsMembers(t, b, b, nq);
    SameRankAsMembers(u, b, b, nq);
    assert SameRankAs(t, b, nq) == SameRankAs(u, b, nq);
    FirstIsLeast(t, b, nq);
    CompareIsConsistent(a, b, a, nq);
    assert t == [a] + t[1..] && u == [b] + u[1..];
    SameRankAsPrepend(a, t[1..], a, nq);
    SameRankAsPrepend(b, u[1..], a, nq);
    var x, y := SameRankAs(t[1..], a, nq), SameRankAs(u[1..], a, nq);
    assert ([a] + x)[0] == a && ([b] + y)[0] == b;
  }

  /** Removing equal heads keeps the rank classes equal. */
  lemma TailClassesEqual(t: seq<Community>, u: seq<Community>, nq: string)
    requires t != [] && u != [] && t[0] == u[0]
    requires forall c :: SameRankAs(t, c, nq) == SameRankAs(u, c, nq)
    ensures forall c :: SameRankAs(t[1..], c, nq) == SameRankAs(u[1..], c, nq)
  {
    var a := t[0];
    assert t == [a] + t[1..] && u == [a] + u[1..];
    forall c ensures SameRankAs(t[1..], c, nq) == SameRankAs(u[1..], c, nq) {
      assert SameRankAs(t, c, nq) == SameRankAs(u, c, nq);
      SameRankAsPrepend(a, t[1..], c, nq);
      SameRankAsPrepend(a, u[1..], c, nq);
      if SameRank(a, c, nq) {
        assert ([a] + SameRankAs(t[1..], c, nq))[1..] == SameRankAs(t[1..], c, nq);
        assert ([a] + SameRankAs(u[1..], c, nq))[1..] == SameRankAs(u[1..], c, nq);
      } else {
        assert [] + SameRankAs(t[1..], c, nq) == SameRankAs(t[1..], c, nq);
        assert [] + SameRankAs(u[1..], c, nq) == SameRankAs(u[1..], c, nq);
      }
    }
  }

  /** Filtering the records of one rank gives the matching records of that
      rank. */
  lemma {:induction false} FilterKeepsRankClasses(cs: seq<Community>, c: Community, nq: string)
    ensures SameRankAs(FilterMatches(cs, nq), c, nq) == FilterMatches(SameRankAs(cs, c, nq), nq)
  {
    if cs != [] {
      var x := cs[0];
      FilterKeepsRankClasses(cs[1..], c, nq);
      var f := FilterMatches(cs[1..], nq);
      if Matches(x, nq) {
        SameRankAsPrepend(x, f, c, nq);
      }
      var head := if SameRank(x, c, nq) then [x] else [];
      FilterConcat(head, SameRankAs(cs[1..], c, nq), nq);
      assert FilterMatches(head, nq) == if SameRank(x, c, nq) && Matches(x, nq) then [x] else [] by {
        if SameRank(x, c, nq) { assert [x][1..] == []; }
      }
    }
  }

  /** The filtered and sorted records: each matching record of `cs` as often
      as it occurs there and no other; name matches before all others; member
      counts non-increasing among name matches and among the rest; and records
      of equal rank in the order of `cs`. */
  function Ranked(cs: seq<Community>, nq: string): (r: seq<Community>)
    ensures forall c :: multiset(r)[c] == if Matches(c, nq) then multiset(cs)[c] else 0
    ensures forall i, j :: 0 <= i < j < |r| && NameMatch(r[j], nq) ==> NameMatch(r[i], nq)
    ensures forall i, j :: 0 <= i < j < |r| && NameMatch(r[i], nq) == NameMatch(r[j], nq) ==>
              r[i].members >= r[j].members
    ensures forall c :: SameRankAs(r, c, nq) == FilterMatches(SameRankAs(cs, c, nq), nq)
  {
    RankedFacts(cs, nq);
    SortByRelevance(FilterMatches(cs, nq), nq)
  }

  lemma RankedFacts(cs: seq<Community>, nq: string)
    ensures var r := SortByRelevance(FilterMatches(cs, nq), nq);
      && (forall c :: multiset(r)[c] == if Matches(c, nq) then multiset(cs)[c] else 0)
      && Sorted(r, nq)
      && (forall c :: SameRankAs(r, c, nq) == FilterMatches(SameRankAs(cs, c, nq), nq))
  {
    var m := FilterMatches(cs, nq);
    SortPermutes(m, nq);
    SortIsSorted(m, nq);
    forall c ensures multiset(SortByRelevance(m, nq))[c] == if Matches(c, nq) then multiset(cs)[c] else 0 {
      FilterMatchesCounts(cs, nq, c);
    }
    forall c ensures SameRankAs(SortByRelevance(m, nq), c, nq) == FilterMatches(SameRankAs(cs, c, nq), nq) {
      SortIsStable(m, c, nq);
      FilterKeepsRankClasses(cs, c, nq);
    }
  }

  /** The response projection: drops `interests` and `members`. */
  function Project(c: Community): SearchResult
  {
    SearchResult(c.id, c.name, c.description, c.imageUrl)
  }

  /** `sorted.map(Project)`. */
  function ProjectAll(s: seq<Community>): (r: seq<SearchResult>)
    ensures |r| == |s| && forall i :: 0 <= i < |s| ==> r[i] == Project(s[i])
  {
    seq(|s|, i requires 0 <= i < |s| => Project(s[i]))
  }

  /** The endpoint. A missing, empty or blank query gives the 400 outcome;
      otherwise the results are the ranked matches for the lower-cased
      trimmed query, projected, with their count, and the trimmed query is
      echoed as it was given. */
  function Search(communities: seq<Community>, q: Option<string>): (r: Response)
    ensures r.Invalid? <==> q.None? || AllSpace(q.value)
    ensures r.Invalid? ==> r.error == MissingQueryError && r.message == MissingQueryMessage
    ensures r.Ok? ==> r.total == |r.results| && r.query == Trim(q.value) && r.query != []
    ensures r.Ok? ==> r.results == ProjectAll(Ranked(communities, Lower(r.query)))
  {
    if q.None? || q.value == [] || Trim(q.value) == [] then
      Invalid(MissingQueryError, MissingQueryMessage)
    else
      var query := q.value;
      var results := ProjectAll(Ranked(communities, Normalize(query)));
      Ok(results, |results|, Trim(query))
  }

  /** Every result is the projection of a record of the list that matches
      the normalised query. */
  lemma SearchIsSound(cs: seq<Community>, q: Option<string>, i: int)
    requires Search(cs, q).Ok? && 0 <= i < |Search(cs, q).results|
    ensures exists c :: c in cs && Matches(c, Normalize(q.value)) && Search(cs, q).results[i] == Project(c)
  {
    var nq := Normalize(q.value);
    var ranked := Ranked(cs, nq);
    assert Search(cs, q).results == ProjectAll(ranked);
    RankedMembers(cs, nq, ranked[i]);
  }

  /** Every record of the list that matches the normalised query is
      reported. */
  lemma SearchIsComplete(cs: seq<Community>, q: Option<string>, c: Community)
    requires Search(cs, q).Ok? && c in cs && Matches(c, Normalize(q.value))
    ensures Project(c) in Search(cs, q).results
  {
    var nq := Normalize(q.value);
    var ranked := Ranked(cs, nq);
    assert Search(cs, q).results == ProjectAll(ranked);
    RankedMembers(cs, nq, c);
    ProjectAllMembers(ranked, c);
  }

  /** A record is among the ranked ones exactly when it is in the list and
      matches. */
  lemma RankedMembers(cs: seq<Community>, nq: string, c: Community)
    ensures c in Ranked(cs, nq) <==> c in cs && Matches(c, nq)
  {
    var ranked := Ranked(cs, nq);
    assert multiset(ranked)[c] == if Matches(c, nq) then multiset(cs)[c] else 0;
    assert c in ranked <==> c in multiset(ranked);
    assert c in cs <==> c in multiset(cs);
  }

  lemma ProjectAllMembers(s: seq<Community>, c: Community)
    requires c in s
    ensures Project(c) in ProjectAll(s)
  {
    var i :| 0 <= i < |s| && s[i] == c;
    assert ProjectAll(s)[i] == Project(c);
  }

  lemma LowerOfLowercase(s: string)
    requires forall i :: 0 <= i < |s| ==> !('A' <= s[i] <= 'Z')
    ensures Lower(s) == s
  {
  }

  lemma TrimUnpadded(s: string)
    requires s != [] && !IsSpace(s[0]) && !IsSpace(s[|s| - 1])
    ensures Trim(s) == s
  {
  }

  lemma AllSpaceLower(s: string)
    ensures AllSpace(Lower(s)) <==> AllSpace(s)
  {
    forall i | 0 <= i < |s| ensures IsSpace(Lower(s)[i]) <==> IsSpace(s[i]) {
      LowerKeepsSpace(s[i]);
    }
  }

  /** Queries that differ only in letter case are both rejected or both
      give the same results; only the echoed query differs. */
  lemma SearchIgnoresCase(cs: seq<Community>, q1: string, q2: string)
    requires Lower(q1) == Lower(q2)
    ensures Search(cs, Some(q1)).Ok? == Search(cs, Some(q2)).Ok?
    ensures Search(cs, Some(q1)).Ok? ==>
              Search(cs, Some(q1)).results == Search(cs, Some(q2)).results
              && Search(cs, Some(q1)).total == Search(cs, Some(q2)).total
  {
    AllSpaceLower(q1);
    AllSpaceLower(q2);
    assert Normalize(q1) == Normalize(q2);
  }

  /** The twelve records the endpoint searches. */
  const MockCommunities: seq<Community> := [
    Community("urban-oasis", "Urban Oasis", "Rooftop Gardening",
      ["gardening", "urban", "plants", "sustainability", "green"], "/planets/urban-oasis.png", 342),
    Community("midnight-echo", "Midnight Echo", "Night Coding",
      ["coding", "programming", "development", "tech", "night"], "/planets/midnight-echo.png", 567),
    Community("analog-soul", "Analog Soul", "Film Photography",
      ["photography", "film", "analog", "art", "camera"], "/planets/analog-soul.png", 234),
    Community("nomad-pulse", "Nomad Pulse", "Digital Nomad",
      ["travel", "remote work", "nomad", "adventure", "digital"], "/planets/nomad-pulse.png", 456),
    Community("kindness-core", "Kindness Core", "Neighborhood Help",
      ["community", "help", "kindness", "volunteering", "neighborhood"], "/planets/kindness-core.png", 789),
    Community("neon-valley", "Neon Valley", "Cyberpunk Art",
      ["art", "cyberpunk", "digital art", "neon", "design"], "/planets/neon-valley.png", 423),
    Community("silent-peak", "Silent Peak", "Zen Meditation",
      ["meditation", "zen", "mindfulness", "peace", "wellness"], "/planets/silent-peak.png", 298),
    Community("cloud-seven", "Cloud Seven", "Dream Journaling",
      ["journaling", "dreams", "writing", "creativity", "self-reflection"], "/planets/cloud-seven.png", 512),
    Community("bicycle-riders", "Bicycle Riders", "Cycling & Adventure",
      ["bicycle", "cycling", "sports", "outdoor", "fitness"], "/planets/bicycle-riders.png", 621),
    Community("book-worms", "Book Worms", "Reading & Literature",
      ["books", "reading", "literature", "stories", "learning"], "/planets/book-worms.png", 834),
    Community("music-makers", "Music Makers", "Music Creation & Production",
      ["music", "production", "instruments", "audio", "creativity"], "/planets/music-makers.png", 445),
    Community("game-forge", "Game Forge", "Game Development",
      ["games", "gamedev", "development", "programming", "design"], "/planets/game-forge.png", 723)
  ]

  /** An empty query and a blank one are both rejected. */
  lemma BlankQueriesRejected()
    ensures Search(MockCommunities, None) == Invalid(MissingQueryError, MissingQueryMessage)
    ensures Search(MockCommunities, Some("")) == Invalid(MissingQueryError, MissingQueryMessage)
    ensures Search(MockCommunities, Some(" \t ")) == Invalid(MissingQueryError, MissingQueryMessage)
  {
    assert AllSpace(" \t ");
  }

  /** A query already in normal form: not empty, no upper-case letter, and
      no white space at either end. */
  predicate PlainQuery(q: string)
  {
    && q != [] && !IsSpace(q[0]) && !IsSpace(q[|q| - 1])
    && forall i :: 0 <= i < |q| ==> !('A' <= q[i] <= 'Z')
  }

  /** A plain query is accepted, normalises to itself, and reports every
      record whose lower-cased name contains it. */
  lemma PlainQueryFindsName(cs: seq<Community>, c: Community, q: string)
    requires c in cs && PlainQuery(q) && Includes(Lower(c.name), q)
    ensures Search(cs, Some(q)).Ok?
    ensures Project(c) in Search(cs, Some(q)).results
  {
    TrimUnpadded(q);
    LowerOfLowercase(q);
    assert Normalize(q) == q && !AllSpace(q);
    assert Matches(c, Normalize(q));
    SearchIsComplete(cs, Some(q), c);
  }

  /** `q=bicycle` reports any record named "Bicycle Riders" in the list. */
  lemma BicycleQueryFindsRiders(cs: seq<Community>, c: Community, q: string)
    requires c in cs && c.name == "Bicycle Riders" && q == "bicycle"
    ensures Search(cs, Some(q)).Ok?
    ensures Project(c) in Search(cs, Some(q)).results
  {
    BicycleIsPlain(q);
    RidersMatchBicycle(c.name, q);
    PlainQueryFindsName(cs, c, q);
  }

  lemma BicycleIsPlain(q: string)
    requires q == "bicycle"
    ensures PlainQuery(q)
  {
  }

  /** The mock list has twelve records and holds Bicycle Riders, so
      `BicycleQueryFindsRiders` applies to it. */
  lemma MockListHoldsRiders()
    ensures |MockCommunities| == 12
    ensures MockCommunities[8] in MockCommunities && MockCommunities[8].name == "Bicycle Riders"
    ensures Project(MockCommunities[8]) ==
              SearchResult("bicycle-riders", "Bicycle Riders", "Cycling & Adventure", "/planets/bicycle-riders.png")
  {
  }

  lemma RidersMatchBicycle(name: string, q: string)
    requires name == "Bicycle Riders" && q == "bicycle"
    ensures Includes(Lower(name), q)
  {
    LowerPrefix(name, 7);
    assert name[..7] == "Bicycle";
    LowerBicycle(name[..7]);
    var lowered := Lower(name);
    assert lowered[0..7] == q;
    assert OccursAt(lowered, q, 0);
  }

  lemma LowerBicycle(s: string)
    requires s == "Bicycle"
    ensures Lower(s) == "bicycle"
  {
  }
}
