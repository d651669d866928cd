/** Properties of the fetcher model that relate several calls or several
    operations. */
module FetcherFacts {
  import opened Wrappers
  import opened Types
  import opened Fetcher

  // ---------------------------------------------------------------------
  // Language totals

  /** The keys of a JSON object are distinct. */
  predicate DistinctKeys(entries: Entries)
  {
    forall i, j :: 0 <= i < j < |entries| ==> entries[i].0 != entries[j].0
  }

  /** For the entries of a JSON object, the bytes credited to a language are
      exactly those of its one entry. */
  lemma {:induction false} EntryBytesOfObject(entries: Entries, i: nat)
    requires DistinctKeys(entries) && i < |entries|
    ensures EntryBytes(entries[i].0, entries) == entries[i].1
  {
    var k := entries[i].0;
    if i == 0 {
      forall j | 0 <= j < |entries[1..]|
        ensures entries[1..][j].0 != k
      {
        assert entries[1..][j] == entries[j + 1];
      }
      KeyUnionOfEntries(entries[1..], k);
      EntryBytesOutsideKeys(k, entries[1..]);
    } else {
      assert entries[1..][i - 1] == entries[i];
      EntryBytesOfObject(entries[1..], i - 1);
    }
  }

  /** A language is among the entries' keys exactly when some entry names it. */
  lemma {:induction false} KeyUnionOfEntries(entries: Entries, k: string)
    ensures k in EntryKeys(entries) <==> exists i :: 0 <= i < |entries| && entries[i].0 == k
  {
    if |entries| > 0 {
      KeyUnionOfEntries(entries[1..], k);
      if k in EntryKeys(entries[1..]) {
        var i :| 0 <= i < |entries[1..]| && entries[1..][i].0 == k;
        assert entries[i + 1].0 == k;
      }
      if exists i :: 0 <= i < |entries| && entries[i].0 == k {
        var i :| 0 <= i < |entries| && entries[i].0 == k;
        if i > 0 { assert entries[1..][i - 1].0 == k; }
      }
    }
  }

  /** A language is in the union exactly when some repository reports it. */
  lemma {:induction false} KeyUnionMembers(ms: seq<Entries>, k: string)
    ensures k in KeyUnion(ms) <==> exists i :: 0 <= i < |ms| && k in EntryKeys(ms[i])
  {
    if |ms| > 0 {
      KeyUnionMembers(ms[1..], k);
      if k in KeyUnion(ms[1..]) {
        var i :| 0 <= i < |ms[1..]| && k in EntryKeys(ms[1..][i]);
        assert k in EntryKeys(ms[i + 1]);
      }
      if exists i :: 0 <= i < |ms| && k in EntryKeys(ms[i]) {
        var i :| 0 <= i < |ms| && k in EntryKeys(ms[i]);
        if i > 0 { assert k in EntryKeys(ms[1..][i - 1]); }
      }
    }
  }

  /** Every repository's bytes of a language are part of that language's
      total, and a language no repository reports totals 0. */
  lemma {:induction false} TotalBounds(ms: seq<Entries>, k: string)
    ensures forall i :: 0 <= i < |ms| ==> EntryBytes(k, ms[i]) <= Total(k, ms)
    ensures (forall i :: 0 <= i < |ms| ==> k !in EntryKeys(ms[i])) ==> Total(k, ms) == 0
  {
    if |ms| > 0 {
      TotalBounds(ms[1..], k);
      forall i | 0 <= i < |ms|
        ensures EntryBytes(k, ms[i]) <= Total(k, ms)
      {
        if i > 0 { assert ms[i] == ms[1..][i - 1]; }
      }
      if forall i :: 0 <= i < |ms| ==> k !in EntryKeys(ms[i]) {
        EntryBytesOutsideKeys(k, ms[0]);
        forall i | 0 <= i < |ms[1..]|
          ensures k !in EntryKeys(ms[1..][i])
        {
          assert ms[1..][i] == ms[i + 1];
        }
      }
    }
  }

  /** Totals over a listing split in two are the sums of the parts' totals. */
  lemma {:induction false} TotalAppend(ms: seq<Entries>, ns: seq<Entries>, k: string)
    ensures Total(k, ms + ns) == Total(k, ms) + Total(k, ns)
  {
    if |ms| > 0 {
      assert (ms + ns)[1..] == ms[1..] + ns;
      TotalAppend(ms[1..], ns, k);
    } else {
      assert ms + ns == ns;
    }
  }

  /** Taking one repository out of the listing takes its bytes out of the
      total. */
  lemma TotalRemove(ns: seq<Entries>, j: nat, k: string)
    requires j < |ns|
    ensures Total(k, ns) == EntryBytes(k, ns[j]) + Total(k, ns[..j] + ns[j + 1..])
  {
    assert ns == (ns[..j] + [ns[j]]) + ns[j + 1..];
    TotalAppend(ns[..j] + [ns[j]], ns[j + 1..], k);
    TotalAppend(ns[..j], [ns[j]], k);
    TotalAppend(ns[..j], ns[j + 1..], k);
    assert Total(k, [ns[j]]) == EntryBytes(k, ns[j]);
  }

  /** Totals do not depend on the order in which the repositories' responses
      are accumulated: any reordering gives the same total per language. */
  lemma {:induction false} TotalPermutation(ms: seq<Entries>, ns: seq<Entries>, k: string)
    requires multiset(ms) == multiset(ns)
    ensures Total(k, ms) == Total(k, ns)
  {
    if |ms| == 0 {
      assert |ns| == |multiset(ns)| == 0;
    } else {
      assert ms[0] in multiset(ns);
      var j :| 0 <= j < |ns| && ns[j] == ms[0];
      var rest := ns[..j] + ns[j + 1..];
      SameMultisetAfterRemoval(ms, ns, j);
      TotalPermutation(ms[1..], rest, k);
      TotalRemove(ns, j, k);
    }
  }

  /** Removing matching elements from two permutations of each other leaves
      permutations of each other. */
  lemma SameMultisetAfterRemoval<T>(ms: seq<T>, ns: seq<T>, j: nat)
    requires multiset(ms) == multiset(ns) && 0 < |ms| && j < |ns| && ns[j] == ms[0]
    ensures multiset(ms[1..]) == multiset(ns[..j] + ns[j + 1..])
  {
    assert ms == [ms[0]] + ms[1..];
    assert ns == ns[..j] + [ns[j]] + ns[j + 1..];
    assert multiset(ns) == multiset(ns[..j]) + multiset{ns[j]} + multiset(ns[j + 1..]);
    assert multiset(ms[1..]) == multiset(ms) - multiset{ms[0]};
  }

  // ---------------------------------------------------------------------
  // getUserStats

  /** The statistics fail exactly when the profile, the listing or some
      repository's languages call fails. A languages failure surfaces as the
      normalised error of the first failing repository in listing order. */
  lemma StatsFailurePolicy(
    profile: Result<GitHubUserStats, Err>,
    listing: Result<seq<GitHubRepo>, Err>,
    langsOf: string -> Result<Entries, Err>,
    contributions: Result<int, Err>)
    ensures var r := GetUserStats(profile, listing, langsOf, contributions);
            r.Failure? <==>
              || profile.Failure?
              || listing.Failure?
              || exists i :: 0 <= i < |listing.value| && langsOf(listing.value[i].fullName).Failure?
    ensures var r := GetUserStats(profile, listing, langsOf, contributions);
            profile.Success? && listing.Success? && r.Failure? ==>
              exists i :: && 0 <= i < |listing.value|
                          && langsOf(listing.value[i].fullName).Failure?
                          && r.error == HandleError(Raw(langsOf(listing.value[i].fullName).error))
                          && forall j :: 0 <= j < i ==> langsOf(listing.value[j].fullName).Success?
  {
    if profile.Success? && listing.Success? {
      var rs := LanguageResponses(listing.value, langsOf);
      CollectFirstFailure(rs);
      assert forall i :: 0 <= i < |rs| ==> rs[i] == langsOf(listing.value[i].fullName);
    }
  }

  /** Every language a repository reports appears in the statistics with
      at least that repository's bytes, and every language of the
      statistics is reported by some repository. */
  lemma StatsLanguagesCoverRepositories(
    profile: Result<GitHubUserStats, Err>,
    listing: Result<seq<GitHubRepo>, Err>,
    langsOf: string -> Result<Entries, Err>,
    contributions: Result<int, Err>,
    k: string)
    requires GetUserStats(profile, listing, langsOf, contributions).Success?
    ensures var langs := GetUserStats(profile, listing, langsOf, contributions).value.languages.value;
            && (k in langs <==>
                  exists i :: 0 <= i < |listing.value| && langsOf(listing.value[i].fullName).Success? &&
                             k in EntryKeys(langsOf(listing.value[i].fullName).value))
            && forall i :: 0 <= i < |listing.value| && langsOf(listing.value[i].fullName).Success? &&
                           k in EntryKeys(langsOf(listing.value[i].fullName).value) ==>
                 EntryBytes(k, langsOf(listing.value[i].fullName).value) <= langs[k]
  {
    StatsFailurePolicy(profile, listing, langsOf, contributions);
    var rs := LanguageResponses(listing.value, langsOf);
    CollectFirstFailure(rs);
    var ms := Collect(rs).value;
    assert forall i :: 0 <= i < |ms| ==> ms[i] == langsOf(listing.value[i].fullName).value;
    KeyUnionMembers(ms, k);
    TotalBounds(ms, k);
  }

  /** The contributions call decides only the `contributions` field: it
      never turns a success into a failure or changes anything else. */
  lemma ContributionsAreBestEffort(
    profile: Result<GitHubUserStats, Err>,
    listing: Result<seq<GitHubRepo>, Err>,
    langsOf: string -> Result<Entries, Err>,
    c1: Result<int, Err>,
    c2: Result<int, Err>)
    ensures var r1 := GetUserStats(profile, listing, langsOf, c1);
            var r2 := GetUserStats(profile, listing, langsOf, c2);
            && (r1.Success? <==> r2.Success?)
            && (r1.Failure? ==> r1 == r2)
            && (r1.Success? ==> r1.value.(contributions := None) == r2.value.(contributions := None))
            && (c1.Failure? && r1.Success? ==> r1.value.contributions == Some(0))
  {
  }

  /** With no repositories the statistics still carry an empty language
      map and a star total of 0. */
  lemma EmptyListingStats(
    profile: Result<GitHubUserStats, Err>,
    langsOf: string -> Result<Entries, Err>,
    contributions: Result<int, Err>)
    requires profile.Success?
    ensures var r := GetUserStats(profile, Success([]), langsOf, contributions);
            r.Success? && r.value.languages == Some(map[]) && r.value.totalStars == Some(0)
  {
  }

  const MockRepo := GitHubRepo(Some(10), "test-repo", "testuser/test-repo", Some("Test repository"),
                               "https://github.com/testuser/test-repo", None)
  const MockUser := GitHubUserStats("testuser", Some("Test User"), Some("Test bio"), 5, 100, 50,
                                    Some("Test Location"), Some("https://test.com"), Some("testuser"),
                                    "2020-01-01T00:00:00Z", "2023-01-01T00:00:00Z", None, None, None)
  const MockLanguages: Entries := [("JavaScript", 1000), ("TypeScript", 2000)]

  /** The fixture values of the repository's tests: one repository with
      10 stars and JavaScript 1000 / TypeScript 2000 bytes, 500
      contributions. */
  lemma MockScenario(langsOf: string -> Result<Entries, Err>)
    requires langsOf(MockRepo.fullName) == Success(MockLanguages)
    ensures GetUserStats(Success(MockUser), Success([MockRepo]), langsOf, Success(500))
            == Success(MockUser.(languages := Some(map["JavaScript" := 1000, "TypeScript" := 2000]),
                                 totalStars := Some(10), contributions := Some(500)))
  {
    var r := GetUserStats(Success(MockUser), Success([MockRepo]), langsOf, Success(500));
    var rs := LanguageResponses([MockRepo], langsOf);
    assert rs == [Success(MockLanguages)];
    assert Collect(rs[1..]) == Success([]);
    assert [MockLanguages] + [] == [MockLanguages];
    assert Collect(rs) == Success([MockLanguages]);
    var langs := r.value.languages.value;
    assert langs.Keys == {"JavaScript", "TypeScript"};
    assert langs == map["JavaScript" := 1000, "TypeScript" := 2000];
  }

  // ---------------------------------------------------------------------
  // Error normalisation

  /** A normalised error always has a non-empty message and a non-zero
      status. */
  lemma HandleErrorNeverFalsy(t: Thrown)
    ensures HandleError(t).message != "" && HandleError(t).status != 0
  {
  }

  /** A remote response carrying a truthy message and status is reported
      exactly as the platform sent it. */
  lemma RemoteErrorRoundTrip(e: GitHubError)
    requires e.message != "" && e.status != 0
    ensures HandleError(Raw(AxiosErr(Some(Response(Some(e.message), Some(e.status)))))) == e
  {
  }

  /** Normalisation is not idempotent: applied to its own output, which is
      no axios error, it forgets message and status. */
  lemma HandleErrorNotIdempotent(t: Thrown)
    ensures HandleError(Rethrown(HandleError(t))) == GitHubError(UnknownMessage, DefaultStatus)
    ensures IsAxiosError(t) && t.err.response.Some? &&
            t.err.response.value == Response(Some("Not Found"), Some(404)) ==>
              HandleError(t) == GitHubError("Not Found", 404) &&
              HandleError(Rethrown(HandleError(t))) != HandleError(t)
  {
  }

  /** A listing failure, even a 404 "Not Found" from the platform, surfaces
      from both public operations as "Unknown error occurred" with 500. */
  lemma ListingFailureSurfacesAsUnknown(
    e: Err,
    profile: GitHubUserStats,
    readmeOf: string -> Result<string, Err>,
    langsOf: string -> Result<Entries, Err>,
    contributions: Result<int, Err>)
    ensures GetReposWithReadme(Failure(e), readmeOf) == Failure(GitHubError(UnknownMessage, DefaultStatus))
    ensures GetUserStats(Success(profile), Failure(e), langsOf, contributions)
            == Failure(GitHubError(UnknownMessage, DefaultStatus))
    ensures e == AxiosErr(Some(Response(Some("Not Found"), Some(404)))) ==>
              GetReposWithReadme(Failure(e), readmeOf) != Failure(GitHubError("Not Found", 404))
  {
  }

  /** A profile failure reaches the outer `catch` as a raw axios error and
      keeps the platform's message and status. */
  lemma ProfileNotFoundKeepsRemote(
    listing: Result<seq<GitHubRepo>, Err>,
    langsOf: string -> Result<Entries, Err>,
    contributions: Result<int, Err>)
    ensures GetUserStats(Failure(AxiosErr(Some(Response(Some("Not Found"), Some(404))))),
                         listing, langsOf, contributions)
            == Failure(GitHubError("Not Found", 404))
  {
  }

  // ---------------------------------------------------------------------
  // getReposWithReadme

  /** One repository's failing README leaves only that entry without a
      README; every sibling keeps its own, and the batch succeeds. */
  lemma ReadmeFailureIsolated(
    repos: seq<GitHubRepo>,
    readmeOf: string -> Result<string, Err>,
    i: nat)
    requires i < |repos| && readmeOf(repos[i].fullName).Failure?
    ensures var r := GetReposWithReadme(Success(repos), readmeOf);
            && r.Success?
            && r.value[i].readme == None
            && forall j :: 0 <= j < |repos| && j != i && readmeOf(repos[j].fullName).Success? ==>
                 r.value[j].readme == Some(readmeOf(repos[j].fullName).value)
  {
  }

  /** Headers built by a fetcher constructed without a token carry no
      `Authorization`; with a token both request kinds carry it. */
  lemma AuthorizationFollowsToken(token: Option<string>)
    ensures token.None? ==> Headers(StoredToken(token)) == map["Accept" := AcceptJson]
    ensures token.Some? && token.value != "" ==>
              ReadmeHeaders(StoredToken(token))
              == map["Accept" := AcceptRaw, "Authorization" := "token " + token.value]
  {
  }
}
