/** The `GitHubRepoFetcher` class of src/index.ts.

    Every HTTP call is an input: a settled response (`Result<T, Err>`) for
    the single calls, and a function from a repository's full name to its
    settled response for the per-repository calls. Each operation is then a
    pure function of those responses. */
module Fetcher {
  import opened Wrappers
  import opened Types

  // ---------------------------------------------------------------------
  // Request headers

  const AcceptJson := "application/vnd.github.v3+json"
  const AcceptRaw := "application/vnd.github.raw"

  /** The token the constructor stores: an absent token is kept as "". */
  function StoredToken(token: Option<string>): (t: string)
    ensures token.Some? ==> t == token.value
    ensures token.None? ==> t == ""
  {
    token.GetOr("")
  }

  /** Headers of every JSON request: a fixed `Accept`, and an
      `Authorization` only when the stored token is non-empty. */
  function Headers(token: string): (h: map<string, string>)
    ensures "Accept" in h && h["Accept"] == AcceptJson
    ensures "Authorization" in h <==> token != ""
    ensures "Authorization" in h ==> h["Authorization"] == "token " + token
    ensures forall k :: k in h ==> k == "Accept" || k == "Authorization"
  {
    var auth := if token == "" then map[] else map["Authorization" := "token " + token];
    map["Accept" := AcceptJson] + auth
  }

  /** Headers of a README request: the JSON headers with only `Accept`
      replaced by the raw media type. */
  function ReadmeHeaders(token: string): (h: map<string, string>)
    ensures h.Keys == Headers(token).Keys
    ensures h["Accept"] == AcceptRaw
    ensures forall k :: k in h && k != "Accept" ==> h[k] == Headers(token)[k]
  {
    Headers(token)["Accept" := AcceptRaw]
  }

  // ---------------------------------------------------------------------
  // Failures

  const UnknownApiMessage := "Unknown GitHub API error"
  const UnknownMessage := "Unknown error occurred"
  const DefaultStatus := 500

  /** The remote response carried by an HTTP failure: the body's `message`
      and the status code, each possibly absent. */
  datatype Response = Response(message: Option<string>, status: Option<int>)

  /** A rejected HTTP call: an axios error, which may or may not carry a
      response, or any other exception. */
  datatype Err = AxiosErr(response: Option<Response>) | OtherErr

  /** What a `catch` block receives: a raw failure of an HTTP call, or a
      `GitHubError` that an inner `catch` already normalised and re-threw. */
  datatype Thrown = Raw(err: Err) | Rethrown(error: GitHubError)

  /** `axios.isAxiosError`: only raw axios failures qualify; a plain
      `GitHubError` object does not. */
  predicate IsAxiosError(t: Thrown)
  {
    t.Raw? && t.err.AxiosErr?
  }

  /** A text that is truthy in the source's sense: present and non-empty. */
  function TruthyText(o: Option<string>): Option<string>
  {
    if o.Some? && o.value != "" then o else None
  }

  /** A number that is truthy in the source's sense: present and non-zero. */
  function TruthyNumber(o: Option<int>): Option<int>
  {
    if o.Some? && o.value != 0 then o else None
  }

  /** Normalises whatever a `catch` received into a `GitHubError`. */
  function HandleError(t: Thrown): (e: GitHubError)
    ensures !IsAxiosError(t) ==> e == GitHubError(UnknownMessage, DefaultStatus)
    ensures IsAxiosError(t) && t.err.response.None? ==>
              e == GitHubError(UnknownApiMessage, DefaultStatus)
    ensures IsAxiosError(t) && t.err.response.Some? ==>
              var resp := t.err.response.value;
              && (resp.message.Some? && resp.message.value != "" ==> e.message == resp.message.value)
              && (resp.message.None? || resp.message.value == "" ==> e.message == UnknownApiMessage)
              && (resp.status.Some? && resp.status.value != 0 ==> e.status == resp.status.value)
              && (resp.status.None? || resp.status.value == 0 ==> e.status == DefaultStatus)
  {
    match t
    case Raw(AxiosErr(resp)) =>
      var message := if resp.Some? then resp.value.message else None;
      var status := if resp.Some? then resp.value.status else None;
      GitHubError(TruthyText(message).GetOr(UnknownApiMessage),
                  TruthyNumber(status).GetOr(DefaultStatus))
    case _ =>
      GitHubError(UnknownMessage, DefaultStatus)
  }

  // ---------------------------------------------------------------------
  // Repositories and READMEs

  /** The listing call: its data on success, its normalised failure
      otherwise (which the caller then receives as a thrown `GitHubError`). */
  function GetRepositories(listing: Result<seq<GitHubRepo>, Err>): (r: Result<seq<GitHubRepo>, GitHubError>)
    ensures r.Success? <==> listing.Success?
    ensures r.Success? ==> r.value == listing.value
    ensures r.Failure? ==> r.error == HandleError(Raw(listing.error))
  {
    match listing
    case Success(repos) => Success(repos)
    case Failure(e) => Failure(HandleError(Raw(e)))
  }

  /** The README call never fails: a rejection becomes an absent README. */
  function GetReadme(response: Result<string, Err>): (r: Option<string>)
    ensures r.Some? <==> response.Success?
    ensures r.Some? ==> r.value == response.value
  {
    match response
    case Success(text) => Some(text)
    case Failure(_) => None
  }

  /** The repositories with their READMEs attached, one per listed entry
      and in listing order (the fan-out taken one repository at a time). */
  function AttachReadmes(repos: seq<GitHubRepo>, readmeOf: string -> Result<string, Err>): (r: seq<GitHubRepo>)
    ensures |r| == |repos|
    ensures forall i :: 0 <= i < |r| ==> r[i].(readme := None) == repos[i].(readme := None)
    ensures forall i :: 0 <= i < |r| ==> r[i].readme == GetReadme(readmeOf(repos[i].fullName))
  {
    if |repos| == 0 then []
    else
      var head := repos[0].(readme := GetReadme(readmeOf(repos[0].fullName)));
      [head] + AttachReadmes(repos[1..], readmeOf)
  }

  /** `getReposWithReadme`. A listing failure is normalised once by the
      listing call and again by this operation's own `catch`. */
  function GetReposWithReadme(listing: Result<seq<GitHubRepo>, Err>, readmeOf: string -> Result<string, Err>)
    : (r: Result<seq<GitHubRepo>, GitHubError>)
    ensures r.Success? <==> listing.Success?
    ensures r.Failure? ==> r.error == GitHubError(UnknownMessage, DefaultStatus)
    ensures r.Success? ==> |r.value| == |listing.value|
    ensures r.Success? ==>
              forall i :: 0 <= i < |r.value| ==>
                && r.value[i].(readme := None) == listing.value[i].(readme := None)
                && (readmeOf(listing.value[i].fullName).Success? ==>
                      r.value[i].readme == Some(readmeOf(listing.value[i].fullName).value))
                && (readmeOf(listing.value[i].fullName).Failure? ==> r.value[i].readme == None)
  {
    match GetRepositories(listing)
    case Failure(g) => Failure(HandleError(Rethrown(g)))
    case Success(repos) => Success(AttachReadmes(repos, readmeOf))
  }

  // ---------------------------------------------------------------------
  // Statistics

  /** The running totals of the statistics loop. */
  datatype Tally = Tally(languages: map<string, nat>, totalStars: nat)

  /** `m[k] || 0`: the count recorded for `k`, or 0 when there is none. */
  function Get0(m: map<string, nat>, k: string): nat
  {
    if k in m then m[k] else 0
  }

  /** A languages response as `Object.entries` lists it: (language, bytes)
      pairs in the response's order. */
  type Entries = seq<(string, nat)>

  /** Reference: the languages named by the entries. */
  function EntryKeys(entries: Entries): set<string>
  {
    if |entries| == 0 then {} else {entries[0].0} + EntryKeys(entries[1..])
  }

  /** Reference: the bytes the entries give language `k`. */
  function EntryBytes(k: string, entries: Entries): nat
  {
    if |entries| == 0 then 0
    else (if entries[0].0 == k then entries[0].1 else 0) + EntryBytes(k, entries[1..])
  }

  /** A language no entry names gets no bytes. */
  lemma {:induction false} EntryBytesOutsideKeys(k: string, entries: Entries)
    requires k !in EntryKeys(entries)
    ensures EntryBytes(k, entries) == 0
  {
    if |entries| > 0 {
      EntryBytesOutsideKeys(k, entries[1..]);
    }
  }

  /** The `forEach` over one repository's entries: each entry sets its
      language's total to the previous total (0 when absent) plus its bytes. */
  function AddEntries(acc: map<string, nat>, entries: Entries): (r: map<string, nat>)
    ensures r.Keys == acc.Keys + EntryKeys(entries)
    ensures forall k :: k in r ==> r[k] == Get0(acc, k) + EntryBytes(k, entries)
    decreases entries
  {
    if |entries| == 0 then acc
    else
      var (lang, bytes) := entries[0];
      AddEntries(acc[lang := Get0(acc, lang) + bytes], entries[1..])
  }

  /** `stargazers_count || 0`. */
  function StarCount(repo: GitHubRepo): nat
  {
    repo.stargazersCount.GetOr(0)
  }

  /** Reference: the stars of all repositories, a missing count being 0. */
  function SumStars(repos: seq<GitHubRepo>): nat
  {
    if |repos| == 0 then 0 else StarCount(repos[0]) + SumStars(repos[1..])
  }

  /** Reference: every language named by at least one repository. */
  function KeyUnion(ms: seq<Entries>): set<string>
  {
    if |ms| == 0 then {} else EntryKeys(ms[0]) + KeyUnion(ms[1..])
  }

  /** Reference: the bytes of language `k` summed over all repositories. */
  function Total(k: string, ms: seq<Entries>): nat
  {
    if |ms| == 0 then 0 else EntryBytes(k, ms[0]) + Total(k, ms[1..])
  }

  /** The languages responses of the listed repositories, in listing order. */
  function LanguageResponses(repos: seq<GitHubRepo>, langsOf: string -> Result<Entries, Err>)
    : (rs: seq<Result<Entries, Err>>)
  {
    seq(|repos|, i requires 0 <= i < |repos| => langsOf(repos[i].fullName))
  }

  /** The statistics loop over the listed repositories: per repository,
      await its languages (a rejection leaves the loop), merge them into
      the totals, then add its stars. */
  function TallyRepos(repos: seq<GitHubRepo>, langsOf: string -> Result<Entries, Err>, acc: Tally)
    : (r: Result<Tally, Err>)
    ensures var c := Collect(LanguageResponses(repos, langsOf));
            && (c.Failure? ==> r == Failure(c.error))
            && (c.Success? ==>
                  && r.Success?
                  && r.value.languages.Keys == acc.languages.Keys + KeyUnion(c.value)
                  && (forall k :: k in r.value.languages ==>
                        r.value.languages[k] == Get0(acc.languages, k) + Total(k, c.value))
                  && r.value.totalStars == acc.totalStars + SumStars(repos))
  {
    if |repos| == 0 then Success(acc)
    else
      assert LanguageResponses(repos[1..], langsOf) == LanguageResponses(repos, langsOf)[1..];
      match langsOf(repos[0].fullName)
      case Failure(e) => Failure(e)
      case Success(langs) =>
        var next := Tally(AddEntries(acc.languages, langs), acc.totalStars + StarCount(repos[0]));
        var rest := Collect(LanguageResponses(repos[1..], langsOf));
        var r := TallyRepos(repos[1..], langsOf, next);
        if rest.Success? then
          assert Collect(LanguageResponses(repos, langsOf)) == Success([langs] + rest.value);
          TallyStep(acc.languages, langs, rest.value, r.value.languages);
          r
        else
          r
  }

  /** One step of the statistics loop keeps the totals in step with the
      reference sums: adding a repository's entries and then the rest equals
      the reference over the repository followed by the rest. */
  lemma TallyStep(acc: map<string, nat>, langs: Entries, rest: seq<Entries>, final: map<string, nat>)
    requires final.Keys == AddEntries(acc, langs).Keys + KeyUnion(rest)
    requires forall k :: k in final ==> final[k] == Get0(AddEntries(acc, langs), k) + Total(k, rest)
    ensures final.Keys == acc.Keys + KeyUnion([langs] + rest)
    ensures forall k :: k in final ==> final[k] == Get0(acc, k) + Total(k, [langs] + rest)
  {
    assert ([langs] + rest)[0] == langs;
    assert ([langs] + rest)[1..] == rest;
    var added := AddEntries(acc, langs);
    forall k | k in final
      ensures final[k] == Get0(acc, k) + Total(k, [langs] + rest)
    {
      if k !in added {
        EntryBytesOutsideKeys(k, langs);
      }
    }
  }

  /** The contributions call never fails the operation: a rejection
      counts as 0 contributions. */
  function ContributionsOrZero(response: Result<int, Err>): (n: int)
    ensures response.Success? ==> n == response.value
    ensures response.Failure? ==> n == 0
  {
    match response
    case Success(count) => count
    case Failure(_) => 0
  }

  /** `getUserStats`: profile, then listing, then each repository's
      languages, then contributions. The first failing required call fails
      the whole operation; a listing failure arrives at this operation's
      `catch` already normalised. */
  function GetUserStats(
    profile: Result<GitHubUserStats, Err>,
    listing: Result<seq<GitHubRepo>, Err>,
    langsOf: string -> Result<Entries, Err>,
    contributions: Result<int, Err>)
    : (r: Result<GitHubUserStats, GitHubError>)
    ensures profile.Failure? ==> r == Failure(HandleError(Raw(profile.error)))
    ensures profile.Success? && listing.Failure? ==>
              r == Failure(GitHubError(UnknownMessage, DefaultStatus))
    ensures profile.Success? && listing.Success? ==>
              var c := Collect(LanguageResponses(listing.value, langsOf));
              && (c.Failure? ==> r == Failure(HandleError(Raw(c.error))))
              && (c.Success? ==>
                    && r.Success?
                    && r.value.languages.Some?
                    && r.value.languages.value.Keys == KeyUnion(c.value)
                    && (forall k :: k in r.value.languages.value ==>
                          r.value.languages.value[k] == Total(k, c.value))
                    && r.value.totalStars == Some(SumStars(listing.value)))
    ensures r.Success? ==>
              && profile.Success?
              && r.value.(contributions := profile.value.contributions,
                          languages := profile.value.languages,
                          totalStars := profile.value.totalStars) == profile.value
              && r.value.contributions == Some(ContributionsOrZero(contributions))
  {
    match profile
    case Failure(e) => Failure(HandleError(Raw(e)))
    case Success(user) =>
      match GetRepositories(listing)
      case Failure(g) => Failure(HandleError(Rethrown(g)))
      case Success(repos) =>
        match TallyRepos(repos, langsOf, Tally(map[], 0))
        case Failure(e) => Failure(HandleError(Raw(e)))
        case Success(tally) =>
          Success(user.(languages := Some(tally.languages),
                        totalStars := Some(tally.totalStars),
                        contributions := Some(ContributionsOrZero(contributions))))
  }
}
