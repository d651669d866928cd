# GitHub repository fetcher — Dafny model

This project models the `GitHubRepoFetcher` class of `src/index.ts`, a small
client of the GitHub REST API with two public operations:

- `getReposWithReadme`: lists a user's repositories and attaches each one's
  README on a best-effort basis.
- `getUserStats`: takes a user's profile and adds three fields. `languages`
  sums per-language byte counts over all repositories. `totalStars` sums the
  stars. `contributions` falls back to 0.

It also models the error normalisation (`handleError`) behind both
operations, and the request headers.

No HTTP call is modelled. Each call is an input to the model instead:

- A single call (profile, listing, contributions) is a settled response,
  `Result<T, Err>`.
- A per-repository call (README, languages) is a function from the
  repository's full name to its settled response.
- A languages response is given by its entries, as `Object.entries` lists
  them: (language, bytes) pairs. The `forEach` over them is
  `Fetcher.AddEntries`.

`Err` is either `AxiosErr(response: Option<Response>)` or `OtherErr`. A
`Response` carries an optional body `message` and an optional `status`.

A `catch` block can receive two kinds of value:

- a raw failure of an HTTP call: `Thrown.Raw`;
- a `GitHubError` that an inner `catch` already normalised and re-threw:
  `Thrown.Rethrown`.

`axios.isAxiosError` is false for the second kind.

Modules:

- `Wrappers` (`wrappers.dfy`): `Option`, `Result`, and `Collect`. `Collect`
  is the reference meaning of "await each call in turn and stop at the first
  rejection".
- `Types` (`types.dfy`): the records of `src/types.ts`.
- `Fetcher` (`fetcher.dfy`): the operations of `src/index.ts`, one function
  each. `TallyRepos` is the statistics loop, written as a recursive
  accumulator. Its contract ties it to the reference definitions
  `EntryKeys`, `EntryBytes`, `KeyUnion`, `Total` and `SumStars`.
- `FetcherFacts` (`facts.dfy`): properties that relate several calls or
  both operations.

The code and its own test disagree on one point, and this model follows the
code. The test at `src/__tests__/GitHubRepoFetcher.test.ts:38-47` expects a
404 "Not Found" listing failure to reach the caller of `getReposWithReadme`
unchanged. The code does not do that:

1. The listing's `catch` (`src/index.ts:41-43`) normalises the failure and
   throws a plain `GitHubError`.
2. The outer `catch` (`src/index.ts:29-31`, and `src/index.ts:102-104` for
   `getUserStats`) normalises that value again.
3. A plain `GitHubError` is not an axios error, so the second pass yields
   "Unknown error occurred" with status 500, whatever the first pass gave.

In the test itself the 404 is lost even earlier. The rejected value at
`src/__tests__/GitHubRepoFetcher.test.ts:39-41` has no `isAxiosError` flag,
and `jest.mock('axios')` replaces `axios.isAxiosError` as well. So already
the first pass yields "Unknown error occurred"/500. In the model's terms
that value is an `OtherErr`.

`FetcherFacts.ListingFailureSurfacesAsUnknown` states this. A profile or
languages failure is different: it reaches the outer `catch` as a raw axios
error and keeps the platform's message and status
(`FetcherFacts.ProfileNotFoundKeepsRemote`).

## Model

| member | source | states |
|---|---|---|
| `Fetcher.StoredToken` | src/index.ts:8-10 | an absent token is stored as the empty string, a given token as itself |
| `Fetcher.Headers` | src/index.ts:12-17 | `Accept` is always the v3 JSON media type; `Authorization` is present iff the token is non-empty, with value `token <t>`; no other header |
| `Fetcher.ReadmeHeaders` | src/index.ts:51 | README requests have the same header names as JSON requests, `Accept` becomes the raw media type, every other header (so `Authorization`) is unchanged |
| `Fetcher.HandleError` | src/index.ts:107-118 | an axios error yields the response's message if non-empty, else "Unknown GitHub API error", and the response's status if non-zero, else 500 (also with no response); any other value yields "Unknown error occurred"/500 |
| `Fetcher.GetRepositories` | src/index.ts:34-44 | succeeds exactly when the listing call does, with its data; a failure is the normalised error of the raw call |
| `Fetcher.GetReadme` | src/index.ts:46-58 | a README is present exactly when its call succeeded, and is then the fetched text; the call never fails |
| `Fetcher.AttachReadmes` | src/index.ts:22-27 | same length and order as the listing; each entry differs from its listed repository only in `readme`, which is that repository's README outcome |
| `Fetcher.GetReposWithReadme` | src/index.ts:19-32 | succeeds exactly when the listing does; on success each entry is the listed one with only `readme` set, from the fetched text or absent on a failed fetch; any listing failure surfaces as "Unknown error occurred"/500 |
| `Fetcher.AddEntries` | src/index.ts:82-84 | the per-entry update over one repository's languages: the key set becomes the previous keys plus the entries' languages, and each key's total is its previous total (0 when absent) plus the bytes the entries give it |
| `Fetcher.TallyRepos` | src/index.ts:72-88 | if some languages call fails, the loop fails with the first failure in listing order; otherwise the language keys are the initial keys plus the union of all reported keys, each count is the initial count plus the per-key sum over all repositories, and the stars are the initial stars plus the sum of star counts |
| `Fetcher.ContributionsOrZero` | src/index.ts:91-94 | the contributions count is the endpoint's value on success and 0 on any failure |
| `Fetcher.GetUserStats` | src/index.ts:60-105 | a profile failure surfaces normalised; a listing failure surfaces as "Unknown error occurred"/500; the first failing languages call surfaces normalised; on success every profile field is copied, `languages` is present with exactly the reported keys and per-key sums, `totalStars` is the star sum, `contributions` is the endpoint value or 0 |
| `Wrappers.CollectFirstFailure` | src/index.ts:75-81 | awaiting calls in turn succeeds iff every call succeeds, with their values in order; otherwise the error is that of the first failing call, all earlier calls having succeeded |
| `FetcherFacts.EntryBytesOfObject` | src/index.ts:82-83 | for the entries of a JSON object (distinct keys) the bytes credited to a language are exactly those of its entry |
| `FetcherFacts.KeyUnionOfEntries` | src/index.ts:82 | a language is among one response's keys iff some entry names it |
| `FetcherFacts.KeyUnionMembers` | src/index.ts:82-84 | a language is among the accumulated keys iff some repository reports it |
| `FetcherFacts.TotalBounds` | src/index.ts:82-84 | each repository's count of a language is at most that language's total; a language no repository reports totals 0 |
| `FetcherFacts.TotalAppend` | src/index.ts:75-84 | totals over a listing split in two are the sums of the parts' totals |
| `FetcherFacts.TotalPermutation` | src/index.ts:75-84 | any reordering of the repositories' responses gives the same total for every language, so accumulation order does not matter |
| `FetcherFacts.StatsFailurePolicy` | src/index.ts:60-104 | the statistics fail iff the profile, the listing or some languages call fails; a languages failure surfaces as the normalised error of the first failing repository in listing order |
| `FetcherFacts.StatsLanguagesCoverRepositories` | src/index.ts:72-98 | on success a language is in the result iff some repository reports it, and its total is at least each repository's count |
| `FetcherFacts.ContributionsAreBestEffort` | src/index.ts:90-101 | the contributions response never changes success or failure, nor any field but `contributions`, which is 0 when the call fails |
| `FetcherFacts.EmptyListingStats` | src/index.ts:72-73 | with zero repositories the result has the empty language map and 0 stars, both present |
| `FetcherFacts.MockScenario` | src/__tests__/GitHubRepoFetcher.test.ts:51-76 | the test's fixture values (one repository, 10 stars, JavaScript 1000 and TypeScript 2000 bytes, 500 contributions), supplied directly as the responses, give the profile plus exactly that language map, 10 stars and 500 contributions |
| `FetcherFacts.HandleErrorNeverFalsy` | src/index.ts:107-118 | a normalised error always has a non-empty message and a non-zero status |
| `FetcherFacts.RemoteErrorRoundTrip` | src/index.ts:108-112 | a remote response with a non-empty message and a non-zero status is reported exactly as sent |
| `FetcherFacts.HandleErrorNotIdempotent` | src/index.ts:107-118 | normalising an already normalised error gives "Unknown error occurred"/500, so a remote "Not Found"/404 is lost on a second pass |
| `FetcherFacts.ListingFailureSurfacesAsUnknown` | src/index.ts:19-44 | any listing failure, even a remote 404, surfaces from both public operations as "Unknown error occurred"/500 |
| `FetcherFacts.ProfileNotFoundKeepsRemote` | src/index.ts:60-104 | a profile fetch rejected with "Not Found"/404 makes the statistics fail with exactly "Not Found"/404 |
| `FetcherFacts.ReadmeFailureIsolated` | src/index.ts:19-28 | one failing README leaves only that entry without a README; the batch succeeds and siblings keep theirs |
| `FetcherFacts.AuthorizationFollowsToken` | src/index.ts:8-17 | a fetcher built without a token sends only `Accept`; with a token, README requests carry the raw `Accept` and the `Authorization` header |

## Left out

- HTTP transport and URL building (`src/index.ts:36-39`, `:48-53`, `:63-66`, `:77-80`, `:91-93`): foreign I/O. Each call is an input response, and the per-repository calls are functions keyed by full name.
- `Promise.all` fan-out (`src/index.ts:22-27`): modelled as a sequential map in listing order. The fetches share no state, so the result is the same.
- JSON decoding and the `bytes as number` cast: byte counts are `nat`, star counts `Option<nat>` (absent counts as 0), contributions `int`. A response of the wrong shape is not modelled.
- Extra profile fields: the spread copies every field of the profile JSON. The model copies the fields declared in `src/types.ts:15-30`.
- Extra repository fields: `{ ...repo, readme }` (`src/index.ts:25`) copies every field of the listing's JSON entry. `GitHubRepo` holds only the fields declared in `src/types.ts:1-8`.
- Fetcher.TallyRepos: language and star totals are unbounded integers. JavaScript adds doubles (`src/index.ts:83`, `:87`), which are exact only up to 2^53, so sums beyond that are not modelled.
- FetcherFacts.MockScenario: covers the test's fixture values only, not its URL routing (`src/__tests__/GitHubRepoFetcher.test.ts:53-61` matches `/repos` before `/languages`, so the test's mock would answer other URLs than intended).
- JavaScript's prototype keys: `languages[lang]` on a plain `{}` finds inherited members for names such as `toString`. The model treats the accumulator as a true map.
- Promise rejections that are not HTTP failures (for example a listing body that is not an array) are not modelled. Only the HTTP calls can fail.
- `src/example.ts`: command-line display only (console output, KB formatting, sorting), outside the core.
