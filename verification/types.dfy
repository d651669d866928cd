/** The records exchanged with the platform's HTTP API (src/types.ts). */
module Types {
  import opened Wrappers

  /** One repository of a listing. A listing entry may lack its star count;
      `readme` is attached only by the README flow. */
  datatype GitHubRepo = GitHubRepo(
    stargazersCount: Option<nat>,
    name: string,
    fullName: string,
    description: Option<string>,
    htmlUrl: string,
    readme: Option<string>)

  /** The one normalised failure shape surfaced to callers. */
  datatype GitHubError = GitHubError(message: string, status: int)

  /** A user profile; the last three fields are optional in the profile
      response and always present in a statistics result. */
  datatype GitHubUserStats = GitHubUserStats(
    login: string,
    name: Option<string>,
    bio: Option<string>,
    publicRepos: int,
    followers: int,
    following: int,
    location: Option<string>,
    blog: Option<string>,
    twitterUsername: Option<string>,
    createdAt: string,
    updatedAt: string,
    contributions: Option<int>,
    languages: Option<map<string, nat>>,
    totalStars: Option<nat>)
}
