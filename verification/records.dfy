/**
 * The code host's objects as plain values. Only the attributes the reminder reads are kept;
 * labels and requested reviewers are the `name` and `login` fields of the host's dictionaries.
 */
module Records {

  /** A pull request as listed by `repository.pull_requests()`; `createdAt` is in seconds. */
  datatype Pull = Pull(
    number: int,
    state: string,
    login: string,
    url: string,
    title: string,
    labels: seq<string>,
    reviewers: seq<string>,
    createdAt: int)

  /** A review comment as listed by `pull.review_comments()`. */
  datatype Comment = Comment(author: string, createdAt: int)

  /** A repository of the organization with the pull requests it lists. */
  datatype Repository = Repository(name: string, pulls: seq<Pull>)
}
