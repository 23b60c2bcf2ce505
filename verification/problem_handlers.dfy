/** The choice every verifier makes before it looks at a repository: with
    `--fix` the problems it finds are repaired through the GitHub API,
    without it they are only reported. */
module ProblemHandlers {

  datatype Handler = LogHandler | FixHandler

  /** `getProblemHandler` of the branch-protection, web-hook and repo-settings
      verifiers. */
  function GetProblemHandler(fix: bool): (h: Handler)
    ensures h.FixHandler? <==> fix
    ensures h.LogHandler? <==> !fix
  {
    if fix then FixHandler else LogHandler
  }
}
