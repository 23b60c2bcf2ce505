/** The repo-settings verifier: auto-merge must be allowed and merged
    branches deleted. */
module RepoSettings {
  import opened Wrappers
  import opened ProblemHandlers

  /** The two repository settings the verifier looks at. */
  datatype Settings = Settings(allowAutoMerge: bool, deleteBranchOnMerge: bool)

  /** `getRepositoryTemplate`. */
  function GetRepositoryTemplate(): (t: Settings)
    ensures t.allowAutoMerge && t.deleteBranchOnMerge
  {
    Settings(allowAutoMerge := true, deleteBranchOnMerge := true)
  }

  /** `checkIfRepoMatchesTemplate`. Despite its name it is true when the
      repository DIFFERS from the template in either setting. */
  function CheckIfRepoMatchesTemplate(repo: Settings, template: Settings): (mismatch: bool)
    ensures mismatch <==> repo != template
  {
    repo.allowAutoMerge != template.allowAutoMerge || repo.deleteBranchOnMerge != template.deleteBranchOnMerge
  }

  /** One run of `VerifyRepoSettings`: which handler, if any, was called with
      the template, and the settings afterwards (the fixing handler writes the
      template; the logging handler only reports). */
  datatype Outcome = Outcome(handled: Option<Handler>, after: Settings)

  function VerifyRepoSettings(repo: Settings, fix: bool): (o: Outcome)
    ensures o.handled.Some? <==> repo != GetRepositoryTemplate()
    ensures o.handled.Some? ==> o.handled.value == GetProblemHandler(fix)
    ensures fix ==> o.after == GetRepositoryTemplate()
    ensures !fix ==> o.after == repo
  {
    var handler := GetProblemHandler(fix);
    var template := GetRepositoryTemplate();
    if CheckIfRepoMatchesTemplate(repo, template) then
      Outcome(Some(handler), if handler.FixHandler? then template else repo)
    else Outcome(None, repo)
  }

  /** After a run with `--fix` a second run calls no handler. */
  lemma SecondRunIsSilent(repo: Settings, fix: bool)
    ensures VerifyRepoSettings(VerifyRepoSettings(repo, true).after, fix).handled.None?
  {
  }
}
