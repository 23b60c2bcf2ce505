# github-keeper verifiers, modelled in Dafny

github-keeper is a command-line tool that brings an organisation's GitHub
repositories in line with a standard. It has four checks: branch protection, labels, web hooks and repository
settings. Each check compares
what GitHub reports with a template. In dry-run mode it reports the
differences. With `--fix` it repairs them.

This project models the decision logic of those checks:

- **Branch protection** (`BranchProtection`): the standard protection request
  and the compliance tests for status checks and reviews. It also covers
  merging the checks a branch already requires into the request, and the
  create / update / leave-alone decision.
- **Required checks of a workflow** (`WorkflowParser`, `Placeholder`,
  `MatrixValues`): how the job names a GitHub Actions workflow reports as
  status checks are derived.
  - A job name holding `${{ matrix.key }}` placeholders is expanded over the
    cartesian product of the matrix. `Placeholder` models the regular
    expression and `ReplaceAllString` as a scanner.
  - A job without placeholders gets `name (value)` for each value of a
    one-dimensional matrix.
  - The parser's returned errors are modelled: an undecodable document,
    unsupported trigger syntax, multi-dimensional matrices without a name
    template, and object parameters without a name template. So is the panic
    on a value that is neither string nor map in template mode
    (cmd/workflowDefinitionParser.go:109). The other panics of the parser are
    listed under "Left out".
- **Labels** (`UnifyLabels`): the 19-entry standard label set. Phase one
  renames or removes labels that are not in the set. Phase two creates the
  missing required labels and corrects colours. `LabelModifier` models the
  GitHub calls the repairing modifier makes for each action.
- **Web hooks** (`WebHooks`): finding the Slack hook by URL and comparing it
  with the template. The event lists are compared ignoring order
  (`SliceComparator`), and the comparison sorts the lists in place.
- **Repository settings** (`RepoSettings`): auto-merge allowed and merged
  branches deleted.

`ProblemHandlers` is the choice, shared by all checks, between the handler
that only reports and the handler that repairs. The result of a repairing
handler is modelled as the state GitHub holds afterwards. This lets each
check carry a "fix, then run again, and nothing is left to do" lemma.

Go maps become sequences, in the order the model is given them. YAML
decoding is replaced by an already-decoded `Document`. A panic on an
unsupported matrix value becomes the error `UnsupportedValueType`, which
carries the panic's message.

## Model

| member | source | states |
|---|---|---|
| ProblemHandlers.GetProblemHandler | cmd/branchProtection.go:122-130 | The repairing handler is chosen exactly when `fix` is set, the reporting handler otherwise |
| BranchProtection.ContainsValue | cmd/branchProtection.go:106-113 | True exactly when the value occurs in the list |
| BranchProtection.AllContained | cmd/branchProtection.go:98-102 | True exactly when every requested check occurs among the existing checks |
| BranchProtection.CheckStatusCheckCompliance | cmd/branchProtection.go:94-104 | Compliant exactly when both sides exist, `strict` agrees, and every requested context is among the existing contexts (extra existing contexts are allowed) |
| BranchProtection.CheckReviewCompliance | cmd/branchProtection.go:115-120 | False when either side is missing; otherwise compliant exactly when the dismiss-stale and code-owner flags equal the request's and the existing approval count is at least the requested one |
| BranchProtection.MergeChecks | cmd/branchProtection.go:83-92 | The request keeps its checks as a prefix; the result holds exactly the union of requested and existing checks; each appended check comes from the existing list, was not requested, and is appended once |
| BranchProtection.MergeKeepsDistinct | cmd/branchProtection.go:83-92 | A request without duplicates stays without duplicates after merging |
| BranchProtection.MergeAbsorbed | cmd/branchProtection.go:83-92 | Merging checks that are all requested already changes nothing |
| BranchProtection.MergeIdempotent | cmd/branchProtection.go:83-92 | Merging the same existing checks twice gives the same request as merging them once |
| BranchProtection.AddExistingChecksToRequest | cmd/branchProtection.go:83-92 | Without an existing protection or existing checks the request is unchanged; otherwise only the contexts change, to the merge of requested and existing checks; `strict`, reviews, admin enforcement and force pushes are kept |
| BranchProtection.HasPushOrPrTrigger | cmd/branchProtection.go:200-207 | True exactly when `push` or `pull_request` is among the triggers |
| BranchProtection.GetChecksForWorkflowContent | cmd/branchProtection.go:187-198 | A parse error is passed on unchanged; a workflow run on push or pull request requires exactly its job names; any other workflow requires no checks |
| BranchProtection.PushWorkflowRequiresItsJobs | cmd/branchProtection.go:187-198 | For a decoded workflow with supported trigger syntax (map or list) that lists `push` or `pull_request`: the result is Ok exactly when every job expands; then it holds the parser's total count of names and exactly the names of the jobs; on an error, the error is some job's error |
| BranchProtection.CreateProtectionRequest | cmd/branchProtection.go:141-161 | The standard: strict status checks on the required checks, stale reviews dismissed, code-owner review, one approval, admins not enforced, no force pushes |
| BranchProtection.Decide | cmd/branchProtection.go:66-81 | Create with the standard request exactly on 404; crash on another status without a protection body; update exactly when the existing protection fails the force-push, status-check or review test, with the existing checks merged into the request; otherwise no action |
| BranchProtection.Handle | cmd/branchProtection.go:53-64 | The repairing handler replaces the protection with the requested one on create and update; the reporting handler and no-action leave it alone |
| BranchProtection.TemplateIsCompliant | cmd/branchProtection.go:141-161 | A protection set exactly as the standard asks passes all three tests |
| BranchProtection.ExtraChecksStayCompliant | cmd/branchProtection_i_test.go:74-90 | A protection that requires the standard checks plus others is still compliant, so the extra checks are never removed |
| BranchProtection.FixThenRerunIsQuiet | cmd/branchProtection.go:66-81 | After one run with `--fix`, a second run on the resulting protection takes no action |
| BranchProtection.LogOnlyKeepsReporting | cmd/branchProtection.go:41-51 | Without `--fix` a non-compliant protection stays as it was, so the next run asks for the same update |
| Placeholder.SpaceLenMaximal | cmd/workflowDefinitionParser.go:80 | `\s*` takes the maximal run of white-space characters (tab, newline, form feed, carriage return, space) at the front: everything it takes is white space and the next character is not |
| Placeholder.MatchLen | cmd/workflowDefinitionParser.go:80 | A match of `\$\{\{\s*matrix.KEY\s*\}\}` starts with `$` and is at least 12 characters plus the key long |
| Placeholder.ReplaceAllWithoutPlaceholder | cmd/workflowDefinitionParser.go:95 | A name without a placeholder for the key comes out of the replacement unchanged |
| Placeholder.Fill | cmd/workflowDefinitionParser.go:95 | Every slot for the key becomes the value as text; every other piece is kept |
| Placeholder.ReplaceAllRender | cmd/workflowDefinitionParser.go:80-95 | Replacing every match in a rendered name equals rendering the name with every slot for the key filled, whatever spacing the slots use |
| Placeholder.AnyCharacterAfterMatrix | cmd/workflowDefinitionParser.go:80 | The unescaped dot in the pattern accepts any character, so `${{ matrix-os }}` is replaced too |
| MatrixValues.NatDecimalRoundTrip | cmd/workflowDefinitionParser.go:113-115 | The decimal text of a natural number is a non-empty digit string without a leading zero, and it reads back as the number |
| MatrixValues.DecimalRoundTrip | cmd/workflowDefinitionParser.go:113-115 | The decimal text of an integer, with `-` for negatives, parses back to the integer |
| MatrixValues.StringifyIntInjective | cmd/workflowDefinitionParser.go:113-115 | Two integers render to the same text exactly when they are equal |
| WorkflowParser.Triggers | cmd/workflowDefinitionParser.go:125-141 | The keys of an `on:` map or the entries of an `on:` list; any other form is the "unsupported trigger syntax" error for the workflow |
| WorkflowParser.PlaceholderMeansTemplate | cmd/workflowDefinitionParser.go:47 | A name holding a placeholder contains `${{`, so it is expanded as a template |
| WorkflowParser.Expand | cmd/workflowDefinitionParser.go:75-90 | Success yields one name per combination of matrix values; failure happens exactly when an unsupported value is reached, and is the unsupported-type error |
| WorkflowParser.ExpandValues | cmd/workflowDefinitionParser.go:84-87 | One dimension's values, each substituted and then expanded over the remaining dimensions; the count is the product |
| WorkflowParser.Choices | cmd/workflowDefinitionParser.go:75-90 | The combinations in iteration order: one per element of the product, each picking a value from every dimension |
| WorkflowParser.ExpandIsCartesian | cmd/workflowDefinitionParser.go:75-90 | The recursive expansion equals substituting every combination, in order |
| WorkflowParser.ChoicesComplete | cmd/workflowDefinitionParser.go:75-90 | Every combination of one value per dimension is enumerated |
| WorkflowParser.ExpandMembership | cmd/workflowDefinitionParser.go:75-90 | A name is produced exactly when it is the substitution of some combination of one value per dimension |
| WorkflowParser.SubstituteString | cmd/workflowDefinitionParser.go:92-95 | A string value fills the slots of its own key |
| WorkflowParser.SubstituteObject | cmd/workflowDefinitionParser.go:96-107 | An object value fills the slots named after each of its fields with that field's text, and ignores the matrix key |
| WorkflowParser.FillFieldsKeepsOtherSlots | cmd/workflowDefinitionParser.go:96-107 | A slot no field is named after survives object substitution |
| WorkflowParser.AddParameters | cmd/workflowDefinitionParser.go:63-73 | Fails with the object-parameter error exactly when some value is an object; otherwise gives one `base (value)` name per value, in order |
| WorkflowParser.ImplicitNamesDistinct | cmd/workflowDefinitionParser.go:63-73 | Distinct integer values give distinct names |
| WorkflowParser.JobNames | cmd/workflowDefinitionParser.go:41-61 | A job without a matrix has its one name; a template name expands over the matrix; a plain name with two or more dimensions is the multi-dimensional error, and one with a single dimension is suffixed; the count is the product, or the number of values |
| WorkflowParser.TemplateJobNames | cmd/workflowDefinitionParser.go:47-48 | A template job's names are the substitutions of every combination |
| WorkflowParser.CollectJobNames | cmd/workflowDefinitionParser.go:24-36 | Succeeds exactly when every job does; the first failing job's error is returned; the names are all jobs' names, counted in full |
| WorkflowParser.ParseWorkflowDefinition | cmd/workflowDefinitionParser.go:14-39 | A decoding failure or unsupported trigger syntax is an error; otherwise the workflow's name, triggers and the job names of all jobs |
| ParserExamples.ImplicitExample | cmd/wokflowDefinitionParser_test.go:146-162 | The job `build` with matrix `a: [1, 2]` and no name reports `build (1)` and `build (2)` |
| ParserExamples.TemplateExample | cmd/wokflowDefinitionParser_test.go:63-83 | `Build with A ${{ matrix.a }} and B ${{ matrix.b }}` over a 2x2 matrix reports the four combinations |
| SliceComparator.Insert | cmd/sliceComparator.go:9 | Insertion adds exactly the one element: one longer, same strings plus the new one |
| SliceComparator.InsertSorted | cmd/sliceComparator.go:9 | Inserting into a sorted list keeps it sorted |
| SliceComparator.Sort | cmd/sliceComparator.go:9-10 | The result is a permutation of the input |
| SliceComparator.SortSorted | cmd/sliceComparator.go:9-10 | The result is sorted in the order `sort.Strings` uses |
| SliceComparator.SortedUnique | cmd/sliceComparator.go:9-16 | Two sorted permutations of the same strings are equal |
| SliceComparator.SortEqualIff | cmd/sliceComparator.go:9-16 | Two lists sort to the same list exactly when they hold the same strings the same number of times |
| SliceComparator.EqualIgnoringOrder | cmd/sliceComparator.go:5-17 | Equal exactly when the two lists hold the same strings the same number of times |
| SliceComparator.SamePositions | cmd/sliceComparator.go:12-16 | The position-by-position loop answers true exactly when the two lists are equal |
| SliceComparator.StringSlicesEqualIgnoringOrder | cmd/sliceComparator.go:5-17 | Same verdict; lists of different lengths are left alone and give false, and lists of equal length come back sorted |
| SliceComparator.EqualIgnoringOrderInPlace | cmd/sliceComparator.go:5-17 | The same on arrays sorted in place, including when both arguments are the same array |
| SliceComparator.DifferentLengthsAreUnequal | cmd/sliceComparator_test.go:29-33 | A three-element list is not equal to a two-element list |
| UnifyLabels.GetLabelModifier | cmd/unifyLabels.go:11-17 | The modifier edits the repository exactly when `fix` is set |
| UnifyLabels.FindLabelByName | cmd/unifyLabels.go:144-151 | Absent exactly when no label has the name; otherwise the first label with it |
| UnifyLabels.FindLabelDefinitionByName | cmd/unifyLabels.go:153-160 | Absent exactly when no definition has the name; otherwise the first definition with it |
| UnifyLabels.FindLabelDefinitionByOldName | cmd/unifyLabels.go:162-171 | Absent exactly when no definition lists the name as an old name; otherwise the first such definition in table order |
| UnifyLabels.Phase1Action | cmd/unifyLabels.go:44-52 | Nothing for a defined label; a rename for a label known under an old name; removal exactly when the name is neither defined nor old |
| UnifyLabels.Phase1 | cmd/unifyLabels.go:43-53 | No action exactly when every label's name is defined |
| UnifyLabels.Phase2Action | cmd/unifyLabels.go:55-66 | Create exactly when a required definition has no label; a colour change exactly when the label's colour differs; nothing otherwise |
| UnifyLabels.Phase2 | cmd/unifyLabels.go:55-66 | No action exactly when no definition needs one |
| UnifyLabels.UpdateLabel | cmd/unifyLabels.go:136-141 | The edit addresses the label by its current name and sets the definition's name and colour |
| UnifyLabels.AfterPhase1AllDefined | cmd/unifyLabels.go:43-54 | After phase one every label carries a defined name |
| UnifyLabels.Phase1Settles | cmd/unifyLabels.go:43-54 | After phase one has been applied, phase one has nothing to do |
| UnifyLabels.CreatedShape | cmd/unifyLabels.go:57-61 | Every created label is a required definition's name and colour |
| UnifyLabels.CreatedHasColor | cmd/unifyLabels.go:57-60 | A required definition with no label gets a created label that is found again under its name, with its colour |
| UnifyLabels.NotCreated | cmd/unifyLabels.go:57-60 | No label is created under the name of a definition that is not required |
| UnifyLabels.Phase2Settles | cmd/unifyLabels.go:55-66 | After phase two has been applied, phase two has nothing to do, given distinct definition names |
| UnifyLabels.UnifyLabels | cmd/unifyLabels.go:19-67 | Phase one runs on the listed labels; phase two runs on the re-listed labels, which are the repaired ones with `--fix` and the originals without it |
| UnifyLabels.AfterPhase1KeepsDefined | cmd/unifyLabels.go:43-53 | Labels whose names are all defined pass phase one unchanged |
| UnifyLabels.AfterPhase2Defined | cmd/unifyLabels.go:55-66 | Phase two only introduces defined names |
| UnifyLabels.FixedRepositoryIsQuiet | cmd/unifyLabels.go:19-67 | Given distinct definition names (which the standard table has), after a run with `--fix` a second run has nothing to do in either phase |
| UnifyLabels.TableNamesDistinct | cmd/unifyLabels.go:21-40 | The 19 standard labels have distinct names |
| UnifyLabels.TableOldNamesUndefined | cmd/unifyLabels.go:21-40 | No old name in the table is also the name of a standard label |
| UnifyLabels.StandardLabelsSettle | cmd/unifyLabels_i_test.go:22-81 | For the standard set, any repository is quiet on the second run after a run with `--fix` |
| LabelModifier.ApplyEdit | cmd/unifyLabels.go:136-142 | `EditLabel` addressed by the old name: the label with that name takes the new name and colour, every other label stays, and the count is kept |
| LabelModifier.DeleteLabel | cmd/unifyLabels.go:115-120 | `DeleteLabel`: exactly the labels under the removed name disappear |
| LabelModifier.Perform | cmd/unifyLabels.go:108-142 | One call of the repairing modifier: create appends the definition's label, remove deletes by name, rename and colour change edit the addressed label to the definition's name and colour |
| LabelModifier.Phase1Performed | cmd/unifyLabels.go:42-54 | With one label per name, making phase one's calls in order leaves exactly the labels `AfterPhase1` describes: defined labels kept, labels known by an old name renamed, the others deleted |
| LabelModifier.Phase2Performed | cmd/unifyLabels.go:55-66 | With one label per name and distinct definition names, making phase two's calls in order leaves exactly `AfterPhase2`: every defined label in its definition's colour, then the missing required labels in table order |
| LabelModifier.FixRunPerformed | cmd/unifyLabels.go:19-67 | A run with `--fix` ends with what GitHub holds after phase one's calls and then phase two's calls on the re-listed labels, provided the renames leave one label per name |
| WebHooks.CreateIssuesHookTemplate | cmd/webHooks.go:92-106 | The "Issues on Slack" hook: active, the secret's URL, content type `form`, and the five events |
| WebHooks.FindHookByUrl | cmd/webHooks.go:76-83 | Absent exactly when no hook has the URL; otherwise the first hook with it |
| WebHooks.CheckIfHookMatchesTemplate | cmd/webHooks.go:85-90 | Matches exactly when `active`, URL and content type agree and the events agree ignoring order; the template's events may come back sorted |
| WebHooks.VerifyWebHooks | cmd/webHooks.go:46-62 | Create the template exactly when no hook has the URL; update exactly when the hook found does not match; the update carries the template with its events possibly reordered |
| WebHooks.Handle | cmd/webHooks.go:32-44 | The repairing handler appends the new hook or edits the hook with the existing id to the template's settings; the reporting handler changes nothing |
| WebHooks.TemplateMatches | cmd/webHooks_test.go:76-87 | A hook with the template's settings matches the template, whatever its id |
| WebHooks.FixThenRerunIsQuiet | cmd/webHooks.go:46-62 | With distinct hook ids, after a run with `--fix` a second run takes no action |
| RepoSettings.GetRepositoryTemplate | cmd/repoSettings.go:65-70 | Auto-merge allowed and merged branches deleted |
| RepoSettings.CheckIfRepoMatchesTemplate | cmd/repoSettings.go:61-63 | Despite its name, true exactly when the repository differs from the template |
| RepoSettings.VerifyRepoSettings | cmd/repoSettings.go:40-51 | A handler is called exactly when the settings differ from the template, and it is the one `fix` selects; with `--fix` the settings become the template, without it they stay |
| RepoSettings.SecondRunIsSilent | cmd/repoSettings_test.go:41-49 | After a run with `--fix`, a second run calls no handler |

## Left out

- YAML decoding is not modelled. The parser takes an already-decoded `Document`, and an undecodable one carries the decoder's message as an opaque reason.
- Go maps are iterated in an unspecified order. The model takes jobs, matrix keys and object fields as sequences in a given order. So the order of the returned names is the model's, and only their count and membership carry over to the source.
- Placeholder.ReplaceAllRender, WorkflowParser.SubstituteString and WorkflowParser.SubstituteObject speak only about names whose literal text holds no `$`. A job name that also carries another expression, such as `Build ${{ inputs.os }} ${{ matrix.go }}`, is replaced by the scanner like any other name (`ReplaceAll`), but these lemmas do not describe the result. Placeholder.ReplaceAllWithoutPlaceholder covers any name that holds no placeholder for the key.
- `$` in a matrix value would be expanded by `ReplaceAllString` as a group reference. The substitution lemmas require values without `$`, and the model's replacement inserts the value literally.
- A matrix key holding regular-expression quoting ends (`\E`) or characters the scanner's `ValidKey` excludes (white space, `}`, `$`) is outside the substitution lemmas. `ReplaceAll` itself accepts any key. The source panics when such a key makes the pattern fail to compile (`regexp.Compile`, cmd/workflowDefinitionParser.go:82 and :103), and that panic is not modelled.
- Floating-point values keep the text the YAML decoder produced; `fmt` `%v` float formatting is not modelled.
- A YAML list as a matrix value is not modelled: `MatrixValue` has only scalars and maps. In template mode the source panics on it with "unsupported type []interface {}" (cmd/workflowDefinitionParser.go:109). In implicit mode it renders as `name ([1 2])` (:69, :114).
- Nested maps and non-string keys inside an object matrix value are not modelled. The source panics on a non-string key.
- Nil-pointer and type-assertion panics are not modelled, except the missing protection body, which is the `Crash` action. This covers a non-string trigger entry, a hook config without `url`, and a nil `AllowForcePushes` or `Active`. Pointer fields are plain booleans.
- BranchProtection.AddExistingChecksToRequest requires the request to carry status checks. The source dereferences them without a nil test, and its only caller passes the standard request, which always has them.
- BranchProtection.GetChecksForWorkflowContent takes the parse result as a parameter. In cmd/branchProtection.go:217-257 the verifier calls its own older copy of the parser. That copy lists job keys without matrix expansion, and it re-declares `getTriggersOfWorkflowDefinition`. The model connects the check to the matrix-aware parser of cmd/workflowDefinitionParser.go, and PushWorkflowRequiresItsJobs states that link.
- Downloading workflow files, listing workflows and labels, the GitHub API calls, printing, colour output and the cobra commands are left out. The handlers' API effects are modelled as the state GitHub holds afterwards: `BranchProtection.Handle` with `Applied`, `WebHooks.Handle`, `RepoSettings.VerifyRepoSettings`, and for labels `LabelModifier.Perform`.
- GitHub API errors are not modelled. This includes a rename that collides with an existing label, and a hook update that fails.
- GitHub compares label names without regard to case and may lowercase colours such as `4FC24F`. The model compares exactly, as the Go code does.
- WorkflowParser.BaseName (`getJobName`, cmd/workflowDefinitionParser.go:117-123), Placeholder.ReplaceAll (`ReplaceAllString`, :95 and :105), WorkflowParser.SubstituteValue (`replaceSpecificParameterInJobName`, :92-111) and MatrixValues.Stringify (`convertValueToString`, :113-115) are definitions without a contract of their own. What they mean is stated elsewhere. WorkflowParser.JobNames states that a job without a matrix gets its base name. Placeholder.ReplaceAllWithoutPlaceholder and Placeholder.ReplaceAllRender describe the replacement. WorkflowParser.SubstituteString and WorkflowParser.SubstituteObject describe the substitution of a string or map value. SubstituteValue leaves the name unchanged for any other value; such a value makes WorkflowParser.Expand fail (its `Stuck` clause), so that result is never returned. MatrixValues.NatDecimalRoundTrip, MatrixValues.DecimalRoundTrip and MatrixValues.StringifyIntInjective describe the rendering of integers.
- UnifyLabels.AfterPhase1, UnifyLabels.Recolor, UnifyLabels.Created and UnifyLabels.AfterPhase2 carry only size and name facts in their own contracts. What they mean is stated by LabelModifier.Phase1Performed and LabelModifier.Phase2Performed (they are the result of the repairing modifier's calls), CreatedShape, CreatedHasColor and NotCreated.
- LabelModifier.Phase1Performed, LabelModifier.Phase2Performed and LabelModifier.FixRunPerformed assume the listed labels have one label per name, as GitHub keeps them. A rename onto a name that is already taken fails at GitHub, and such an error is not modelled.
- UnifyLabels.Phase2Settles assumes distinct definition names. The standard table has them (TableNamesDistinct).
- WebHooks.FixThenRerunIsQuiet assumes distinct hook ids, as GitHub assigns them.
- BranchProtection.FixThenRerunIsQuiet excludes the `Crash` action, where the source panics.
- Test expectations that belong to other versions of the code are not modelled: cmd/workflowDefinitionParser_test.go, cmd/branchProtection_i_test.go:155-230 and cmd/repoSettings_test.go:19-26 expect behaviour, output or helper functions that differ from the core files.
- `reactivateScheduledActions`, `listMyRepos`, `secrets` and `configureRepo` are not part of this model.
