/** The web-hook verifier: every repository must carry the hook that posts
    issue and release events to the organisation's Slack channel. */
module WebHooks {
  import opened Wrappers
  import opened ProblemHandlers
  import SliceComparator

  /** A repository web hook: its id, name, `active` flag, the `url` and
      `content_type` entries of its config (a missing `content_type` is
      `None`) and its events. */
  datatype Hook = Hook(
    id: int,
    name: string,
    active: bool,
    url: string,
    contentType: Option<string>,
    events: seq<string>)

  const TemplateName: string := "Issues on Slack"
  const TemplateContentType: string := "form"
  const TemplateEvents: seq<string> :=
    ["release", "issues", "repository_vulnerability_alert", "secret_scanning_alert", "repository"]

  /** `createIssuesHookTemplate`; `url` is the resolved secret
      `issuesSlackWebhookUrl`. A new hook has no id yet. */
  function CreateIssuesHookTemplate(url: string): (h: Hook)
    ensures h.name == "Issues on Slack" && h.active
    ensures h.url == url && h.contentType == Some("form")
    ensures multiset(h.events) ==
            multiset{"release", "issues", "repository_vulnerability_alert", "secret_scanning_alert", "repository"}
  {
    Hook(0, TemplateName, true, url, Some(TemplateContentType), TemplateEvents)
  }

  /** The position of the first hook whose `url` is `url`, or `|hooks|`. */
  function HookIndex(hooks: seq<Hook>, url: string): (i: nat)
    ensures i <= |hooks|
    ensures forall j :: 0 <= j < i ==> hooks[j].url != url
    ensures i < |hooks| ==> hooks[i].url == url
  {
    if |hooks| == 0 then 0
    else if hooks[0].url == url then 0
    else HookIndex(hooks[1..], url) + 1
  }

  /** `findHookByUrl`: the first hook with the URL, or nil. */
  function FindHookByUrl(hooks: seq<Hook>, url: string): (r: Option<Hook>)
    ensures r.None? <==> forall j :: 0 <= j < |hooks| ==> hooks[j].url != url
    ensures r.Some? ==> r.value.url == url && r.value == hooks[HookIndex(hooks, url)]
  {
    var i := HookIndex(hooks, url);
    if i < |hooks| then Some(hooks[i]) else None
  }

  /** `checkIfHookMatchesTemplate`. The event comparison is the last operand
      of a short-circuit `&&`, and when it runs on lists of equal length it
      sorts both in place; the template handed on to the handler is the second
      result. */
  function CheckIfHookMatchesTemplate(hook: Hook, template: Hook): (r: (bool, Hook))
    ensures r.0 <==> hook.active == template.active && hook.url == template.url &&
                     hook.contentType == template.contentType &&
                     multiset(hook.events) == multiset(template.events)
    ensures r.1 == template || r.1 == template.(events := SliceComparator.Sort(template.events))
    ensures multiset(r.1.events) == multiset(template.events)
  {
    if hook.active == template.active && hook.url == template.url && hook.contentType == template.contentType then
      var sorted := |hook.events| == |template.events|;
      var after := if sorted then template.(events := SliceComparator.Sort(template.events)) else template;
      (SliceComparator.EqualIgnoringOrder(hook.events, template.events), after)
    else (false, template)
  }

  datatype HookAction =
    | CreateHook(template: Hook)
    | UpdateHook(existing: Hook, template: Hook)
    | NoHookAction

  /** The decision of `VerifyWebHooks` for the listed hooks. */
  function VerifyWebHooks(hooks: seq<Hook>, url: string): (a: HookAction)
    ensures a.CreateHook? <==> FindHookByUrl(hooks, url).None?
    ensures a.CreateHook? ==> a.template == CreateIssuesHookTemplate(url)
    ensures a.UpdateHook? <==>
              FindHookByUrl(hooks, url).Some? &&
              !CheckIfHookMatchesTemplate(FindHookByUrl(hooks, url).value, CreateIssuesHookTemplate(url)).0
    ensures a.UpdateHook? ==> a.existing == FindHookByUrl(hooks, url).value &&
                              multiset(a.template.events) == multiset(TemplateEvents) &&
                              a.template.(events := TemplateEvents) == CreateIssuesHookTemplate(url)
  {
    var template := CreateIssuesHookTemplate(url);
    match FindHookByUrl(hooks, url)
    case None => CreateHook(template)
    case Some(hook) =>
      var (matches, handed) := CheckIfHookMatchesTemplate(hook, template);
      if !matches then UpdateHook(hook, handed) else NoHookAction
  }

  /** The hooks after the handler has dealt with an action: the fixing handler
      creates the hook, or edits the hook with the existing hook's id so that
      it takes the template's settings; the logging handler only reports. */
  function Handle(handler: Handler, action: HookAction, hooks: seq<Hook>): (r: seq<Hook>)
    ensures handler.LogHandler? || action.NoHookAction? ==> r == hooks
    ensures handler.FixHandler? && action.CreateHook? ==> r == hooks + [action.template]
    ensures handler.FixHandler? && action.UpdateHook? ==>
              |r| == |hooks| &&
              forall i :: 0 <= i < |hooks| ==>
                r[i] == (if hooks[i].id == action.existing.id then action.template.(id := hooks[i].id) else hooks[i])
  {
    if handler.LogHandler? then hooks
    else
      match action
      case CreateHook(template) => hooks + [template]
      case UpdateHook(existing, template) =>
        seq(|hooks|, i requires 0 <= i < |hooks| =>
          if hooks[i].id == existing.id then template.(id := hooks[i].id) else hooks[i])
      case NoHookAction => hooks
  }

  /** A hook holding the template's settings matches the template. */
  lemma TemplateMatches(url: string, id: int)
    ensures CheckIfHookMatchesTemplate(CreateIssuesHookTemplate(url).(id := id), CreateIssuesHookTemplate(url)).0
  {
  }

  /** Hook ids tell hooks apart. */
  predicate DistinctIds(hooks: seq<Hook>) {
    forall i, j :: 0 <= i < j < |hooks| ==> hooks[i].id != hooks[j].id
  }

  /** Running the verifier with `--fix` repairs the hooks: a second run takes
      no action. */
  lemma FixThenRerunIsQuiet(hooks: seq<Hook>, url: string)
    requires DistinctIds(hooks)
    ensures VerifyWebHooks(Handle(FixHandler, VerifyWebHooks(hooks, url), hooks), url).NoHookAction?
  {
    var action := VerifyWebHooks(hooks, url);
    var after := Handle(FixHandler, action, hooks);
    var template := CreateIssuesHookTemplate(url);
    match action
    case CreateHook(_) =>
      assert after == hooks + [template];
      assert HookIndex(after, url) == |hooks| by {
        HookIndexAppend(hooks, template, url);
      }
    case UpdateHook(existing, handed) =>
      var i := HookIndex(hooks, url);
      assert existing == hooks[i];
      forall j | 0 <= j < i ensures after[j].url != url {
        assert hooks[j].id != existing.id;
      }
      assert after[i] == handed.(id := hooks[i].id);
      HookIndexFirst(after, url, i);
    case NoHookAction =>
  }

  lemma {:induction false} HookIndexFirst(hooks: seq<Hook>, url: string, i: nat)
    requires i < |hooks| && hooks[i].url == url
    requires forall j :: 0 <= j < i ==> hooks[j].url != url
    ensures HookIndex(hooks, url) == i
  {
  }

  lemma {:induction false} HookIndexAppend(hooks: seq<Hook>, hook: Hook, url: string)
    requires forall j :: 0 <= j < |hooks| ==> hooks[j].url != url
    requires hook.url == url
    ensures HookIndex(hooks + [hook], url) == |hooks|
  {
    HookIndexFirst(hooks + [hook], url, |hooks|);
  }
}
