/** Label reconciliation: every repository gets the organisation's fixed set
    of issue labels. Phase one renames labels known under an old name and
    removes unknown ones; phase two creates missing required labels and
    corrects colours. */
module UnifyLabels {
  import opened Wrappers
  import opened ProblemHandlers

  /** `LabelDesc`: a label of the standard set. */
  datatype LabelDesc = LabelDesc(name: string, color: string, oldNames: seq<string>, required: bool)

  /** A label of a repository. */
  datatype Label = Label(name: string, color: string)

  /** The standard label set, in the order both phases visit it. */
  const LabelDefinitions: seq<LabelDesc> := [
    LabelDesc("feature", "88ee66", ["enhancement"], true),
    LabelDesc("bug", "ee0000", [], true),
    LabelDesc("documentation", "0000ee", [], true),
    LabelDesc("refactoring", "ffbb11", [], true),
    LabelDesc("duplicate", "cccccc", [], true),
    LabelDesc("invalid", "eeeeee", [], true),
    LabelDesc("question", "cc3377", ["help wanted"], true),
    LabelDesc("ci", "cc3377", [], false),
    LabelDesc("source:exasol", "eeeeee", [], true),
    LabelDesc("source:external", "eeeeee", [], true),
    LabelDesc("decision:wont-fix", "ffffff", ["wontfix", "won't fix", "status:wont-fix"], true),
    LabelDesc("shelved:yes", "ff33cc", [], true),
    LabelDesc("timeline:long-term", "555555", ["long-term", "timeline:longterm", "timelien:long-term"], true),
    LabelDesc("complexity:low", "4FC24F", ["good-first-issue"], true),
    LabelDesc("complexity:medium", "F2BF63", [], true),
    LabelDesc("complexity:high", "F26363", [], true),
    LabelDesc("dependencies", "ffbb11", [], false),
    LabelDesc("security", "ee0000", [], false),
    LabelDesc("blocked:yes", "000000", ["blocked", "status:blocked"], true)
  ]

  /** `getLabelModifier`: the modifier that edits the repository iff `fix`,
      otherwise the dry run that only reports. */
  function GetLabelModifier(fix: bool): (h: Handler)
    ensures h.FixHandler? <==> fix
  {
    GetProblemHandler(fix)
  }

  // ---------------------------------------------------------------------------
  // First-match lookups

  /** The position of the first label called `name`, or `|labels|`. */
  function LabelIndex(name: string, labels: seq<Label>): (i: nat)
    ensures i <= |labels|
    ensures forall j :: 0 <= j < i ==> labels[j].name != name
    ensures i < |labels| ==> labels[i].name == name
  {
    if |labels| == 0 then 0
    else if labels[0].name == name then 0
    else LabelIndex(name, labels[1..]) + 1
  }

  /** `findLabelByName`: the first label called `name`, or nil. */
  function FindLabelByName(name: string, labels: seq<Label>): (r: Option<Label>)
    ensures r.None? <==> forall j :: 0 <= j < |labels| ==> labels[j].name != name
    ensures r.Some? ==> r.value.name == name && r.value == labels[LabelIndex(name, labels)]
  {
    var i := LabelIndex(name, labels);
    if i < |labels| then Some(labels[i]) else None
  }

  /** The position of the first definition called `name`, or `|defs|`. */
  function DefinitionIndex(name: string, defs: seq<LabelDesc>): (i: nat)
    ensures i <= |defs|
    ensures forall j :: 0 <= j < i ==> defs[j].name != name
    ensures i < |defs| ==> defs[i].name == name
  {
    if |defs| == 0 then 0
    else if defs[0].name == name then 0
    else DefinitionIndex(name, defs[1..]) + 1
  }

  /** `findLabelDefinitionByName`: the first definition called `name`, or nil. */
  function FindLabelDefinitionByName(name: string, defs: seq<LabelDesc>): (r: Option<LabelDesc>)
    ensures r.None? <==> forall j :: 0 <= j < |defs| ==> defs[j].name != name
    ensures r.Some? ==> r.value.name == name && r.value == defs[DefinitionIndex(name, defs)]
  {
    var i := DefinitionIndex(name, defs);
    if i < |defs| then Some(defs[i]) else None
  }

  /** The position of the first definition listing `name` among its old
      names, or `|defs|`. */
  function OldNameIndex(name: string, defs: seq<LabelDesc>): (i: nat)
    ensures i <= |defs|
    ensures forall j :: 0 <= j < i ==> name !in defs[j].oldNames
    ensures i < |defs| ==> name in defs[i].oldNames
  {
    if |defs| == 0 then 0
    else if name in defs[0].oldNames then 0
    else OldNameIndex(name, defs[1..]) + 1
  }

  /** `findLabelDefinitionByOldName`: the first definition, in table order,
      that lists `name` as an old name, or nil. */
  function FindLabelDefinitionByOldName(name: string, defs: seq<LabelDesc>): (r: Option<LabelDesc>)
    ensures r.None? <==> forall j :: 0 <= j < |defs| ==> name !in defs[j].oldNames
    ensures r.Some? ==> name in r.value.oldNames && r.value == defs[OldNameIndex(name, defs)]
  {
    var i := OldNameIndex(name, defs);
    if i < |defs| then Some(defs[i]) else None
  }

  // ---------------------------------------------------------------------------
  // The plan

  datatype LabelAction =
    | CreateLabel(def: LabelDesc)
    | RemoveLabel(lbl: Label)
    | RenameLabel(lbl: Label, def: LabelDesc)
    | SetColor(lbl: Label, def: LabelDesc)

  /** What phase one does with one label. */
  function Phase1Action(lbl: Label, defs: seq<LabelDesc>): (r: Option<LabelAction>)
    ensures r.None? <==> FindLabelDefinitionByName(lbl.name, defs).Some?
    ensures r == Some(RemoveLabel(lbl)) <==>
              FindLabelDefinitionByName(lbl.name, defs).None? &&
              FindLabelDefinitionByOldName(lbl.name, defs).None?
    ensures r.Some? && r.value.RenameLabel? ==>
              r.value.lbl == lbl && FindLabelDefinitionByOldName(lbl.name, defs) == Some(r.value.def)
    ensures r.Some? ==> r.value.RemoveLabel? || r.value.RenameLabel?
  {
    if FindLabelDefinitionByName(lbl.name, defs).Some? then None
    else
      match FindLabelDefinitionByOldName(lbl.name, defs)
      case None => Some(RemoveLabel(lbl))
      case Some(def) => Some(RenameLabel(lbl, def))
  }

  /** Phase one over the listed labels, in list order. */
  function Phase1(labels: seq<Label>, defs: seq<LabelDesc>): (r: seq<LabelAction>)
    ensures |r| <= |labels|
    ensures r == [] <==> forall i :: 0 <= i < |labels| ==> FindLabelDefinitionByName(labels[i].name, defs).Some?
  {
    if |labels| == 0 then []
    else
      assert forall i :: 1 <= i < |labels| ==> labels[i] == labels[1..][i - 1];
      match Phase1Action(labels[0], defs)
      case None => Phase1(labels[1..], defs)
      case Some(a) => [a] + Phase1(labels[1..], defs)
  }

  /** What phase two does for one definition, given the re-listed labels. */
  function Phase2Action(def: LabelDesc, labels: seq<Label>): (r: Option<LabelAction>)
    ensures r == Some(CreateLabel(def)) <==> FindLabelByName(def.name, labels).None? && def.required
    ensures r.None? && FindLabelByName(def.name, labels).None? ==> !def.required
    ensures r.Some? && r.value.SetColor? ==>
              FindLabelByName(def.name, labels) == Some(r.value.lbl) && r.value.def == def &&
              r.value.lbl.color != def.color
    ensures r.None? && FindLabelByName(def.name, labels).Some? ==>
              FindLabelByName(def.name, labels).value.color == def.color
    ensures r.Some? ==> r.value.CreateLabel? || r.value.SetColor?
  {
    match FindLabelByName(def.name, labels)
    case None => if def.required then Some(CreateLabel(def)) else None
    case Some(lbl) => if lbl.color != def.color then Some(SetColor(lbl, def)) else None
  }

  /** Phase two over the definitions, in table order. */
  function Phase2(defs: seq<LabelDesc>, labels: seq<Label>): (r: seq<LabelAction>)
    ensures |r| <= |defs|
    ensures r == [] <==> forall i :: 0 <= i < |defs| ==> Phase2Action(defs[i], labels).None?
  {
    if |defs| == 0 then []
    else
      assert forall i :: 1 <= i < |defs| ==> defs[i] == defs[1..][i - 1];
      match Phase2Action(defs[0], labels)
      case None => Phase2(defs[1..], labels)
      case Some(a) => [a] + Phase2(defs[1..], labels)
  }

  /** `updateLabel`: the edit GitHub receives, addressed by the label's old
      name and carrying the definition's name and colour. */
  datatype Edit = Edit(oldName: string, lbl: Label)

  function UpdateLabel(lbl: Label, def: LabelDesc): (e: Edit)
    ensures e.oldName == lbl.name
    ensures e.lbl.name == def.name && e.lbl.color == def.color
  {
    Edit(lbl.name, Label(def.name, def.color))
  }

  // ---------------------------------------------------------------------------
  // The labels after each phase has been applied

  /** One label after phase one: kept when defined, renamed when known under an
      old name, dropped otherwise. */
  function AfterPhase1(labels: seq<Label>, defs: seq<LabelDesc>): (r: seq<Label>)
    ensures |r| <= |labels|
  {
    if |labels| == 0 then []
    else
      var rest := AfterPhase1(labels[1..], defs);
      match Phase1Action(labels[0], defs)
      case None => [labels[0]] + rest
      case Some(RenameLabel(lbl, def)) => [UpdateLabel(lbl, def).lbl] + rest
      case Some(_) => rest
  }

  /** After phase one every label carries a defined name. */
  lemma {:induction false} AfterPhase1AllDefined(labels: seq<Label>, defs: seq<LabelDesc>)
    ensures forall i :: 0 <= i < |AfterPhase1(labels, defs)| ==>
              FindLabelDefinitionByName(AfterPhase1(labels, defs)[i].name, defs).Some?
  {
    if |labels| > 0 {
      AfterPhase1AllDefined(labels[1..], defs);
      var rest := AfterPhase1(labels[1..], defs);
      match Phase1Action(labels[0], defs)
      case None =>
      case Some(RenameLabel(lbl, def)) =>
        var i := OldNameIndex(labels[0].name, defs);
        assert defs[i] == def;
        assert defs[i].name == def.name;
      case Some(_) =>
    }
  }

  /** So, once phase one has been applied, phase one finds nothing to do. */
  lemma Phase1Settles(labels: seq<Label>, defs: seq<LabelDesc>)
    ensures Phase1(AfterPhase1(labels, defs), defs) == []
  {
    AfterPhase1AllDefined(labels, defs);
  }

  /** The labels after phase two: colours of defined labels corrected, then
      the missing required labels created, in table order. */
  function Recolor(labels: seq<Label>, defs: seq<LabelDesc>): (r: seq<Label>)
    ensures |r| == |labels|
    ensures forall i :: 0 <= i < |r| ==> r[i].name == labels[i].name
  {
    seq(|labels|, i requires 0 <= i < |labels| =>
      match FindLabelDefinitionByName(labels[i].name, defs)
      case None => labels[i]
      case Some(def) => UpdateLabel(labels[i], def).lbl)
  }

  /** The missing required labels, created in table order. */
  function Created(defs: seq<LabelDesc>, labels: seq<Label>): (r: seq<Label>)
    ensures |r| <= |defs|
  {
    if |defs| == 0 then []
    else
      var rest := Created(defs[1..], labels);
      if defs[0].required && FindLabelByName(defs[0].name, labels).None? then [Label(defs[0].name, defs[0].color)] + rest
      else rest
  }

  /** Each created label is a required definition's name and colour. */
  lemma {:induction false} CreatedShape(defs: seq<LabelDesc>, labels: seq<Label>, j: nat)
    requires j < |Created(defs, labels)|
    ensures exists m :: 0 <= m < |defs| && defs[m].required &&
                        Created(defs, labels)[j] == Label(defs[m].name, defs[m].color)
    decreases |defs|
  {
    var rest := Created(defs[1..], labels);
    if defs[0].required && FindLabelByName(defs[0].name, labels).None? {
      if j == 0 {
        assert Created(defs, labels)[0] == Label(defs[0].name, defs[0].color);
      } else {
        CreatedShape(defs[1..], labels, j - 1);
        var m :| 0 <= m < |defs[1..]| && defs[1..][m].required && rest[j - 1] == Label(defs[1..][m].name, defs[1..][m].color);
        assert defs[1..][m] == defs[m + 1];
      }
    } else {
      CreatedShape(defs[1..], labels, j);
      var m :| 0 <= m < |defs[1..]| && defs[1..][m].required && rest[j] == Label(defs[1..][m].name, defs[1..][m].color);
      assert defs[1..][m] == defs[m + 1];
    }
  }

  function AfterPhase2(labels: seq<Label>, defs: seq<LabelDesc>): seq<Label> {
    Recolor(labels, defs) + Created(defs, labels)
  }

  /** The names of the definitions are pairwise distinct. */
  predicate DistinctNames(defs: seq<LabelDesc>) {
    forall i, j :: 0 <= i < j < |defs| ==> defs[i].name != defs[j].name
  }

  /** With distinct definition names, looking up a definition's own name finds
      that definition. */
  lemma FindOwnDefinition(defs: seq<LabelDesc>, k: nat)
    requires DistinctNames(defs) && k < |defs|
    ensures FindLabelDefinitionByName(defs[k].name, defs) == Some(defs[k])
  {
    var i := DefinitionIndex(defs[k].name, defs);
    assert i <= k;
    assert i == k;
  }

  /** A label created in phase two is found again under its definition's name,
      with that definition's colour. */
  lemma {:induction false} CreatedHasColor(defs: seq<LabelDesc>, labels: seq<Label>, k: nat)
    requires DistinctNames(defs) && k < |defs|
    requires FindLabelByName(defs[k].name, labels).None? && defs[k].required
    ensures FindLabelByName(defs[k].name, Created(defs, labels)) == Some(Label(defs[k].name, defs[k].color))
    decreases |defs|
  {
    var rest := Created(defs[1..], labels);
    if k > 0 {
      assert DistinctNames(defs[1..]) by {
        forall i, j | 0 <= i < j < |defs[1..]| ensures defs[1..][i].name != defs[1..][j].name {
          assert defs[1..][i] == defs[i + 1] && defs[1..][j] == defs[j + 1];
        }
      }
      assert defs[1..][k - 1] == defs[k];
      CreatedHasColor(defs[1..], labels, k - 1);
      assert defs[0].name != defs[k].name;
    }
  }

  lemma {:induction false} LabelIndexConcat(name: string, a: seq<Label>, b: seq<Label>)
    ensures LabelIndex(name, a + b) ==
            if LabelIndex(name, a) < |a| then LabelIndex(name, a) else |a| + LabelIndex(name, b)
    decreases |a|
  {
    if |a| > 0 {
      assert (a + b)[1..] == a[1..] + b;
      LabelIndexConcat(name, a[1..], b);
    } else {
      assert a + b == b;
    }
  }

  /** The first-match position only depends on the names. */
  lemma {:induction false} LabelIndexByNames(name: string, a: seq<Label>, b: seq<Label>)
    requires |a| == |b| && forall i :: 0 <= i < |a| ==> a[i].name == b[i].name
    ensures LabelIndex(name, a) == LabelIndex(name, b)
    decreases |a|
  {
    if |a| > 0 {
      LabelIndexByNames(name, a[1..], b[1..]);
    }
  }

  /** Once phase two has been applied, phase two finds nothing to do: every
      required label exists and every defined label has its colour. */
  lemma Phase2Settles(labels: seq<Label>, defs: seq<LabelDesc>)
    requires DistinctNames(defs)
    ensures Phase2(defs, AfterPhase2(labels, defs)) == []
  {
    forall k | 0 <= k < |defs| ensures Phase2Action(defs[k], AfterPhase2(labels, defs)).None? {
      DefinitionSettles(labels, defs, k);
    }
  }

  /** After phase two, one definition needs no further action. */
  lemma DefinitionSettles(labels: seq<Label>, defs: seq<LabelDesc>, k: nat)
    requires DistinctNames(defs) && k < |defs|
    ensures Phase2Action(defs[k], AfterPhase2(labels, defs)).None?
  {
    var def := defs[k];
    LabelIndexByNames(def.name, Recolor(labels, defs), labels);
    LabelIndexConcat(def.name, Recolor(labels, defs), Created(defs, labels));
    var i := LabelIndex(def.name, labels);
    if i < |labels| {
      RecoloredSettles(labels, defs, k, i);
    } else if def.required {
      CreatedSettles(labels, defs, k);
    } else {
      NotCreated(defs, labels, k);
    }
  }

  /** A definition that had a label: the label now has the definition's colour. */
  lemma RecoloredSettles(labels: seq<Label>, defs: seq<LabelDesc>, k: nat, i: nat)
    requires DistinctNames(defs) && k < |defs|
    requires i < |labels| && labels[i].name == defs[k].name
    requires LabelIndex(defs[k].name, AfterPhase2(labels, defs)) == i
    ensures Phase2Action(defs[k], AfterPhase2(labels, defs)).None?
  {
    FindOwnDefinition(defs, k);
    assert AfterPhase2(labels, defs)[i] == Recolor(labels, defs)[i] == Label(defs[k].name, defs[k].color);
    FoundWithColor(defs[k], AfterPhase2(labels, defs), i);
  }

  /** A required definition without a label: the label created for it. */
  lemma CreatedSettles(labels: seq<Label>, defs: seq<LabelDesc>, k: nat)
    requires DistinctNames(defs) && k < |defs| && defs[k].required
    requires LabelIndex(defs[k].name, labels) == |labels|
    requires LabelIndex(defs[k].name, AfterPhase2(labels, defs)) ==
             |labels| + LabelIndex(defs[k].name, Created(defs, labels))
    ensures Phase2Action(defs[k], AfterPhase2(labels, defs)).None?
  {
    var created := Created(defs, labels);
    CreatedHasColor(defs, labels, k);
    var c := LabelIndex(defs[k].name, created);
    assert AfterPhase2(labels, defs)[|labels| + c] == created[c];
    FoundWithColor(defs[k], AfterPhase2(labels, defs), |labels| + c);
  }

  /** A definition whose first label already has its colour needs no action. */
  lemma FoundWithColor(def: LabelDesc, labels: seq<Label>, i: nat)
    requires i < |labels| && LabelIndex(def.name, labels) == i
    requires labels[i] == Label(def.name, def.color)
    ensures Phase2Action(def, labels).None?
  {
  }

  /** A definition that is not required never has a label created for it. */
  lemma NotCreated(defs: seq<LabelDesc>, labels: seq<Label>, k: nat)
    requires DistinctNames(defs) && k < |defs| && !defs[k].required
    ensures LabelIndex(defs[k].name, Created(defs, labels)) == |Created(defs, labels)|
  {
    var created := Created(defs, labels);
    forall j | 0 <= j < |created| ensures created[j].name != defs[k].name {
      CreatedShape(defs, labels, j);
      var m :| 0 <= m < |defs| && defs[m].required && created[j] == Label(defs[m].name, defs[m].color);
      assert m != k;
    }
  }

  // ---------------------------------------------------------------------------
  // A whole run

  /** What one run of `unifyLabels` does: phase one on the listed labels, then
      phase two on the labels listed again. Only the fixing modifier changes
      the repository in between; the dry run leaves it as it was. */
  datatype Run = Run(phase1: seq<LabelAction>, phase2: seq<LabelAction>, after: seq<Label>)

  function UnifyLabels(labels: seq<Label>, defs: seq<LabelDesc>, fix: bool): (r: Run)
    ensures r.phase1 == Phase1(labels, defs)
    ensures !fix ==> r.phase2 == Phase2(defs, labels) && r.after == labels
    ensures fix ==> r.phase2 == Phase2(defs, AfterPhase1(labels, defs)) &&
                    r.after == AfterPhase2(AfterPhase1(labels, defs), defs)
  {
    var relisted := if GetLabelModifier(fix).FixHandler? then AfterPhase1(labels, defs) else labels;
    var after := if GetLabelModifier(fix).FixHandler? then AfterPhase2(relisted, defs) else labels;
    Run(Phase1(labels, defs), Phase2(defs, relisted), after)
  }

  /** Phase one keeps a list whose names are all defined as it is. */
  lemma {:induction false} AfterPhase1KeepsDefined(labels: seq<Label>, defs: seq<LabelDesc>)
    requires forall i :: 0 <= i < |labels| ==> FindLabelDefinitionByName(labels[i].name, defs).Some?
    ensures AfterPhase1(labels, defs) == labels
  {
    if |labels| > 0 {
      assert forall i :: 0 <= i < |labels[1..]| ==> labels[1..][i] == labels[i + 1];
      AfterPhase1KeepsDefined(labels[1..], defs);
      assert labels == [labels[0]] + labels[1..];
    }
  }

  /** Phase two only introduces defined names. */
  lemma AfterPhase2Defined(labels: seq<Label>, defs: seq<LabelDesc>)
    requires forall i :: 0 <= i < |labels| ==> FindLabelDefinitionByName(labels[i].name, defs).Some?
    ensures var after := AfterPhase2(labels, defs);
      forall i :: 0 <= i < |after| ==> FindLabelDefinitionByName(after[i].name, defs).Some?
  {
    var recolored := Recolor(labels, defs);
    var created := Created(defs, labels);
    var after := recolored + created;
    forall i | 0 <= i < |after| ensures FindLabelDefinitionByName(after[i].name, defs).Some? {
      if i < |recolored| {
        assert after[i].name == labels[i].name;
      } else {
        CreatedShape(defs, labels, i - |recolored|);
        var m :| 0 <= m < |defs| && defs[m].required && created[i - |recolored|] == Label(defs[m].name, defs[m].color);
        assert defs[m].name == after[i].name;
      }
    }
  }

  /** A second run with `--fix` right after a first one finds nothing to do. */
  lemma FixedRepositoryIsQuiet(labels: seq<Label>, defs: seq<LabelDesc>)
    requires DistinctNames(defs)
    ensures var second := UnifyLabels(UnifyLabels(labels, defs, true).after, defs, true);
      second.phase1 == [] && second.phase2 == []
  {
    var first := UnifyLabels(labels, defs, true);
    var renamed := AfterPhase1(labels, defs);
    AfterPhase1AllDefined(labels, defs);
    AfterPhase2Defined(renamed, defs);
    AfterPhase1KeepsDefined(first.after, defs);
    Phase2Settles(renamed, defs);
  }

  // ---------------------------------------------------------------------------
  // The standard label set

  lemma TableNamesDistinct()
    ensures DistinctNames(LabelDefinitions)
  {
    var d := LabelDefinitions;
    forall i, j | 0 <= i < j < |d| ensures d[i].name != d[j].name {
      assert |d[i].name| != |d[j].name| || d[i].name[0] != d[j].name[0];
    }
  }

  /** No old name is also the name of a label in the set, so phase one never
      renames a label that is already standard. */
  lemma TableOldNamesUndefined()
    ensures forall i, j :: 0 <= i < |LabelDefinitions| && 0 <= j < |LabelDefinitions| ==>
              LabelDefinitions[i].name !in LabelDefinitions[j].oldNames
  {
    var d := LabelDefinitions;
    forall i, j | 0 <= i < |d| && 0 <= j < |d| ensures d[i].name !in d[j].oldNames {
      forall k | 0 <= k < |d[j].oldNames| ensures d[i].name != d[j].oldNames[k] {
        var a, b := d[i].name, d[j].oldNames[k];
        assert |a| != |b| || a[0] != b[0] || a[1] != b[1] || a[7] != b[7];
      }
    }
  }

  /** For the standard label set: after one run with `--fix`, a second run
      neither renames, removes, creates nor recolours anything. */
  lemma StandardLabelsSettle(labels: seq<Label>)
    ensures var second := UnifyLabels(UnifyLabels(labels, LabelDefinitions, true).after, LabelDefinitions, true);
      second.phase1 == [] && second.phase2 == []
  {
    TableNamesDistinct();
    FixedRepositoryIsQuiet(labels, LabelDefinitions);
  }
}
