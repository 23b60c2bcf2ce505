/** The repairing label modifier (`RealLabelModifier`): every action of a
    phase becomes one GitHub call, made in the order the phase produces
    them. The lemmas show that the labels GitHub holds once the calls are
    made are the ones `AfterPhase1` and `AfterPhase2` describe. */
module LabelModifier {
  import opened Wrappers
  import opened UnifyLabels

  /** GitHub keeps at most one label under a name. */
  predicate UniqueNames(labels: seq<Label>) {
    forall i, j :: 0 <= i < j < |labels| ==> labels[i].name != labels[j].name
  }

  // ---------------------------------------------------------------------------
  // The GitHub calls

  /** `Issues.EditLabel`, as `updateLabel` issues it: the label called
      `oldName` takes the edit's name and colour, every other label stays. */
  function ApplyEdit(labels: seq<Label>, e: Edit): (r: seq<Label>)
    ensures |r| == |labels|
    ensures forall i :: 0 <= i < |labels| ==> r[i] == (if labels[i].name == e.oldName then e.lbl else labels[i])
  {
    if |labels| == 0 then []
    else [if labels[0].name == e.oldName then e.lbl else labels[0]] + ApplyEdit(labels[1..], e)
  }

  /** `Issues.DeleteLabel`: the label called `name` is gone, the others stay. */
  function DeleteLabel(labels: seq<Label>, name: string): (r: seq<Label>)
    ensures forall x :: x in r <==> x in labels && x.name != name
  {
    if |labels| == 0 then []
    else
      assert labels == [labels[0]] + labels[1..];
      if labels[0].name == name then DeleteLabel(labels[1..], name)
      else [labels[0]] + DeleteLabel(labels[1..], name)
  }

  /** One call: `createLabel`, `removeLabel`, `renameLabel` or `setColor`. */
  function Perform(labels: seq<Label>, a: LabelAction): (r: seq<Label>)
    ensures a.CreateLabel? ==> r == labels + [Label(a.def.name, a.def.color)]
    ensures a.RemoveLabel? ==> forall x :: x in r <==> x in labels && x.name != a.lbl.name
    ensures a.RenameLabel? || a.SetColor? ==>
              |r| == |labels| &&
              forall i :: 0 <= i < |labels| ==>
                r[i] == (if labels[i].name == a.lbl.name then Label(a.def.name, a.def.color) else labels[i])
  {
    match a
    case CreateLabel(def) => labels + [Label(def.name, def.color)]
    case RemoveLabel(lbl) => DeleteLabel(labels, lbl.name)
    case RenameLabel(lbl, def) => ApplyEdit(labels, UpdateLabel(lbl, def))
    case SetColor(lbl, def) => ApplyEdit(labels, UpdateLabel(lbl, def))
  }

  /** The calls of a phase, one after the other. */
  function PerformAll(labels: seq<Label>, actions: seq<LabelAction>): seq<Label>
    decreases |actions|
  {
    if |actions| == 0 then labels else PerformAll(Perform(labels, actions[0]), actions[1..])
  }

  // ---------------------------------------------------------------------------
  // Small facts about the calls

  lemma PerformFirst(labels: seq<Label>, a: LabelAction, rest: seq<LabelAction>)
    ensures PerformAll(labels, [a] + rest) == PerformAll(Perform(labels, a), rest)
  {
    assert ([a] + rest)[0] == a && ([a] + rest)[1..] == rest;
  }

  /** A call addressed to another name leaves a label in front alone. */
  lemma PerformFrame(y: Label, rest: seq<Label>, a: LabelAction)
    requires !a.CreateLabel? && a.lbl.name != y.name
    ensures Perform([y] + rest, a) == [y] + Perform(rest, a)
  {
    assert ([y] + rest)[0] == y && ([y] + rest)[1..] == rest;
  }

  lemma {:induction false} PerformAllFrame(y: Label, rest: seq<Label>, actions: seq<LabelAction>)
    requires forall k :: 0 <= k < |actions| ==> !actions[k].CreateLabel? && actions[k].lbl.name != y.name
    ensures PerformAll([y] + rest, actions) == [y] + PerformAll(rest, actions)
    decreases |actions|
  {
    if |actions| > 0 {
      PerformFrame(y, rest, actions[0]);
      PerformAllFrame(y, Perform(rest, actions[0]), actions[1..]);
    }
  }

  lemma {:induction false} DeleteAbsent(labels: seq<Label>, name: string)
    requires forall i :: 0 <= i < |labels| ==> labels[i].name != name
    ensures DeleteLabel(labels, name) == labels
    decreases |labels|
  {
    if |labels| > 0 {
      DeleteAbsent(labels[1..], name);
      assert labels == [labels[0]] + labels[1..];
    }
  }

  lemma EditConcat(a: seq<Label>, b: seq<Label>, e: Edit)
    ensures ApplyEdit(a + b, e) == ApplyEdit(a, e) + ApplyEdit(b, e)
  {
    var lhs, rhs := ApplyEdit(a + b, e), ApplyEdit(a, e) + ApplyEdit(b, e);
    forall i | 0 <= i < |lhs| ensures lhs[i] == rhs[i] {
      if i >= |a| {
        assert (a + b)[i] == b[i - |a|];
      }
    }
  }

  lemma UniqueTail(labels: seq<Label>)
    requires |labels| > 0 && UniqueNames(labels)
    ensures UniqueNames(labels[1..])
    ensures forall j :: 0 <= j < |labels[1..]| ==> labels[1..][j].name != labels[0].name
  {
    forall i, j | 0 <= i < j < |labels[1..]| ensures labels[1..][i].name != labels[1..][j].name {
      assert labels[1..][i] == labels[i + 1] && labels[1..][j] == labels[j + 1];
    }
    forall j | 0 <= j < |labels[1..]| ensures labels[1..][j].name != labels[0].name {
      assert labels[1..][j] == labels[j + 1];
    }
  }

  // ---------------------------------------------------------------------------
  // Phase one

  /** Every phase-one action removes or renames one of the listed labels, and
      that label's name is not a defined one. */
  lemma {:induction false} Phase1Addresses(labels: seq<Label>, defs: seq<LabelDesc>)
    ensures forall k :: 0 <= k < |Phase1(labels, defs)| ==>
              !Phase1(labels, defs)[k].CreateLabel? && Phase1(labels, defs)[k].lbl in labels &&
              FindLabelDefinitionByName(Phase1(labels, defs)[k].lbl.name, defs).None?
    decreases |labels|
  {
    if |labels| > 0 {
      Phase1Addresses(labels[1..], defs);
      var acts := Phase1(labels, defs);
      var tail := Phase1(labels[1..], defs);
      assert forall x :: x in labels[1..] ==> x in labels;
      match Phase1Action(labels[0], defs)
      case None =>
      case Some(a) =>
        assert acts == [a] + tail;
        forall k | 0 <= k < |acts|
          ensures !acts[k].CreateLabel? && acts[k].lbl in labels &&
                  FindLabelDefinitionByName(acts[k].lbl.name, defs).None?
        {
          if k > 0 {
            assert acts[k] == tail[k - 1];
          }
        }
    }
  }

  /** With the labels GitHub lists (one per name), making phase one's calls
      leaves exactly the labels `AfterPhase1` describes: defined labels kept,
      labels known under an old name renamed, all others deleted. */
  lemma {:induction false} Phase1Performed(labels: seq<Label>, defs: seq<LabelDesc>)
    requires UniqueNames(labels)
    ensures PerformAll(labels, Phase1(labels, defs)) == AfterPhase1(labels, defs)
    decreases |labels|
  {
    if |labels| > 0 {
      UniqueTail(labels);
      Phase1Performed(labels[1..], defs);
      Phase1Step(labels, defs);
    }
  }

  /** The first label's call, followed by the calls for the others. */
  lemma Phase1Step(labels: seq<Label>, defs: seq<LabelDesc>)
    requires |labels| > 0 && UniqueNames(labels)
    requires PerformAll(labels[1..], Phase1(labels[1..], defs)) == AfterPhase1(labels[1..], defs)
    ensures PerformAll(labels, Phase1(labels, defs)) == AfterPhase1(labels, defs)
  {
    var x, rest := labels[0], labels[1..];
    assert labels == [x] + rest;
    UniqueTail(labels);
    var acts := Phase1(rest, defs);
    Phase1Addresses(rest, defs);
    match Phase1Action(x, defs)
    case None =>
      forall k | 0 <= k < |acts| ensures !acts[k].CreateLabel? && acts[k].lbl.name != x.name {
        var j :| 0 <= j < |rest| && rest[j] == acts[k].lbl;
      }
      PerformAllFrame(x, rest, acts);
    case Some(a) =>
      PerformFirst(labels, a, acts);
      if a.RemoveLabel? {
        DeleteAbsent(rest, x.name);
        assert DeleteLabel(labels, x.name) == DeleteLabel(rest, x.name);
      } else {
        RenameStep(labels, defs, a);
      }
  }

  /** A rename edits the first label only, and no later call touches the
      renamed label, whose name is a defined one. */
  lemma RenameStep(labels: seq<Label>, defs: seq<LabelDesc>, a: LabelAction)
    requires |labels| > 0 && UniqueNames(labels)
    requires Phase1Action(labels[0], defs) == Some(a) && a.RenameLabel?
    ensures PerformAll(Perform(labels, a), Phase1(labels[1..], defs)) ==
            [Label(a.def.name, a.def.color)] + PerformAll(labels[1..], Phase1(labels[1..], defs))
  {
    var x, rest := labels[0], labels[1..];
    UniqueTail(labels);
    var renamed := Label(a.def.name, a.def.color);
    assert a.def == defs[OldNameIndex(x.name, defs)];
    assert FindLabelDefinitionByName(renamed.name, defs).Some?;
    assert labels == [x] + rest;
    assert Perform(labels, a) == [renamed] + rest;
    var acts := Phase1(rest, defs);
    Phase1Addresses(rest, defs);
    PerformAllFrame(renamed, rest, acts);
  }

  // ---------------------------------------------------------------------------
  // Phase two

  lemma DistinctTail(defs: seq<LabelDesc>)
    requires |defs| > 0 && DistinctNames(defs)
    ensures DistinctNames(defs[1..])
    ensures forall k :: 0 <= k < |defs[1..]| ==> defs[1..][k].name != defs[0].name
  {
    forall i, j | 0 <= i < j < |defs[1..]| ensures defs[1..][i].name != defs[1..][j].name {
      assert defs[1..][i] == defs[i + 1] && defs[1..][j] == defs[j + 1];
    }
    forall k | 0 <= k < |defs[1..]| ensures defs[1..][k].name != defs[0].name {
      assert defs[1..][k] == defs[k + 1];
    }
  }

  /** Looking up another name skips the first definition. */
  lemma FindDefinitionTail(name: string, defs: seq<LabelDesc>)
    requires |defs| > 0 && defs[0].name != name
    ensures FindLabelDefinitionByName(name, defs) == FindLabelDefinitionByName(name, defs[1..])
  {
    assert DefinitionIndex(name, defs) == DefinitionIndex(name, defs[1..]) + 1;
  }

  /** Recolouring by a table equals recolouring the first definition's label
      by hand and the rest by the remaining table. */
  lemma RecolorStep(r: seq<Label>, defs: seq<LabelDesc>)
    requires |defs| > 0 && DistinctNames(defs)
    ensures Recolor(r, defs) ==
            Recolor(ApplyEdit(r, Edit(defs[0].name, Label(defs[0].name, defs[0].color))), defs[1..])
  {
    var d := defs[0];
    var edited := ApplyEdit(r, Edit(d.name, Label(d.name, d.color)));
    DistinctTail(defs);
    var lhs, rhs := Recolor(r, defs), Recolor(edited, defs[1..]);
    forall i | 0 <= i < |r| ensures lhs[i] == rhs[i] {
      if r[i].name == d.name {
        assert FindLabelDefinitionByName(d.name, defs) == Some(d);
        assert FindLabelDefinitionByName(d.name, defs[1..]).None?;
      } else {
        FindDefinitionTail(r[i].name, defs);
      }
    }
  }

  /** The edit `setColor` makes for the first definition, as a by-name edit. */
  function FirstEdit(defs: seq<LabelDesc>): Edit
    requires |defs| > 0
  {
    Edit(defs[0].name, Label(defs[0].name, defs[0].color))
  }

  /** The labels created so far, after the first definition has been visited. */
  function CreatedAfterFirst(defs: seq<LabelDesc>, listed: seq<Label>, c: seq<Label>): seq<Label>
    requires |defs| > 0
  {
    if defs[0].required && FindLabelByName(defs[0].name, listed).None? then c + [Label(defs[0].name, defs[0].color)] else c
  }

  /** The middle of phase two: `r` are the listed labels, with the colours of
      the definitions already visited corrected, and `c` the labels created so
      far, none under a name still to visit. */
  predicate MidPhase2(listed: seq<Label>, defs: seq<LabelDesc>, r: seq<Label>, c: seq<Label>) {
    && |r| == |listed|
    && (forall i :: 0 <= i < |listed| ==> r[i].name == listed[i].name)
    && (forall i :: 0 <= i < |listed| && FindLabelDefinitionByName(listed[i].name, defs).Some? ==> r[i] == listed[i])
    && (forall j, k :: 0 <= j < |c| && 0 <= k < |defs| ==> c[j].name != defs[k].name)
  }

  /** The first definition's call, if any, turns `r + c` into the edited
      labels followed by the created ones. */
  lemma FirstCall(listed: seq<Label>, defs: seq<LabelDesc>, r: seq<Label>, c: seq<Label>)
    requires |defs| > 0 && UniqueNames(listed) && DistinctNames(defs) && MidPhase2(listed, defs, r, c)
    ensures PerformAll(r + c, Phase2(defs, listed)) ==
            PerformAll(ApplyEdit(r, FirstEdit(defs)) + CreatedAfterFirst(defs, listed, c), Phase2(defs[1..], listed))
  {
    var d, e := defs[0], FirstEdit(defs);
    var edited := ApplyEdit(r, e);
    var rest := Phase2(defs[1..], listed);
    assert FindLabelDefinitionByName(d.name, defs) == Some(d);
    var j := LabelIndex(d.name, listed);
    forall i | 0 <= i < |listed| && r[i].name == d.name ensures i == j && r[i] == listed[i] {
    }
    EditConcat(r, c, e);
    assert ApplyEdit(c, e) == c;
    match Phase2Action(d, listed)
    case None =>
      assert edited == r;
    case Some(a) =>
      PerformFirst(r + c, a, rest);
      if a.CreateLabel? {
        assert edited == r;
        assert r + c + [Label(d.name, d.color)] == r + (c + [Label(d.name, d.color)]);
      } else {
        assert Perform(r + c, a) == ApplyEdit(r + c, e);
      }
  }

  /** After the first definition, the state is again a middle of phase two,
      for the remaining definitions. */
  lemma FirstCallKeepsMid(listed: seq<Label>, defs: seq<LabelDesc>, r: seq<Label>, c: seq<Label>)
    requires |defs| > 0 && DistinctNames(defs) && MidPhase2(listed, defs, r, c)
    ensures MidPhase2(listed, defs[1..], ApplyEdit(r, FirstEdit(defs)), CreatedAfterFirst(defs, listed, c))
  {
    var d := defs[0];
    var edited := ApplyEdit(r, FirstEdit(defs));
    DistinctTail(defs);
    forall i | 0 <= i < |listed| && FindLabelDefinitionByName(listed[i].name, defs[1..]).Some?
      ensures edited[i] == listed[i]
    {
      if listed[i].name != d.name {
        FindDefinitionTail(listed[i].name, defs);
      }
    }
    var c2 := CreatedAfterFirst(defs, listed, c);
    forall jj, k | 0 <= jj < |c2| && 0 <= k < |defs[1..]| ensures c2[jj].name != defs[1..][k].name {
      assert defs[1..][k] == defs[k + 1];
    }
  }

  /** From the middle of phase two, making the remaining calls for `defs`
      ends in the recoloured labels followed by every created label. */
  lemma {:induction false} Phase2PerformedFrom(listed: seq<Label>, defs: seq<LabelDesc>, r: seq<Label>, c: seq<Label>)
    requires UniqueNames(listed) && DistinctNames(defs) && MidPhase2(listed, defs, r, c)
    ensures PerformAll(r + c, Phase2(defs, listed)) == Recolor(r, defs) + c + Created(defs, listed)
    decreases |defs|
  {
    if |defs| == 0 {
      assert Recolor(r, defs) == r;
    } else {
      var edited, c2 := ApplyEdit(r, FirstEdit(defs)), CreatedAfterFirst(defs, listed, c);
      FirstCall(listed, defs, r, c);
      FirstCallKeepsMid(listed, defs, r, c);
      DistinctTail(defs);
      Phase2PerformedFrom(listed, defs[1..], edited, c2);
      RecolorStep(r, defs);
      CreatedStep(listed, defs, Recolor(r, defs), c);
    }
  }

  /** The labels created for the first definition come right after those
      created before it. */
  lemma CreatedStep(listed: seq<Label>, defs: seq<LabelDesc>, x: seq<Label>, c: seq<Label>)
    requires |defs| > 0
    ensures x + CreatedAfterFirst(defs, listed, c) + Created(defs[1..], listed) == x + c + Created(defs, listed)
  {
    var tail := Created(defs[1..], listed);
    var lbl := Label(defs[0].name, defs[0].color);
    if defs[0].required && FindLabelByName(defs[0].name, listed).None? {
      assert Created(defs, listed) == [lbl] + tail;
      assert x + (c + [lbl]) + tail == x + c + ([lbl] + tail);
    }
  }

  /** With the labels GitHub lists (one per name) and a table of distinct
      names, making phase two's calls leaves exactly the labels `AfterPhase2`
      describes: every defined label in its definition's colour, followed by
      the missing required labels, created in table order. */
  lemma Phase2Performed(labels: seq<Label>, defs: seq<LabelDesc>)
    requires UniqueNames(labels) && DistinctNames(defs)
    ensures PerformAll(labels, Phase2(defs, labels)) == AfterPhase2(labels, defs)
  {
    MidStart(labels, defs);
    Phase2PerformedFrom(labels, defs, labels, []);
    var recolored, created := Recolor(labels, defs), Created(defs, labels);
    assert labels + [] == labels && recolored + [] == recolored;
  }

  /** Before phase two, nothing is recoloured and nothing created. */
  lemma MidStart(labels: seq<Label>, defs: seq<LabelDesc>)
    ensures MidPhase2(labels, defs, labels, [])
  {
  }

  // ---------------------------------------------------------------------------
  // A whole run

  /** The labels a run with `--fix` leaves are what GitHub holds after phase
      one's calls on the listed labels and phase two's calls on the labels
      listed again, provided the renames did not make two labels share a
      name. */
  lemma FixRunPerformed(labels: seq<Label>, defs: seq<LabelDesc>)
    requires UniqueNames(labels) && UniqueNames(AfterPhase1(labels, defs)) && DistinctNames(defs)
    ensures var run := UnifyLabels.UnifyLabels(labels, defs, true);
      var relisted := PerformAll(labels, run.phase1);
      run.after == PerformAll(relisted, run.phase2)
  {
    Phase1Performed(labels, defs);
    Phase2Performed(AfterPhase1(labels, defs), defs);
  }
}
