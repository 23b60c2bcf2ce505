/** The parser on the workflows of its own test suite, worked through in the
    model: a templated name over a two-by-two string matrix, and an unnamed
    job over one integer dimension. */
module ParserExamples {
  import opened Wrappers
  import opened MatrixValues
  import opened Placeholder
  import opened WorkflowParser

  /** A name without `$` never selects template mode. */
  lemma {:induction false} NoDollarNoTemplate(name: string)
    requires '$' !in name
    ensures !IsTemplate(name)
    decreases |name|
  {
    if |name| > 0 {
      assert name[0] != '$';
      NoDollarNoTemplate(name[1..]);
    }
  }

  /** An unnamed job over `a: [1, 2]` is checked as `build (1)` and
      `build (2)`. */
  lemma ImplicitExample()
    ensures JobNames(Job("build", None, Some(Strategy([Dimension("a", [Scalar(Int(1)), Scalar(Int(2))])])))) ==
            Ok(["build (1)", "build (2)"])
  {
    NoDollarNoTemplate("build");
    var values := [Scalar(Int(1)), Scalar(Int(2))];
    assert NatDecimal(1) == "1" && NatDecimal(2) == "2";
    assert Suffixed("build", Int(1)) == "build (1)";
    assert Suffixed("build", Int(2)) == "build (2)";
    var r := AddParameters("build", values);
    assert r.Ok? by {
      assert !values[0].Object? && !values[1].Object?;
    }
    assert r.value == ["build (1)", "build (2)"];
  }

  const TwoKeys: seq<Piece> :=
    [Text("Build with A "), Slot(" ", '.', "a", " "), Text(" and B "), Slot(" ", '.', "b", " ")]

  /** `Build with A ${{ matrix.a }} and B ${{ matrix.b }}`, written as the
      concatenation its pieces render to. */
  const TwoKeyName: string := "Build with A " + (SlotA + (" and B " + SlotB))
  const SlotA: string := "${{" + " " + "matrix" + "." + "a" + " " + "}}"
  const SlotB: string := "${{" + " " + "matrix" + "." + "b" + " " + "}}"

  lemma TwoKeysRender()
    ensures WellFormed(TwoKeys) && Render(TwoKeys) == TwoKeyName
  {
    var ps := TwoKeys;
    TwoKeysWellFormed();
    assert ps[1].Render() == SlotA && ps[3].Render() == SlotB;
    assert ps[4..] == [];
    assert Render(ps[3..]) == SlotB + "" == SlotB;
    assert Render(ps[2..]) == " and B " + SlotB;
    assert Render(ps[1..]) == SlotA + (" and B " + SlotB);
  }

  lemma TwoKeysWellFormed()
    ensures WellFormed(TwoKeys)
  {
    assert IsSpace(' ');
    assert AllSpace(" ");
    assert ValidKey("a") && ValidKey("b");
    assert TwoKeys[1].WellFormed() && TwoKeys[3].WellFormed();
  }

  function TwoKeyResult(x: string, y: string): string {
    "Build with A " + x + " and B " + y
  }

  /** Substituting `a` then `b` in the two-key name. */
  lemma TwoKeyInstance(x: string, y: string)
    requires '$' !in x && '$' !in y
    ensures ApplyChoice(TwoKeyName, [Dimension("a", []), Dimension("b", [])], [Scalar(Str(x)), Scalar(Str(y))]) ==
            TwoKeyResult(x, y)
  {
    TwoKeysRender();
    assert ValidKey("a") && ValidKey("b");
    SubstituteString(TwoKeys, "a", x);
    var once := Fill(TwoKeys, "a", x);
    FillKeepsWellFormed(TwoKeys, "a", x);
    SubstituteString(once, "b", y);
    var twice := Fill(once, "b", y);
    assert twice == [Text("Build with A "), Text(x), Text(" and B "), Text(y)];
    assert twice[4..] == [];
    assert Render(twice[3..]) == y;
    assert Render(twice[2..]) == " and B " + y;
    assert Render(twice[1..]) == x + " and B " + y;
  }

  const One: MatrixValue := Scalar(Str("1"))
  const Two: MatrixValue := Scalar(Str("2"))
  const Three: MatrixValue := Scalar(Str("3"))
  const Four: MatrixValue := Scalar(Str("4"))

  /** The matrix `a: ["1", "2"]`, `b: ["3", "4"]`. */
  const TwoByTwo: seq<Dimension> := [Dimension("a", [One, Two]), Dimension("b", [Three, Four])]

  lemma TwoKeyNameIsTemplate()
    ensures IsTemplate(TwoKeyName)
  {
    var tail := "${{ matrix.a }}" + " and B " + "${{ matrix.b }}";
    assert TwoKeyName == "Build with A " + tail;
    assert TwoKeyName[13..] == tail;
    assert tail[..3] == Opening;
    TemplateFrom(TwoKeyName, 13);
  }

  /** The combinations of the two-by-two matrix, the first key outermost. */
  lemma TwoByTwoChoices()
    ensures !Stuck(TwoByTwo)
    ensures Choices(TwoByTwo) == [[One, Three], [One, Four], [Two, Three], [Two, Four]]
  {
    var dims := TwoByTwo;
    assert !Stuck(dims[1..]) by { assert dims[1..][1..] == []; }
    assert dims[1..][1..] == [];
    assert Choices(dims[1..][1..]) == [[]];
    var tails := [[Three], [Four]];
    var vb := [Three, Four];
    PrependAt(vb, [[]], 0, 0);
    PrependAt(vb, [[]], 1, 0);
    var pb := Prepend(vb, [[]]);
    assert pb[0] == [Three] + [] == [Three];
    assert pb[1] == [Four] + [] == [Four];
    assert pb == tails;
    var va := [One, Two];
    PrependAt(va, tails, 0, 0);
    PrependAt(va, tails, 0, 1);
    PrependAt(va, tails, 1, 0);
    PrependAt(va, tails, 1, 1);
    var pa := Prepend(va, tails);
    assert pa[0] == [One] + [Three] == [One, Three];
    assert pa[1] == [One] + [Four] == [One, Four];
    assert pa[2] == [Two] + [Three] == [Two, Three];
    assert pa[3] == [Two] + [Four] == [Two, Four];
    assert pa == [[One, Three], [One, Four], [Two, Three], [Two, Four]];
  }

  /** The two-by-two matrix with the name
      `Build with A ${{ matrix.a }} and B ${{ matrix.b }}` gives the four
      combinations, the first key outermost. */
  lemma TemplateExample()
    ensures JobNames(Job("build", Some(TwoKeyName), Some(Strategy(TwoByTwo)))) ==
            Ok([TwoKeyResult("1", "3"), TwoKeyResult("1", "4"), TwoKeyResult("2", "3"), TwoKeyResult("2", "4")])
  {
    var job := Job("build", Some(TwoKeyName), Some(Strategy(TwoByTwo)));
    TwoKeyNameIsTemplate();
    TwoByTwoChoices();
    assert BaseName(job) == TwoKeyName;
    TemplateJobNames(job);
    TwoByTwoInstances();
  }

  lemma TwoByTwoInstances()
    ensures Instances(TwoKeyName, TwoByTwo, [[One, Three], [One, Four], [Two, Three], [Two, Four]]) ==
            [TwoKeyResult("1", "3"), TwoKeyResult("1", "4"), TwoKeyResult("2", "3"), TwoKeyResult("2", "4")]
  {
    TwoByTwoInstance("1", "3");
    TwoByTwoInstance("1", "4");
    TwoByTwoInstance("2", "3");
    TwoByTwoInstance("2", "4");
  }

  /** One combination of the two-by-two matrix, substituted into the name. */
  lemma TwoByTwoInstance(x: string, y: string)
    requires '$' !in x && '$' !in y
    ensures ApplyChoice(TwoKeyName, TwoByTwo, [Scalar(Str(x)), Scalar(Str(y))]) == TwoKeyResult(x, y)
  {
    var c := [Scalar(Str(x)), Scalar(Str(y))];
    ApplyChoiceKeyOnly(TwoKeyName, TwoByTwo, [Dimension("a", []), Dimension("b", [])], c);
    TwoKeyInstance(x, y);
  }
}
