/** The matrix placeholder of a job name and its replacement.

    The parser compiles, for every matrix key, the regular expression
    `\$\{\{\s*matrix.\Q<key>\E\s*\}\}` and calls `ReplaceAllString` with it.
    The dot after `matrix` is not escaped, so it matches any single character
    except a newline. At a fixed start position this expression has at most one
    match (each whitespace run is followed by a non-space character, so it is
    consumed whole), which makes "replace every leftmost non-overlapping match"
    the same as a left-to-right scan that replaces a match where one starts and
    copies the character otherwise. */
module Placeholder {
  import opened Wrappers

  /** RE2's `\s`: tab, newline, form feed, carriage return and space. */
  predicate IsSpace(c: char) {
    c == '\t' || c == '\n' || c == '\U{C}' || c == '\r' || c == ' '
  }

  predicate AllSpace(s: string) {
    forall i :: 0 <= i < |s| ==> IsSpace(s[i])
  }

  predicate IsPrefix(p: string, s: string) {
    |p| <= |s| && s[..|p|] == p
  }

  /** Length of the whitespace run at the start of `s`. */
  function SpaceLen(s: string): (n: nat)
    ensures n <= |s|
  {
    if |s| > 0 && IsSpace(s[0]) then 1 + SpaceLen(s[1..]) else 0
  }

  /** The run `SpaceLen` measures is whitespace and cannot be extended. */
  lemma {:induction false} SpaceLenMaximal(s: string)
    ensures AllSpace(s[..SpaceLen(s)])
    ensures SpaceLen(s) < |s| ==> !IsSpace(s[SpaceLen(s)])
  {
    if |s| > 0 && IsSpace(s[0]) {
      SpaceLenMaximal(s[1..]);
      assert s[..SpaceLen(s)] == [s[0]] + s[1..][..SpaceLen(s[1..])];
    }
  }

  const Opening: string := "${{"
  const Matrix: string := "matrix"
  const Closing: string := "}}"

  function Shift(k: nat, r: Option<nat>): Option<nat> {
    if r.Some? then Some(r.value + k) else None
  }

  /** Length of the placeholder for `key` that starts at the first character
      of `s`, if one does: `${{`, then the rest as matched by `MatchMatrix`. */
  function MatchLen(s: string, key: string): (r: Option<nat>)
    ensures r.Some? ==> 12 + |key| <= r.value <= |s| && s[0] == '$'
  {
    if IsPrefix(Opening, s) then Shift(3, MatchMatrix(s[3..], key)) else None
  }

  /** Whitespace, `matrix`, any character but a newline, then `MatchKey`. */
  function MatchMatrix(s: string, key: string): (r: Option<nat>)
    ensures r.Some? ==> 9 + |key| <= r.value <= |s|
  {
    var a := SpaceLen(s);
    if IsPrefix(Matrix, s[a..]) && |s| > a + 6 && s[a + 6] != '\n' then
      Shift(a + 7, MatchKey(s[a + 7..], key))
    else None
  }

  /** The key itself, whitespace, then `}}`. */
  function MatchKey(s: string, key: string): (r: Option<nat>)
    ensures r.Some? ==> 2 + |key| <= r.value <= |s|
  {
    if IsPrefix(key, s) then
      var c := |key| + SpaceLen(s[|key|..]);
      if IsPrefix(Closing, s[c..]) then Some(c + 2) else None
    else None
  }

  /** `pattern.ReplaceAllString(s, value)` for the placeholder pattern of `key`,
      with `value` inserted literally. */
  function ReplaceAll(s: string, key: string, value: string): string
    decreases |s|
  {
    if |s| == 0 then ""
    else match MatchLen(s, key)
      case Some(n) => value + ReplaceAll(s[n..], key, value)
      case None => [s[0]] + ReplaceAll(s[1..], key, value)
  }

  /** `s` contains a placeholder for `key` somewhere. */
  predicate HasPlaceholder(s: string, key: string) {
    exists i :: 0 <= i < |s| && MatchLen(s[i..], key).Some?
  }

  /** Text without a placeholder for `key` is returned unchanged. */
  lemma {:induction false} ReplaceAllWithoutPlaceholder(s: string, key: string, value: string)
    requires !HasPlaceholder(s, key)
    ensures ReplaceAll(s, key, value) == s
    decreases |s|
  {
    if |s| > 0 {
      assert MatchLen(s[0..], key).None?;
      assert s[0..] == s;
      assert !HasPlaceholder(s[1..], key) by {
        forall i | 0 <= i < |s[1..]|
          ensures MatchLen(s[1..][i..], key).None?
        {
          assert s[1..][i..] == s[i + 1..];
          assert MatchLen(s[(i + 1)..], key).None?;
        }
      }
      ReplaceAllWithoutPlaceholder(s[1..], key, value);
      assert s == [s[0]] + s[1..];
    }
  }

  // ---------------------------------------------------------------------------
  // Job names as templates: literal text interleaved with placeholders.

  /** A key that can be written in a placeholder and still be found: it holds no
      whitespace, no closing brace and no dollar sign. */
  predicate ValidKey(k: string) {
    forall i :: 0 <= i < |k| ==> !IsSpace(k[i]) && k[i] != '}' && k[i] != '$'
  }

  /** A piece of a job name: literal text, or a placeholder written with the
      whitespace `lead` and `trail` and the character `dot` between `matrix`
      and the key. */
  datatype Piece =
    | Text(text: string)
    | Slot(lead: string, dot: char, key: string, trail: string)
  {
    predicate WellFormed() {
      match this
      case Text(t) => '$' !in t
      case Slot(lead, dot, key, trail) =>
        AllSpace(lead) && AllSpace(trail) && dot != '\n' && dot != '$' && ValidKey(key)
    }

    function Render(): string {
      match this
      case Text(t) => t
      case Slot(lead, dot, key, trail) => Opening + lead + Matrix + [dot] + key + trail + Closing
    }
  }

  predicate WellFormed(ps: seq<Piece>) {
    forall i :: 0 <= i < |ps| ==> ps[i].WellFormed()
  }

  function Render(ps: seq<Piece>): string {
    if |ps| == 0 then "" else ps[0].Render() + Render(ps[1..])
  }

  /** The pieces with every placeholder for `key` turned into the text `value`. */
  function Fill(ps: seq<Piece>, key: string, value: string): (r: seq<Piece>)
    ensures |r| == |ps|
    ensures forall i :: 0 <= i < |ps| ==>
              r[i] == (if ps[i].Slot? && ps[i].key == key then Text(value) else ps[i])
  {
    if |ps| == 0 then []
    else
      var p := if ps[0].Slot? && ps[0].key == key then Text(value) else ps[0];
      [p] + Fill(ps[1..], key, value)
  }

  /** One step of the scan where no placeholder starts. */
  lemma CopyStep(s: string, key: string, value: string)
    requires |s| > 0 && MatchLen(s, key).None?
    ensures ReplaceAll(s, key, value) == [s[0]] + ReplaceAll(s[1..], key, value)
  {
  }

  lemma SpaceIsNotDollar(ws: string)
    requires AllSpace(ws)
    ensures '$' !in ws
  {
  }

  /** Text without a dollar sign is copied through by the scan. */
  lemma {:induction false} CopyText(t: string, rest: string, key: string, value: string)
    requires '$' !in t
    ensures ReplaceAll(t + rest, key, value) == t + ReplaceAll(rest, key, value)
    decreases |t|
  {
    if |t| == 0 {
      assert t + rest == rest;
    } else {
      var s := t + rest;
      SplitHead(t, rest, ReplaceAll(rest, key, value));
      CopyStep(s, key, value);
      CopyText(t[1..], rest, key, value);
    }
  }

  lemma SpaceLenOf(ws: string, x: string)
    requires AllSpace(ws)
    requires |x| > 0 && !IsSpace(x[0])
    ensures SpaceLen(ws + x) == |ws|
    decreases |ws|
  {
    if |ws| > 0 {
      assert (ws + x)[1..] == ws[1..] + x;
      SpaceLenOf(ws[1..], x);
    } else {
      assert ws + x == x;
    }
  }

  /** A valid key longer than a placeholder's key runs into the whitespace or
      the closing braces after it, so it is not found there. */
  lemma KeyNotPastSlot(k: string, trail: string, rest: string, key: string)
    requires ValidKey(key) && AllSpace(trail) && |key| > |k|
    ensures !IsPrefix(key, k + trail + Closing + rest)
  {
    var s := k + trail + Closing + rest;
    assert s[|k|] == (trail + Closing + rest)[0];
    if |trail| > 0 {
      assert IsSpace(s[|k|]);
    } else {
      assert s[|k|] == '}';
    }
    assert key[|k|] != s[|k|];
    if |key| <= |s| {
      assert s[..|key|][|k|] == s[|k|];
    }
  }

  lemma MatchKeyOfSlot(k: string, trail: string, rest: string, key: string)
    requires ValidKey(k) && ValidKey(key) && AllSpace(trail)
    ensures MatchKey(k + trail + Closing + rest, key) ==
            (if k == key then Some(|k| + |trail| + 2) else None)
  {
    var s := k + trail + Closing + rest;
    if k == key {
      assert IsPrefix(key, s);
      assert s[|key|..] == trail + (Closing + rest);
      SpaceLenOf(trail, Closing + rest);
      assert s[|key| + |trail|..] == Closing + rest;
    } else if |key| > |k| {
      KeyNotPastSlot(k, trail, rest, key);
    } else if IsPrefix(key, s) {
      assert k[..|key|] == key;
      assert s[|key|..] == k[|key|..] + trail + Closing + rest;
      assert SpaceLen(s[|key|..]) == 0;
      assert s[|key|] == k[|key|];
    }
  }

  lemma MatchMatrixOfSlot(lead: string, dot: char, tail: string, key: string)
    requires AllSpace(lead) && dot != '\n'
    ensures MatchMatrix(lead + Matrix + [dot] + tail, key) == Shift(|lead| + 7, MatchKey(tail, key))
  {
    var s := lead + Matrix + [dot] + tail;
    assert s == lead + (Matrix + ([dot] + tail));
    SpaceLenOf(lead, Matrix + ([dot] + tail));
    assert s[|lead|..] == Matrix + ([dot] + tail);
    assert s[|lead| + 6] == dot;
    assert s[|lead| + 7..] == tail;
  }

  /** A well-formed placeholder is a match for `key` exactly when it names `key`,
      and then the match covers the whole placeholder. */
  lemma SlotMatch(p: Piece, rest: string, s: string, key: string)
    requires p.Slot? && p.WellFormed() && ValidKey(key)
    requires s == p.Render() + rest
    ensures MatchLen(s, key) == (if p.key == key then Some(|p.Render()|) else None)
  {
    var inner := p.lead + Matrix + [p.dot] + (p.key + p.trail + Closing + rest);
    SlotRegroup(p.lead, p.dot, p.key, p.trail, rest, s);
    SlotPartsMatch(s, inner, p.lead, p.dot, p.key, p.trail, rest, key);
  }

  /** A rendered placeholder followed by more text: `${{`, then the rest
      regrouped around `matrix`. */
  lemma SlotRegroup(lead: string, dot: char, k: string, trail: string, rest: string, s: string)
    requires s == Opening + lead + Matrix + [dot] + k + trail + Closing + rest
    ensures IsPrefix(Opening, s)
    ensures s[3..] == lead + Matrix + [dot] + (k + trail + Closing + rest)
  {
    var x := Opening + lead + Matrix + [dot];
    Assoc(x, k, trail);
    Assoc(x, k + trail, Closing);
    Assoc(x, k + trail + Closing, rest);
    Assoc(Opening, lead, Matrix);
    Assoc(Opening, lead + Matrix, [dot]);
    Assoc(Opening, lead + Matrix + [dot], k + trail + Closing + rest);
    assert s == Opening + (lead + Matrix + [dot] + (k + trail + Closing + rest));
  }

  lemma SlotPartsMatch(s: string, inner: string, lead: string, dot: char, k: string, trail: string, rest: string, key: string)
    requires AllSpace(lead) && AllSpace(trail) && dot != '\n' && ValidKey(k) && ValidKey(key)
    requires IsPrefix(Opening, s) && s[3..] == inner
    requires inner == lead + Matrix + [dot] + (k + trail + Closing + rest)
    ensures MatchLen(s, key) == (if k == key then Some(3 + |lead| + 7 + |k| + |trail| + 2) else None)
  {
    var tail := k + trail + Closing + rest;
    MatchMatrixOfSlot(lead, dot, tail, key);
    MatchKeyOfSlot(k, trail, rest, key);
  }

  lemma Assoc(a: string, b: string, c: string)
    ensures a + b + c == a + (b + c)
  {
  }

  /** Text where no placeholder starts at the first character and no dollar
      sign follows it is copied through by the scan. */
  lemma CopyUnmatched(t: string, rest: string, key: string, value: string)
    requires |t| > 0 && MatchLen(t + rest, key).None? && '$' !in t[1..]
    ensures ReplaceAll(t + rest, key, value) == t + ReplaceAll(rest, key, value)
  {
    var s := t + rest;
    SplitHead(t, rest, ReplaceAll(rest, key, value));
    CopyStep(s, key, value);
    CopyText(t[1..], rest, key, value);
  }

  lemma SplitHead(t: string, rest: string, u: string)
    requires |t| > 0
    ensures (t + rest)[0] == t[0] && (t + rest)[1..] == t[1..] + rest
    ensures [t[0]] + (t[1..] + u) == t + u
  {
    assert t == [t[0]] + t[1..];
  }

  /** A placeholder for another key is copied through. */
  lemma SkipSlot(p: Piece, rest: string, key: string, value: string)
    requires p.Slot? && p.WellFormed() && ValidKey(key) && p.key != key
    ensures ReplaceAll(p.Render() + rest, key, value) == p.Render() + ReplaceAll(rest, key, value)
  {
    var t := p.Render();
    assert t[1..] == "{{" + p.lead + Matrix + [p.dot] + p.key + p.trail + Closing;
    SpaceIsNotDollar(p.lead);
    SpaceIsNotDollar(p.trail);
    assert '$' !in p.key;
    SlotMatch(p, rest, p.Render() + rest, key);
    CopyUnmatched(t, rest, key, value);
  }

  /** A placeholder for the key becomes the value. */
  lemma ConsumeSlot(p: Piece, rest: string, key: string, value: string)
    requires p.Slot? && p.WellFormed() && ValidKey(key) && p.key == key
    ensures ReplaceAll(p.Render() + rest, key, value) == value + ReplaceAll(rest, key, value)
  {
    SlotMatch(p, rest, p.Render() + rest, key);
    assert (p.Render() + rest)[|p.Render()|..] == rest;
  }

  /** Replacing the placeholders of `key` in a rendered template renders the
      template in which exactly those placeholders became the value: every
      placeholder of `key` is replaced, and all other text is left as it was. */
  lemma {:induction false} ReplaceAllRender(ps: seq<Piece>, key: string, value: string)
    requires WellFormed(ps) && ValidKey(key)
    ensures ReplaceAll(Render(ps), key, value) == Render(Fill(ps, key, value))
    decreases |ps|
  {
    if |ps| > 0 {
      var p := ps[0];
      var rest := Render(ps[1..]);
      var filled := Fill(ps, key, value);
      assert Render(ps) == p.Render() + rest;
      assert WellFormed(ps[1..]) by {
        forall i | 0 <= i < |ps[1..]| ensures ps[1..][i].WellFormed() {
          assert ps[1..][i] == ps[i + 1];
        }
      }
      ReplaceAllRender(ps[1..], key, value);
      assert filled[1..] == Fill(ps[1..], key, value);
      assert Render(filled) == filled[0].Render() + Render(filled[1..]);
      if p.Text? {
        CopyText(p.text, rest, key, value);
      } else if p.key == key {
        ConsumeSlot(p, rest, key, value);
      } else {
        SkipSlot(p, rest, key, value);
      }
    }
  }

  /** The dot after `matrix` is not escaped: `${{ matrix-os }}` is a placeholder
      for the key `os`. */
  lemma AnyCharacterAfterMatrix()
    ensures ReplaceAll("${{ matrix-os }}", "os", "linux") == "linux"
  {
    var p := Slot(" ", '-', "os", " ");
    assert p.WellFormed();
    assert Render([p]) == "${{ matrix-os }}";
    ReplaceAllRender([p], "os", "linux");
    assert Fill([p], "os", "linux") == [Text("linux")];
  }
}
