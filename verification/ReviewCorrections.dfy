/**
 The per-requirement review: what the user chose for each row, and the list of corrections that stands
 for it. Only changed rows are listed; overlaying the list on the defaults gives every choice back.
 */
module ReviewCorrections {
  import opened Common

  datatype Decision = Accepted | Partial | Gap | NotApplicable

  /** One requirement of the comparison: its proposed evidence and whether partly met is suggested. */
  datatype Row = Row(key: string, must: bool, proposed: seq<nat>, suggestsPartial: bool)

  /** The three controls of a row; the gap text is shown, and read, only for some decisions. */
  datatype Controls = Controls(decision: Decision, chosen: seq<nat>, gapText: string)

  /** What the controls mean. */
  datatype Choice = Choice(decision: Decision, evidence: seq<nat>, gapSentence: string)

  datatype Correction = Correction(key: string, choice: Choice)

  function DefaultDecision(row: Row): Decision {
    if |row.proposed| == 0 then Gap else if row.suggestsPartial then Partial else Accepted
  }

  function DefaultControls(row: Row): Controls { Controls(DefaultDecision(row), row.proposed, "") }

  function DefaultChoice(row: Row): Choice { Choice(DefaultDecision(row), row.proposed, "") }

  function ChoiceOf(c: Controls): Choice {
    Choice(c.decision,
           if c.decision == Gap || c.decision == NotApplicable then [] else c.chosen,
           if c.decision == Gap || c.decision == Partial then c.gapText else "")
  }

  /** Why a choice cannot be approved as it stands. */
  predicate IsProblem(c: Controls) {
    || (c.decision == Accepted && |ChoiceOf(c).evidence| == 0)
    || 0 < |ChoiceOf(c).gapSentence| < 10
  }

  /** Every row has its controls on the screen. */
  ghost predicate Covered(rows: seq<Row>, controls: map<string, Controls>) {
    forall r :: r in rows ==> r.key in controls
  }

  function CorrectionsOf(rows: seq<Row>, controls: map<string, Controls>): seq<Correction>
    requires Covered(rows, controls)
  {
    if |rows| == 0 then [] else
    var row := rows[|rows| - 1];
    CorrectionsOf(rows[..|rows| - 1], controls) +
      (if ChoiceOf(controls[row.key]) == DefaultChoice(row) then []
        else [Correction(row.key, ChoiceOf(controls[row.key]))])
  }

  function Part(rows: seq<Row>, must: bool): (part: seq<Row>)
    ensures forall r :: r in part ==> r in rows && r.must == must
  {
    if |rows| == 0 then []
    else Part(rows[..|rows| - 1], must) + (if rows[|rows| - 1].must == must then [rows[|rows| - 1]] else [])
  }

  lemma {:induction false} PartMembers(rows: seq<Row>, must: bool)
    ensures forall r :: r in rows && r.must == must ==> r in Part(rows, must)
  {
    if |rows| != 0 {
      PartMembers(rows[..|rows| - 1], must);
      assert rows == rows[..|rows| - 1] + [rows[|rows| - 1]];
    }
  }

  /** Requirement keys are unique; the screen's widget keys rely on it. */
  ghost predicate Keyed(rows: seq<Row>) { forall i, j :: 0 <= i < j < |rows| ==> rows[i].key != rows[j].key }

  ghost predicate HasProblem(rows: seq<Row>, controls: map<string, Controls>)
    requires Covered(rows, controls)
  {
    exists r :: r in rows && IsProblem(controls[r.key])
  }

  lemma ProblemStep(rows: seq<Row>, controls: map<string, Controls>, i: nat)
    requires Covered(rows, controls) && i < |rows|
    ensures Covered(rows[..i], controls) && Covered(rows[..i + 1], controls)
    ensures HasProblem(rows[..i + 1], controls) <==> HasProblem(rows[..i], controls) || IsProblem(controls[rows[i].key])
    ensures CorrectionsOf(rows[..i + 1], controls) == CorrectionsOf(rows[..i], controls) +
      (if ChoiceOf(controls[rows[i].key]) == DefaultChoice(rows[i]) then []
        else [Correction(rows[i].key, ChoiceOf(controls[rows[i].key]))])
  {
    hide IsProblem, ChoiceOf, DefaultChoice;
    assert rows[..i + 1] == rows[..i] + [rows[i]];
    assert rows[..i + 1][..i] == rows[..i];
  }

  lemma ProblemParts(rows: seq<Row>, controls: map<string, Controls>)
    requires Covered(rows, controls)
    ensures HasProblem(rows, controls) <==>
      HasProblem(Part(rows, true), controls) || HasProblem(Part(rows, false), controls)
  {
    hide IsProblem, Part, Keyed;
    PartMembers(rows, true);
    PartMembers(rows, false);
    if r :| r in rows && IsProblem(controls[r.key]) {
      assert r in Part(rows, r.must);
    }
  }

  /** _render_review_row for each row of one group. */
  method RenderRows(rows: seq<Row>, controls: map<string, Controls>)
    returns (corrections: seq<Correction>, problem: bool)
    requires Covered(rows, controls)
    ensures corrections == CorrectionsOf(rows, controls)
    ensures problem <==> HasProblem(rows, controls)
  {
    corrections, problem := [], false;
    assert CorrectionsOf(rows[..0], controls) == [] && !HasProblem(rows[..0], controls);
    for i := 0 to |rows|
      invariant Covered(rows[..i], controls)
      invariant corrections == CorrectionsOf(rows[..i], controls)
      invariant problem <==> HasProblem(rows[..i], controls)
    {
      var row, c := rows[i], controls[rows[i].key];
      ProblemStep(rows, controls, i);
      var gapSentence := if c.decision == Gap || c.decision == Partial then c.gapText else "";
      var evidence := if c.decision == Gap || c.decision == NotApplicable then [] else c.chosen;
      if (c.decision == Accepted && |evidence| == 0) || 0 < |gapSentence| < 10 { problem := true; }
      var same := c.decision == DefaultDecision(row) && evidence == row.proposed && |gapSentence| == 0;
      if !same {
        corrections := corrections + [Correction(row.key, Choice(c.decision, evidence, gapSentence))];
      }
    }
    assert rows[..|rows|] == rows;
  }

  /** The whole review: the MUST rows, then the optional ones. */
  function Review(rows: seq<Row>, controls: map<string, Controls>): seq<Correction>
    requires Covered(rows, controls)
  {
    CorrectionsOf(Part(rows, true), controls) + CorrectionsOf(Part(rows, false), controls)
  }

  method RenderCorrections(rows: seq<Row>, controls: map<string, Controls>)
    returns (corrections: seq<Correction>, problem: bool)
    requires Covered(rows, controls)
    ensures corrections == Review(rows, controls)
    ensures problem <==> HasProblem(rows, controls)
  {
    hide HasProblem, CorrectionsOf, Part;
    ProblemParts(rows, controls);
    var must, optional := Part(rows, true), Part(rows, false);
    var a, p := RenderRows(must, controls);
    var b, q := RenderRows(optional, controls);
    corrections, problem := a + b, p || q;
  }

  // ------------------------------------------------------------------ overlay

  /** The choice a list of corrections gives a row: its correction if it has one, else the default. */
  function Overlay(row: Row, corrections: seq<Correction>): Choice {
    if |corrections| == 0 then DefaultChoice(row)
    else if corrections[|corrections| - 1].key == row.key then corrections[|corrections| - 1].choice
    else Overlay(row, corrections[..|corrections| - 1])
  }

  lemma {:induction false} CorrectionsAre(rows: seq<Row>, controls: map<string, Controls>)
    requires Covered(rows, controls)
    ensures forall c :: c in CorrectionsOf(rows, controls) <==>
      exists r :: r in rows && c == Correction(r.key, ChoiceOf(controls[r.key])) && c.choice != DefaultChoice(r)
  {
    if |rows| != 0 {
      var n := |rows| - 1;
      CorrectionsAre(rows[..n], controls);
      assert rows == rows[..n] + [rows[n]];
    }
  }

  lemma {:induction false} OverlayFinds(row: Row, corrections: seq<Correction>, choice: Choice)
    requires forall c :: c in corrections && c.key == row.key ==> c.choice == choice
    ensures Overlay(row, corrections) ==
      if exists c :: c in corrections && c.key == row.key then choice else DefaultChoice(row)
  {
    if |corrections| != 0 {
      var n := |corrections| - 1;
      assert corrections == corrections[..n] + [corrections[n]];
      OverlayFinds(row, corrections[..n], choice);
    }
  }

  /** The list holds a correction for exactly the rows whose choice differs from the default. */
  lemma ReviewIs(rows: seq<Row>, controls: map<string, Controls>)
    requires Covered(rows, controls)
    ensures forall c :: c in Review(rows, controls) <==>
      exists r :: r in rows && c == Correction(r.key, ChoiceOf(controls[r.key])) && c.choice != DefaultChoice(r)
  {
    hide CorrectionsOf, Part, ChoiceOf, DefaultChoice;
    PartMembers(rows, true);
    PartMembers(rows, false);
    var must, optional := Part(rows, true), Part(rows, false);
    CorrectionsAre(must, controls);
    CorrectionsAre(optional, controls);
    forall c ensures c in Review(rows, controls) <==>
      exists r :: r in rows && c == Correction(r.key, ChoiceOf(controls[r.key])) && c.choice != DefaultChoice(r)
    {
      if r :| r in rows && c == Correction(r.key, ChoiceOf(controls[r.key])) && c.choice != DefaultChoice(r) {
        assert r in must || r in optional;
      }
    }
  }

  /** Overlaying the corrections on the defaults reproduces every row's choice. */
  lemma OverlayReproduces(rows: seq<Row>, controls: map<string, Controls>, row: Row)
    requires Keyed(rows) && row in rows
    requires Covered(rows, controls)
    ensures Overlay(row, Review(rows, controls)) == ChoiceOf(controls[row.key])
  {
    hide Review, ChoiceOf, DefaultChoice, Keyed;
    ReviewIs(rows, controls);
    var all, choice := Review(rows, controls), ChoiceOf(controls[row.key]);
    forall c | c in all && c.key == row.key ensures c.choice == choice && choice != DefaultChoice(row) {
      var r :| r in rows && c == Correction(r.key, ChoiceOf(controls[r.key])) && c.choice != DefaultChoice(r);
      SameKeySameRow(rows, r, row);
    }
    OverlayFinds(row, all, choice);
    if choice != DefaultChoice(row) {
      assert Correction(row.key, choice) in all;
    }
  }

  lemma SameKeySameRow(rows: seq<Row>, r: Row, q: Row)
    requires Keyed(rows) && r in rows && q in rows && r.key == q.key
    ensures r == q
  {
    var i :| 0 <= i < |rows| && rows[i] == r;
    var j :| 0 <= j < |rows| && rows[j] == q;
  }

  /** So equal corrections mean equal choices: comparing the lists is comparing what the user decided. */
  lemma CorrectionsDetermineChoices(rows: seq<Row>, a: map<string, Controls>, b: map<string, Controls>)
    requires Keyed(rows)
    requires Covered(rows, a) && Covered(rows, b)
    ensures Review(rows, a) == Review(rows, b) <==>
      forall r :: r in rows ==> ChoiceOf(a[r.key]) == ChoiceOf(b[r.key])
  {
    if Review(rows, a) == Review(rows, b) {
      forall r | r in rows ensures ChoiceOf(a[r.key]) == ChoiceOf(b[r.key]) {
        OverlayReproduces(rows, a, r);
        OverlayReproduces(rows, b, r);
      }
    }
    if forall r :: r in rows ==> ChoiceOf(a[r.key]) == ChoiceOf(b[r.key]) {
      PartMembers(rows, true);
      PartMembers(rows, false);
      SameChoices(Part(rows, true), a, b);
      SameChoices(Part(rows, false), a, b);
    }
  }

  lemma {:induction false} SameChoices(rows: seq<Row>, a: map<string, Controls>, b: map<string, Controls>)
    requires Covered(rows, a) && Covered(rows, b)
    requires forall r :: r in rows ==> ChoiceOf(a[r.key]) == ChoiceOf(b[r.key])
    ensures CorrectionsOf(rows, a) == CorrectionsOf(rows, b)
  {
    if |rows| != 0 {
      assert rows[|rows| - 1] in rows;
      SameChoices(rows[..|rows| - 1], a, b);
    }
  }

  /** "Accept all suggested" clears the optional rows' controls: no optional row is corrected any more. */
  lemma AcceptAllLeavesMustRows(rows: seq<Row>, controls: map<string, Controls>)
    requires Keyed(rows) && Covered(rows, controls)
    requires forall r :: r in rows && !r.must ==> controls[r.key] == DefaultControls(r)
    ensures Review(rows, controls) == CorrectionsOf(Part(rows, true), controls)
  {
    PartMembers(rows, false);
    PartMembers(rows, true);
    NoCorrections(Part(rows, false), controls);
  }

  lemma {:induction false} NoCorrections(rows: seq<Row>, controls: map<string, Controls>)
    requires Covered(rows, controls)
    requires forall r :: r in rows ==> controls[r.key] == DefaultControls(r)
    ensures CorrectionsOf(rows, controls) == []
  {
    if |rows| != 0 {
      assert rows[|rows| - 1] in rows;
      NoCorrections(rows[..|rows| - 1], controls);
    }
  }
}
