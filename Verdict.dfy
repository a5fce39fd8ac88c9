/** `Program.CheckResults` and the pen choice of `Program.PrepareResultImage`:
    the verdict on the codes the trigger left in the area table. */
module Verdict {
  import opened Text
  import opened Settings
  import opened Inputs
  import opened Areas

  /** `Where(r => !r.IsValid())`: the invalid results, in table order. */
  function Invalid(rs: seq<AreaSnapshot>): (r: seq<AreaSnapshot>)
    ensures |r| <= |rs|
  {
    if rs == [] then []
    else Invalid(rs[..|rs| - 1]) + if rs[|rs| - 1].IsValid() then [] else [rs[|rs| - 1]]
  }

  /** The filter keeps exactly the invalid results. */
  lemma {:induction false} InvalidMeaning(rs: seq<AreaSnapshot>)
    ensures forall x :: x in Invalid(rs) <==> x in rs && !x.IsValid()
  {
    if rs != [] {
      var init := rs[..|rs| - 1];
      InvalidMeaning(init);
      assert rs == init + [rs[|rs| - 1]];
    }
  }

  /** The filter of two lists is the filters one after the other: it keeps the
      order of the table. */
  lemma {:induction false} InvalidAppend(xs: seq<AreaSnapshot>, ys: seq<AreaSnapshot>)
    ensures Invalid(xs + ys) == Invalid(xs) + Invalid(ys)
    decreases |ys|
  {
    if ys == [] {
      assert xs + ys == xs;
    } else {
      var init := ys[..|ys| - 1];
      var last := ys[|ys| - 1];
      assert (xs + ys)[..|xs + ys| - 1] == xs + init;
      InvalidAppend(xs, init);
      var tail := if last.IsValid() then [] else [last];
      assert Invalid(xs + ys) == Invalid(xs) + Invalid(init) + tail;
    }
  }

  /** The reason of one invalid result. */
  function Reason(r: AreaSnapshot): string
  {
    if Fulfilled(r.readCode) then "invalid code found [" + r.readCode + "]." else "code not found."
  }

  /** The line logged for one invalid result. */
  function Diagnostic(r: AreaSnapshot): string
  {
    "Failed check for component [" + r.component.ToString() + "] in area [" + r.area.ToString() + "]: " + Reason(r)
  }

  /** A line ends with "code not found." exactly when nothing was read for its area. */
  lemma DiagnosticTellsReason(r: AreaSnapshot)
    ensures var s := Diagnostic(r);
      (|s| >= 15 && s[|s| - 15..] == "code not found.") <==> !Fulfilled(r.readCode)
  {
    var s := Diagnostic(r);
    var head := "Failed check for component [" + r.component.ToString() + "] in area [" + r.area.ToString() + "]: ";
    assert s == head + Reason(r);
    if Fulfilled(r.readCode) {
      assert s[|s| - 2] == ']';
      assert "code not found."[13] == 'd';
    } else {
      assert s[|s| - 15..] == Reason(r);
    }
  }

  /** One diagnostic per result, in order. */
  function Diagnostics(rs: seq<AreaSnapshot>): (lines: seq<string>)
    ensures |lines| == |rs|
  {
    if rs == [] then [] else Diagnostics(rs[..|rs| - 1]) + [Diagnostic(rs[|rs| - 1])]
  }

  /** The i-th line is the diagnostic of the i-th invalid result. */
  lemma {:induction false} DiagnosticsAt(rs: seq<AreaSnapshot>, i: nat)
    requires i < |rs|
    ensures Diagnostics(rs)[i] == Diagnostic(rs[i])
  {
    if i < |rs| - 1 {
      DiagnosticsAt(rs[..|rs| - 1], i);
    }
  }

  /** The line written to standard output. */
  function VerdictLine(rs: seq<AreaSnapshot>): string
  {
    if Invalid(rs) == [] then "OK" else "NOK"
  }

  /** "OK" exactly when every area holds a valid code; otherwise "NOK". */
  lemma VerdictMeaning(rs: seq<AreaSnapshot>)
    ensures VerdictLine(rs) == "OK" <==> forall i :: 0 <= i < |rs| ==> rs[i].IsValid()
    ensures VerdictLine(rs) == "OK" || VerdictLine(rs) == "NOK"
  {
    InvalidMeaning(rs);
    if Invalid(rs) != [] {
      var x := Invalid(rs)[0];
      assert x in Invalid(rs);
      var i :| 0 <= i < |rs| && rs[i] == x;
      assert !rs[i].IsValid();
    } else {
      forall i | 0 <= i < |rs| ensures rs[i].IsValid() {
        assert rs[i] in rs;
      }
    }
  }

  /** Every area of a valid table is in its `Values`. */
  lemma ListedAreLookedUp(t: AreaTable)
    requires t.Valid()
    ensures forall i :: 0 <= i < |t.nos| ==> t.nos[i] in t.results
  {
    forall i | 0 <= i < |t.nos| ensures t.nos[i] in t.results {
      assert t.nos[i] in t.nos;
    }
  }

  lemma DiagnosticsSnoc(rs: seq<AreaSnapshot>, i: nat)
    requires i < |rs|
    ensures Diagnostics(rs[..i + 1]) == Diagnostics(rs[..i]) + [Diagnostic(rs[i])]
  {
    assert rs[..i + 1][..i] == rs[..i];
  }

  lemma AppendAssoc(h: string, xs: seq<string>, x: string)
    ensures [h] + xs + [x] == [h] + (xs + [x])
  {
  }

  /** The `foreach` over the invalid results: the heading, then one line each. */
  method LogDiagnostics(invalid: seq<AreaSnapshot>) returns (log: seq<string>)
    ensures log == ["Checking the results..."] + Diagnostics(invalid)
  {
    log := ["Checking the results..."];
    var i := 0;
    while i < |invalid|
      invariant 0 <= i <= |invalid|
      invariant log == ["Checking the results..."] + Diagnostics(invalid[..i])
    {
      DiagnosticsSnoc(invalid, i);
      AppendAssoc("Checking the results...", Diagnostics(invalid[..i]), Diagnostic(invalid[i]));
      log := log + [Diagnostic(invalid[i])];
      i := i + 1;
    }
    assert invalid[..i] == invalid;
  }

  /** `CheckResults()` on `areaResults.Values`: the log lines (a heading, then
      one diagnostic per invalid area in table order) and the verdict line. */
  method CheckResults(values: seq<AreaSnapshot>) returns (log: seq<string>, verdict: string)
    ensures log == ["Checking the results..."] + Diagnostics(Invalid(values))
    ensures verdict == VerdictLine(values)
  {
    var invalid := Invalid(values);
    log := LogDiagnostics(invalid);
    verdict := if |invalid| > 0 then "NOK" else "OK";
  }

  // ---------------------------------------------------------------------------
  // The result image

  /** One rectangle `PrepareResultImage` draws: the pass pen or the fail pen,
      and x, y, width and height in unchecked 32-bit arithmetic. */
  datatype Stroke = Stroke(pass: bool, x: int, y: int, width: int, height: int)

  function StrokeOf(r: AreaSnapshot): Stroke
  {
    Stroke(r.IsValid(), r.area.x1, r.area.y1, Wrap32(r.area.x2 - r.area.x1), Wrap32(r.area.y2 - r.area.y1))
  }

  /** The rectangles, one per area in table order. */
  function Strokes(rs: seq<AreaSnapshot>): (s: seq<Stroke>)
  {
    seq(|rs|, i requires 0 <= i < |rs| => StrokeOf(rs[i]))
  }

  /** An area inside the image frame is drawn exactly over its rectangle. */
  lemma StrokeCovers(r: AreaSnapshot)
    requires r.area.InRange()
    ensures var s := StrokeOf(r);
      s.x == r.area.x1 && s.y == r.area.y1 && s.x + s.width == r.area.x2 && s.y + s.height == r.area.y2
  {
  }

  /** The image is drawn all with the pass pen exactly when the verdict is "OK". */
  lemma ImageAgreesWithVerdict(rs: seq<AreaSnapshot>)
    ensures (forall i :: 0 <= i < |rs| ==> Strokes(rs)[i].pass) <==> VerdictLine(rs) == "OK"
  {
    VerdictMeaning(rs);
    assert forall i :: 0 <= i < |rs| ==> Strokes(rs)[i].pass == rs[i].IsValid();
  }
}
