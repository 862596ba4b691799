/** SubCubeControl: the form for saving part of a file. What it keeps is the
    line and sample range selectors, the highest band of the chosen file, the
    text of the band field, and the shown output file type. The band field
    accepts what the pattern `[0-9]+((-|,)([0-9]+))*` matches in full: band
    numbers separated by '-' (a range) or ',' (a list). */
module SubCube {
  import opened Base
  import Text
  import RangeSelect

  predicate IsSep(c: char) {
    c == '-' || c == ','
  }

  /** States of a left-to-right match of the band pattern. */
  datatype Scan = NeedDigit | InNumber | Dead

  function Next(st: Scan, c: char): Scan {
    match st
    case NeedDigit => if Text.IsDigit(c) then InNumber else Dead
    case InNumber => if Text.IsDigit(c) then InNumber else if IsSep(c) then NeedDigit else Dead
    case Dead => Dead
  }

  function Run(st: Scan, s: string): Scan
    decreases |s|
  {
    if |s| == 0 then st else Run(Next(st, s[0]), s[1..])
  }

  /** The band field's pattern matches the whole text. */
  predicate BandSpec(s: string) {
    Run(NeedDigit, s) == InNumber
  }

  /** Only digits and separators, and every separator followed by a digit. */
  predicate SepsFollowed(s: string) {
    && (forall i :: 0 <= i < |s| ==> Text.IsDigit(s[i]) || IsSep(s[i]))
    && (forall i :: 0 <= i < |s| && IsSep(s[i]) ==> i + 1 < |s| && Text.IsDigit(s[i + 1]))
  }

  /** The pattern described character by character: a digit first, then
      digits and separators, each separator followed by a digit. */
  predicate Shape(s: string) {
    |s| > 0 && Text.IsDigit(s[0]) && SepsFollowed(s)
  }

  datatype Interleave = Bil | Bsq | Bip

  /** `__format_map`: the description shown for each interleave. */
  function Label(f: Interleave): string {
    match f
    case Bil => "BIL - Band Interleaved by Line"
    case Bsq => "BQS - Band Sequential"
    case Bip => "BIP - Band Interleaved by Pixel"
  }

  /** FileSubCubeParams: a file's dimensions and interleave. */
  datatype Params = Params(lines: int, samples: int, bands: nat, format: Interleave)

  datatype Control = Control(
    lineRange: RangeSelect.Selector,
    sampleRange: RangeSelect.Selector,
    maxBand: nat,
    bandText: string,
    fileType: string)

  /** The form as built: empty selectors, empty band field, no file type. */
  const Initial := Control(RangeSelect.Blank, RangeSelect.Blank, 0, "", "")

  /** The band text offered for a file with n bands: every band, "1-n". */
  function DefaultBands(n: nat): string {
    "1-" + Text.Decimal(n)
  }

  /** `__handle_file_select`. Choosing the placeholder entry (None) empties
      the form. Choosing a file sets the line range to 1..lines, then the
      sample range to 1..samples (each raising ValueError when its bound is
      below 2, the line range before the sample range is touched), then
      offers all of the file's bands and shows its interleave. A name not in
      `files` raises KeyError. */
  function FileSelect(c: Control, files: map<string, Params>, choice: Option<string>)
    : (r: (Control, Option<PyError>))
    ensures choice.None? ==> r == (Initial.(lineRange := RangeSelect.Clear(c.lineRange),
                                           sampleRange := RangeSelect.Clear(c.sampleRange)), None)
    ensures choice.Some? && choice.value !in files ==> r == (c, Some(KeyError))
    ensures choice.Some? && choice.value in files ==>
      var p := files[choice.value];
      && (r.1.None? <==> p.lines > 1 && p.samples > 1)
      && (p.lines <= 1 ==> r == (c, Some(ValueError)))
      && (p.lines > 1 && p.samples <= 1 ==> r.1 == Some(ValueError) && r.0.sampleRange == c.sampleRange)
      && (p.lines > 1 ==> r.0.lineRange == RangeSelect.SetRange(c.lineRange, 1, p.lines).value)
      && (r.1.None? ==>
            && r.0.sampleRange == RangeSelect.SetRange(c.sampleRange, 1, p.samples).value
            && r.0.maxBand == p.bands && r.0.bandText == DefaultBands(p.bands)
            && r.0.fileType == Label(p.format))
  {
    match choice
    case None =>
      (Control(RangeSelect.Clear(c.lineRange), RangeSelect.Clear(c.sampleRange), 0, "", ""), None)
    case Some(name) =>
      if name !in files then (c, Some(KeyError))
      else
        var p := files[name];
        match RangeSelect.SetRange(c.lineRange, 1, p.lines)
        case Err(e) => (c, Some(e))
        case Ok(lines) =>
          var c1 := c.(lineRange := lines);
          match RangeSelect.SetRange(c.sampleRange, 1, p.samples)
          case Err(e) => (c1, Some(e))
          case Ok(samples) =>
            (c1.(sampleRange := samples, maxBand := p.bands, bandText := DefaultBands(p.bands),
                 fileType := Label(p.format)), None)
  }

  /** The corrected `__handle_file_select`: the range selectors are cleared
      before being filled, so a second file's ranges replace the first's. */
  function FileSelectCleared(c: Control, files: map<string, Params>, choice: Option<string>)
    : (r: (Control, Option<PyError>))
    ensures choice.Some? && choice.value in files && r.1.None? ==>
      var p := files[choice.value];
      && r.0.lineRange.from.items == RangeSelect.Span(1, p.lines)
      && r.0.sampleRange.from.items == RangeSelect.Span(1, p.samples)
      && RangeSelect.Staggered(r.0.lineRange) && RangeSelect.Staggered(r.0.sampleRange)
  {
    if choice.Some? && choice.value in files then
      FileSelect(c.(lineRange := RangeSelect.Clear(c.lineRange),
                    sampleRange := RangeSelect.Clear(c.sampleRange)), files, choice)
    else FileSelect(c, files, choice)
  }

  // ---------------------------------------------------------------------
  // Properties of the band pattern

  /** A dead match stays dead. */
  lemma {:induction false} DeadStays(s: string)
    ensures Run(Dead, s) == Dead
  {
    if |s| > 0 {
      DeadStays(s[1..]);
    }
  }

  lemma SepsFollowedCons(c: char, s: string)
    ensures SepsFollowed([c] + s) <==>
      && (Text.IsDigit(c) || IsSep(c))
      && (IsSep(c) ==> |s| > 0 && Text.IsDigit(s[0]))
      && SepsFollowed(s)
  {
    var t := [c] + s;
    assert forall i :: 0 < i < |t| ==> t[i] == s[i - 1];
    if SepsFollowed(t) {
      assert t[0] == c;
      if IsSep(c) {
        assert t[1] == s[0];
      }
      forall i | 0 <= i < |s|
        ensures Text.IsDigit(s[i]) || IsSep(s[i])
      {
        assert t[i + 1] == s[i];
      }
      forall i | 0 <= i < |s| && IsSep(s[i])
        ensures i + 1 < |s| && Text.IsDigit(s[i + 1])
      {
        assert IsSep(t[i + 1]);
        assert t[i + 2] == s[i + 1];
      }
    }
    if && (Text.IsDigit(c) || IsSep(c))
       && (IsSep(c) ==> |s| > 0 && Text.IsDigit(s[0]))
       && SepsFollowed(s)
    {
      forall i | 0 <= i < |t|
        ensures Text.IsDigit(t[i]) || IsSep(t[i])
      {
        if i > 0 {
          assert t[i] == s[i - 1];
        }
      }
      forall i | 0 <= i < |t| && IsSep(t[i])
        ensures i + 1 < |t| && Text.IsDigit(t[i + 1])
      {
        if i > 0 {
          assert t[i] == s[i - 1];
          assert IsSep(s[i - 1]);
          assert t[i + 1] == s[i];
        } else {
          assert t[1] == s[0];
        }
      }
    }
  }

  /** From inside a number, the rest matches exactly when it is digits and
      separators with every separator followed by a digit. */
  lemma {:induction false} InNumberRun(s: string)
    ensures Run(InNumber, s) == InNumber <==> SepsFollowed(s)
  {
    if |s| > 0 {
      var c, rest := s[0], s[1..];
      assert s == [c] + rest;
      SepsFollowedCons(c, rest);
      if Text.IsDigit(c) {
        InNumberRun(rest);
      } else if IsSep(c) {
        if |rest| > 0 {
          assert rest == [rest[0]] + rest[1..];
          SepsFollowedCons(rest[0], rest[1..]);
          if Text.IsDigit(rest[0]) {
            InNumberRun(rest[1..]);
          } else {
            DeadStays(rest[1..]);
          }
        }
      } else {
        DeadStays(rest);
      }
    }
  }

  /** The matcher and the character-level description agree on every text. */
  lemma BandSpecShape(s: string)
    ensures BandSpec(s) <==> Shape(s)
  {
    if |s| > 0 {
      assert s == [s[0]] + s[1..];
      SepsFollowedCons(s[0], s[1..]);
      if Text.IsDigit(s[0]) {
        InNumberRun(s[1..]);
      } else {
        DeadStays(s[1..]);
      }
    }
  }

  /** The band text offered on file selection is always accepted. */
  lemma DefaultBandsAccepted(n: nat)
    ensures BandSpec(DefaultBands(n))
  {
    var s := DefaultBands(n);
    var d := Text.Decimal(n);
    assert forall i :: 2 <= i < |s| ==> s[i] == d[i - 2];
    BandSpecShape(s);
  }

  /** Matching a concatenation resumes, on the second part, in the state the
      first part ended in. */
  lemma {:induction false} RunAppend(st: Scan, a: string, b: string)
    ensures Run(st, a + b) == Run(Run(st, a), b)
    decreases |a|
  {
    if |a| > 0 {
      assert (a + b)[0] == a[0];
      assert (a + b)[1..] == a[1..] + b;
      RunAppend(Next(st, a[0]), a[1..], b);
      assert Run(st, a + b) == Run(Next(st, a[0]), a[1..] + b);
    } else {
      assert a + b == b;
    }
  }

  /** The example the field's tooltip gives is accepted. */
  lemma TooltipExampleAccepted()
    ensures BandSpec("1-10,12,14,19-21")
  {
    var p1, p2, p3, p4 := "1-10", ",12", ",14", ",19-21";
    assert Run(NeedDigit, p1) == InNumber;
    assert Run(InNumber, p2) == InNumber;
    assert Run(InNumber, p3) == InNumber;
    assert Run(InNumber, p4) == InNumber;
    RunAppend(NeedDigit, p1, p2);
    RunAppend(NeedDigit, p1 + p2, p3);
    RunAppend(NeedDigit, p1 + p2 + p3, p4);
    assert p1 + p2 + p3 + p4 == "1-10,12,14,19-21";
  }

  /** Texts with a dangling, leading or doubled separator, or another
      character, are not accepted. */
  lemma MalformedRejected()
    ensures !BandSpec("") && !BandSpec("1-") && !BandSpec("-1") && !BandSpec("1--2")
    ensures !BandSpec("1,,2") && !BandSpec("1 2")
  {
  }

  // ---------------------------------------------------------------------
  // Choosing a second file

  /** Choosing one file and then another, without the placeholder in
      between, leaves the first file's line items behind the second's. */
  lemma SecondFileKeepsOldItems(c: Control, files: map<string, Params>, a: string, b: string)
    requires a in files && b in files
    requires files[a].lines > 1 && files[a].samples > 1 && files[b].lines > 1
    ensures var c1 := FileSelect(c, files, Some(a)).0;
      var c2 := FileSelect(c1, files, Some(b)).0;
      |c2.lineRange.from.items| == |c.lineRange.from.items| + (files[a].lines - 1) + (files[b].lines - 1)
  {
  }

  /** Concretely: lines 3 and then lines 5 lets the user read lines 4 to 2. */
  lemma SecondFileMisordersLines()
    ensures var files := map["a" := Params(3, 3, 1, Bsq), "b" := Params(5, 5, 1, Bsq)];
      var c2 := FileSelect(FileSelect(Initial, files, Some("a")).0, files, Some("b")).0;
      var s := RangeSelect.PickTo(RangeSelect.PickFrom(c2.lineRange, 3), 4);
      RangeSelect.Ordered(s) && RangeSelect.FromValue(s) == Ok(4) && RangeSelect.ToValue(s) == Ok(2)
  {
    RangeSelect.SetRangeTwiceMisorders();
  }

  /** With the corrected handler, any ordered pick of lines reads a first line
      below the last. */
  lemma ClearedSelectOrdersLines(c: Control, files: map<string, Params>, name: string, i: int, j: int)
    requires name in files && files[name].lines > 1 && files[name].samples > 1
    ensures var c' := FileSelectCleared(c, files, Some(name)).0;
      var s := RangeSelect.PickTo(RangeSelect.PickFrom(c'.lineRange, i), j);
      RangeSelect.Ordered(s) && s.from.index >= 0 ==>
        RangeSelect.FromValue(s).value < RangeSelect.ToValue(s).value
  {
    var c' := FileSelectCleared(c, files, Some(name)).0;
    RangeSelect.PicksKeepStaggered(c'.lineRange, i);
    RangeSelect.PicksKeepStaggered(RangeSelect.PickFrom(c'.lineRange, i), j);
    var s := RangeSelect.PickTo(RangeSelect.PickFrom(c'.lineRange, i), j);
    if RangeSelect.Ordered(s) && s.from.index >= 0 {
      RangeSelect.OrderedValues(s);
    }
  }
}
