/** The line loop of `parseFileWithProgress`: every line of the file is given to the line
    parser; rejected lines are counted as skipped and accepted ones are collected in order, with
    a count per layout. */
module ParseFile {
  import opened Numbers
  import opened Text
  import opened Hkl

  /** What the line parser returns for each line, in line order. */
  function Results(lines: seq<string>, parseFloat: string -> Num): (rs: seq<LineResult>)
    ensures |rs| == |lines| && forall i :: 0 <= i < |lines| ==> rs[i] == ParseLine(lines[i], parseFloat)
  {
    seq(|lines|, i requires 0 <= i < |lines| => ParseLine(lines[i], parseFloat))
  }

  /** The accepted records, in line order. */
  function Accepted(rs: seq<LineResult>): (recs: seq<Record>)
    ensures |recs| <= |rs|
  {
    if |rs| == 0 then []
    else Accepted(rs[..|rs| - 1]) + (if rs[|rs| - 1].Parsed? then [rs[|rs| - 1].rec] else [])
  }

  /** The number of lines the parser rejects. */
  function Rejected(rs: seq<LineResult>): nat
  {
    if |rs| == 0 then 0 else Rejected(rs[..|rs| - 1]) + (if rs[|rs| - 1].Skip? then 1 else 0)
  }

  /** The number of lines accepted with layout `f`. */
  function CountFormat(rs: seq<LineResult>, f: Format): nat
  {
    if |rs| == 0 then 0
    else CountFormat(rs[..|rs| - 1], f) + (if rs[|rs| - 1].Parsed? && rs[|rs| - 1].format == f then 1 else 0)
  }

  /** The number of blank (all-whitespace) lines. */
  function Blank(lines: seq<string>): nat
  {
    if |lines| == 0 then 0 else Blank(lines[..|lines| - 1]) + (if AllSpace(lines[|lines| - 1]) then 1 else 0)
  }

  /** The layout with the larger count; a tie goes to the whitespace layout. */
  function Dominant(ws: nat, fw: nat): (f: Format)
    ensures f == FixedWidth <==> fw > ws
  {
    if fw > ws then FixedWidth else Whitespace
  }

  /** Every line is either accepted or skipped, and every accepted line has one layout. */
  lemma {:induction false} LinesAccountedFor(rs: seq<LineResult>)
    ensures |Accepted(rs)| + Rejected(rs) == |rs|
    ensures CountFormat(rs, Whitespace) + CountFormat(rs, FixedWidth) == |Accepted(rs)|
  {
    if |rs| > 0 {
      LinesAccountedFor(rs[..|rs| - 1]);
    }
  }

  /** Blank lines are among the skipped ones. */
  lemma {:induction false} BlankLinesSkipped(lines: seq<string>, parseFloat: string -> Num)
    ensures Blank(lines) <= Rejected(Results(lines, parseFloat))
  {
    if |lines| > 0 {
      var init := lines[..|lines| - 1];
      BlankLinesSkipped(init, parseFloat);
      var rs := Results(lines, parseFloat);
      assert rs[..|rs| - 1] == Results(init, parseFloat);
    }
  }

  /** Records keep the order of their lines: the records of a file are those of its first part
      followed by those of the rest. */
  lemma {:induction false} AcceptedAppend(a: seq<LineResult>, b: seq<LineResult>)
    ensures Accepted(a + b) == Accepted(a) + Accepted(b)
    decreases |b|
  {
    if |b| == 0 {
      assert a + b == a;
    } else {
      var b' := b[..|b| - 1];
      assert (a + b)[..|a + b| - 1] == a + b';
      AcceptedAppend(a, b');
    }
  }

  /** One more line adds its record, or one skip, and one to the count of its layout. */
  lemma Step(rs: seq<LineResult>, i: nat)
    requires i < |rs|
    ensures Accepted(rs[..i + 1]) == Accepted(rs[..i]) + (if rs[i].Parsed? then [rs[i].rec] else [])
    ensures Rejected(rs[..i + 1]) == Rejected(rs[..i]) + (if rs[i].Skip? then 1 else 0)
    ensures CountFormat(rs[..i + 1], Whitespace)
              == CountFormat(rs[..i], Whitespace) + (if rs[i].Parsed? && rs[i].format == Whitespace then 1 else 0)
    ensures CountFormat(rs[..i + 1], FixedWidth)
              == CountFormat(rs[..i], FixedWidth) + (if rs[i].Parsed? && rs[i].format == FixedWidth then 1 else 0)
  {
    assert rs[..i + 1][..i] == rs[..i];
  }

  /** The loop of `parseFileWithProgress` over the lines of `text`. */
  method ParseText(text: string, parseFloat: string -> Num)
    returns (reflections: seq<Record>, skipped: nat, whitespace: nat, fixedWidth: nat, dominant: Format)
    ensures reflections == Accepted(Results(SplitLines(text), parseFloat))
    ensures skipped == Rejected(Results(SplitLines(text), parseFloat))
    ensures whitespace == CountFormat(Results(SplitLines(text), parseFloat), Whitespace)
    ensures fixedWidth == CountFormat(Results(SplitLines(text), parseFloat), FixedWidth)
    ensures |reflections| + skipped == CountChar(text, '\n') + 1
    ensures whitespace + fixedWidth == |reflections|
    ensures dominant == FixedWidth <==> fixedWidth > whitespace
  {
    var lines := SplitLines(text);
    reflections, skipped, whitespace, fixedWidth := ScanLines(lines, parseFloat);
    LinesAccountedFor(Results(lines, parseFloat));
    dominant := Dominant(whitespace, fixedWidth);
  }

  /** The loop over the lines: each line is skipped or accepted, and an accepted line counts
      towards its format. */
  method ScanLines(lines: seq<string>, parseFloat: string -> Num)
    returns (reflections: seq<Record>, skipped: nat, whitespace: nat, fixedWidth: nat)
    ensures reflections == Accepted(Results(lines, parseFloat))
    ensures skipped == Rejected(Results(lines, parseFloat))
    ensures whitespace == CountFormat(Results(lines, parseFloat), Whitespace)
    ensures fixedWidth == CountFormat(Results(lines, parseFloat), FixedWidth)
  {
    ghost var rs := Results(lines, parseFloat);
    reflections, skipped, whitespace, fixedWidth := [], 0, 0, 0;
    for i := 0 to |lines|
      invariant reflections == Accepted(rs[..i]) && skipped == Rejected(rs[..i])
      invariant whitespace == CountFormat(rs[..i], Whitespace) && fixedWidth == CountFormat(rs[..i], FixedWidth)
    {
      var parsed := ParseLine(lines[i], parseFloat);
      Step(rs, i);
      reflections, skipped, whitespace, fixedWidth := Account(parsed, reflections, skipped, whitespace, fixedWidth);
    }
    assert rs[..|lines|] == rs;
  }

  /** One pass of the line loop: a rejected line counts as skipped; an accepted one is
      collected and counts towards its layout. */
  method Account(parsed: LineResult, reflections: seq<Record>, skipped: nat, whitespace: nat, fixedWidth: nat)
    returns (reflections': seq<Record>, skipped': nat, whitespace': nat, fixedWidth': nat)
    ensures reflections' == reflections + (if parsed.Parsed? then [parsed.rec] else [])
    ensures skipped' == skipped + (if parsed.Skip? then 1 else 0)
    ensures whitespace' == whitespace + (if parsed.Parsed? && parsed.format == Whitespace then 1 else 0)
    ensures fixedWidth' == fixedWidth + (if parsed.Parsed? && parsed.format == FixedWidth then 1 else 0)
  {
    reflections', skipped', whitespace', fixedWidth' := reflections, skipped, whitespace, fixedWidth;
    if parsed.Skip? {
      skipped' := skipped + 1;
      return;
    }
    reflections' := reflections + [parsed.rec];
    if parsed.format == FixedWidth {
      fixedWidth' := fixedWidth + 1;
    } else {
      whitespace' := whitespace + 1;
    }
  }
}
