/** Reflection records: the line parser that recognises whitespace-separated and SHELX HKLF
    fixed-column lines, the intensity-to-amplitude conversion, and the CSV writer. */
module Hkl {
  import opened Wrappers
  import opened Numbers
  import opened Text

  /** Which layout a line was read with. */
  datatype Format = Whitespace | FixedWidth

  /** What the line parser returns: Miller indices, intensity and its sigma. The intensity is
      always finite; the sigma is whatever `parseFloat` gave, possibly NaN. */
  datatype Record = Record(h: int, k: int, l: int, I: real, sig: Num)

  /** `{ok:false}`, or `{ok:true, rec, format}`. */
  datatype LineResult = Skip | Parsed(rec: Record, format: Format)

  /** A reflection further down the pipeline: the parsed record with its amplitude F and its
      normalised amplitude E (non-finite until a normaliser sets it, as the field is then undefined). */
  datatype Reflection = Reflection(h: int, k: int, l: int, I: real, sig: Num, F: real, E: Num)

  /** The shared acceptance test of both layouts: h, k and l must read as integers and I as a
      finite number; sigma is kept whatever it reads as. */
  function ReadFields(hs: string, ks: string, ls: string, istr: string, ss: string,
                      parseFloat: string -> Num, format: Format): (r: LineResult)
    ensures r.Parsed? <==> ParseInt(hs).Some? && ParseInt(ks).Some? && ParseInt(ls).Some? && parseFloat(istr).Fin?
    ensures r.Parsed? ==>
              (r.format == format
               && r.rec == Record(ParseInt(hs).value, ParseInt(ks).value, ParseInt(ls).value, parseFloat(istr).value, parseFloat(ss)))
  {
    var h, k, l, i := ParseInt(hs), ParseInt(ks), ParseInt(ls), parseFloat(istr);
    if h.Some? && k.Some? && l.Some? && i.Fin? then
      Parsed(Record(h.value, k.value, l.value, i.value, parseFloat(ss)), format)
    else
      Skip
  }

  /** The whitespace path on the trimmed line: at least five tokens, of which the first five are
      h, k, l, I and sigma. */
  function ParseTokens(line: string, parseFloat: string -> Num): LineResult
  {
    var parts := SplitWs(line);
    if |parts| >= 5 then ReadFields(parts[0], parts[1], parts[2], parts[3], parts[4], parseFloat, Whitespace)
    else Skip
  }

  /** The fixed-column path on the untrimmed line: columns [0,4), [4,8), [8,12), [12,21) and
      [21,30), each trimmed. */
  function ParseColumns(raw: string, parseFloat: string -> Num): LineResult
  {
    ReadFields(Trim(Slice(raw, 0, 4)), Trim(Slice(raw, 4, 8)), Trim(Slice(raw, 8, 12)),
               Trim(Slice(raw, 12, 21)), Trim(Slice(raw, 21, 30)), parseFloat, FixedWidth)
  }

  /** `parseHKL_line_auto`: a blank line is skipped; otherwise the whitespace path is tried
      first and the fixed-column path only when it fails. */
  function ParseLine(raw: string, parseFloat: string -> Num): (r: LineResult)
    ensures AllSpace(raw) ==> r == Skip
    ensures r.Parsed? && r.format == Whitespace <==>
              !AllSpace(raw) && ParseTokens(Trim(raw), parseFloat).Parsed?
    ensures r.Parsed? && r.format == FixedWidth <==>
              !AllSpace(raw) && ParseTokens(Trim(raw), parseFloat).Skip? && ParseColumns(raw, parseFloat).Parsed?
    ensures r.Parsed? && |SplitWs(Trim(raw))| < 5 ==> r == ParseColumns(raw, parseFloat)
    ensures r.Parsed? && r.format == Whitespace ==>
              var parts := SplitWs(Trim(raw));
              |parts| >= 5 && r.rec.h == ParseInt(parts[0]).value && r.rec.k == ParseInt(parts[1]).value
              && r.rec.l == ParseInt(parts[2]).value && Fin(r.rec.I) == parseFloat(parts[3])
              && r.rec.sig == parseFloat(parts[4])
    ensures r.Skip? <==> AllSpace(raw) || (ParseTokens(Trim(raw), parseFloat).Skip? && ParseColumns(raw, parseFloat).Skip?)
  {
    var line := Trim(raw);
    if line == "" then Skip
    else
      var w := ParseTokens(line, parseFloat);
      if w.Parsed? then w else ParseColumns(raw, parseFloat)
  }

  /** A line without whitespace-separable tokens is read by columns whenever the columns hold
      valid numbers, and the result then says so. */
  lemma ColumnsOnlyWhenTokensFail(raw: string, parseFloat: string -> Num)
    requires !AllSpace(raw) && |SplitWs(Trim(raw))| < 5
    ensures ParseLine(raw, parseFloat) == ParseColumns(raw, parseFloat)
  {
  }

  // ---------------- a fixed-column writer, to read back ----------------

  /** A SHELX HKLF line as the column reader expects it: three integers right-aligned in four
      columns each, then intensity and sigma right-aligned in nine columns each. */
  function HklfLine(h: int, k: int, l: int, istr: string, ss: string): string
  {
    PadStart(IntToString(h), 4) + PadStart(IntToString(k), 4) + PadStart(IntToString(l), 4)
      + PadStart(istr, 9) + PadStart(ss, 9)
  }

  /** A field that fills its columns, or is padded with spaces, is read back by trimming. */
  lemma TrimPadded(s: string, w: nat)
    requires s != "" && !IsSpace(s[0]) && !IsSpace(s[|s| - 1]) && |s| <= w
    ensures Trim(PadStart(s, w)) == s
  {
    var t := PadStart(s, w);
    var pad := w - |s|;
    assert t[..pad] == seq(pad, _ => ' ');
    LeadingOfPadded(t, s, pad);
    var u := t[pad..];
    assert u == s;
    assert TrailingSpace(u) == 0;
  }

  lemma {:induction false} LeadingOfPadded(t: string, s: string, pad: nat)
    requires pad <= |t| && t[pad..] == s && AllSpace(t[..pad]) && s != "" && !IsSpace(s[0])
    ensures LeadingSpace(t) == pad
    decreases pad
  {
    if pad > 0 {
      assert IsSpace(t[..pad][0]);
      assert t[1..][pad - 1..] == s;
      assert t[1..][..pad - 1] == t[..pad][1..];
      LeadingOfPadded(t[1..], s, pad - 1);
    } else {
      assert t[0] == s[0];
    }
  }

  lemma ColumnsOfLine(a: string, b: string, c: string, d: string, e: string)
    requires |a| == 4 && |b| == 4 && |c| == 4 && |d| == 9 && |e| == 9
    ensures var line := a + b + c + d + e;
      Slice(line, 0, 4) == a && Slice(line, 4, 8) == b && Slice(line, 8, 12) == c
      && Slice(line, 12, 21) == d && Slice(line, 21, 30) == e
  {
    var line := a + b + c + d + e;
    assert line[0..4] == a;
    assert line[4..8] == b;
    assert line[8..12] == c;
    assert line[12..21] == d;
    assert line[21..30] == e;
  }

  lemma IntToStringEnds(i: int)
    ensures var s := IntToString(i); s != "" && !IsSpace(s[0]) && !IsSpace(s[|s| - 1])
  {
    var s := IntToString(i);
    var d := NatToString(if i < 0 then -i else i);
    assert IsDigit(d[|d| - 1]) && IsDigit(d[0]);
    assert s[|s| - 1] == d[|d| - 1];
  }

  /** The trimmed columns of a written HKLF line are the fields it was written from. */
  lemma HklfColumns(h: int, k: int, l: int, istr: string, ss: string)
    requires |IntToString(h)| <= 4 && |IntToString(k)| <= 4 && |IntToString(l)| <= 4
    requires 0 < |istr| <= 9 && !IsSpace(istr[0]) && !IsSpace(istr[|istr| - 1])
    requires 0 < |ss| <= 9 && !IsSpace(ss[0]) && !IsSpace(ss[|ss| - 1])
    ensures var line := HklfLine(h, k, l, istr, ss);
      Trim(Slice(line, 0, 4)) == IntToString(h) && Trim(Slice(line, 4, 8)) == IntToString(k)
      && Trim(Slice(line, 8, 12)) == IntToString(l) && Trim(Slice(line, 12, 21)) == istr
      && Trim(Slice(line, 21, 30)) == ss
  {
    ColumnsOfLine(PadStart(IntToString(h), 4), PadStart(IntToString(k), 4), PadStart(IntToString(l), 4),
                  PadStart(istr, 9), PadStart(ss, 9));
    IntToStringEnds(h);
    IntToStringEnds(k);
    IntToStringEnds(l);
    TrimPadded(IntToString(h), 4);
    TrimPadded(IntToString(k), 4);
    TrimPadded(IntToString(l), 4);
    TrimPadded(istr, 9);
    TrimPadded(ss, 9);
  }

  /** Reading the columns of a written HKLF line gives back the indices, the intensity and the
      sigma, as long as every field fits its columns. */
  lemma {:induction false} HklfColumnsRoundTrip(h: int, k: int, l: int, istr: string, ss: string,
                                                parseFloat: string -> Num)
    requires |IntToString(h)| <= 4 && |IntToString(k)| <= 4 && |IntToString(l)| <= 4
    requires 0 < |istr| <= 9 && !IsSpace(istr[0]) && !IsSpace(istr[|istr| - 1])
    requires 0 < |ss| <= 9 && !IsSpace(ss[0]) && !IsSpace(ss[|ss| - 1])
    requires parseFloat(istr).Fin?
    ensures ParseColumns(HklfLine(h, k, l, istr, ss), parseFloat)
              == Parsed(Record(h, k, l, parseFloat(istr).value, parseFloat(ss)), FixedWidth)
  {
    HklfColumns(h, k, l, istr, ss);
    IntToStringRoundTrip(h);
    IntToStringRoundTrip(k);
    IntToStringRoundTrip(l);
  }

  // ---------------- amplitudes ----------------

  /** `intensityToAmplitude`: every record gains F = sqrt(max(I, 0)); nothing else changes. */
  function IntensityToAmplitude(recs: seq<Record>, sqrt: real -> real): (out: seq<Reflection>)
    requires IsSqrt(sqrt)
    ensures |out| == |recs|
    ensures forall i :: 0 <= i < |recs| ==>
              var r, o := recs[i], out[i];
              o.h == r.h && o.k == r.k && o.l == r.l && o.I == r.I && o.sig == r.sig && o.E == NonFinite
              && o.F >= 0.0 && o.F * o.F == Max(r.I, 0.0)
  {
    AmplitudeFacts(recs, sqrt);
    seq(|recs|, i requires 0 <= i < |recs| =>
      var r := recs[i];
      Reflection(r.h, r.k, r.l, r.I, r.sig, sqrt(Max(r.I, 0.0)), NonFinite))
  }

  lemma AmplitudeFacts(recs: seq<Record>, sqrt: real -> real)
    requires IsSqrt(sqrt)
    ensures forall i :: 0 <= i < |recs| ==>
              sqrt(Max(recs[i].I, 0.0)) >= 0.0 && sqrt(Max(recs[i].I, 0.0)) * sqrt(Max(recs[i].I, 0.0)) == Max(recs[i].I, 0.0)
  {
    forall i | 0 <= i < |recs|
      ensures sqrt(Max(recs[i].I, 0.0)) >= 0.0 && sqrt(Max(recs[i].I, 0.0)) * sqrt(Max(recs[i].I, 0.0)) == Max(recs[i].I, 0.0)
    {
      var x := Max(recs[i].I, 0.0);
      assert 0.0 <= x;
    }
  }

  // ---------------- CSV ----------------

  /** A row as the CSV writer sees it: field name to its text; a missing field prints empty,
      as `join` prints `undefined`. */
  type Row = map<string, string>

  function Cell(r: Row, key: string): string
  {
    if key in r then r[key] else ""
  }

  function RowLine(r: Row, header: seq<string>): string
  {
    Join(seq(|header|, j requires 0 <= j < |header| => Cell(r, header[j])), ",")
  }

  /** `toCSV`: the header line, one line per row, and a final newline. */
  function ToCsv(rows: seq<Row>, header: seq<string>): string
  {
    Join(header, ",") + "\n" + Join(seq(|rows|, i requires 0 <= i < |rows| => RowLine(rows[i], header)), "\n") + "\n"
  }

  predicate NoNewline(xs: seq<string>)
  {
    forall j :: 0 <= j < |xs| ==> '\n' !in xs[j]
  }

  lemma {:induction false} JoinAvoids(xs: seq<string>, sep: string, c: char)
    requires forall j :: 0 <= j < |xs| ==> c !in xs[j]
    requires c !in sep
    ensures c !in Join(xs, sep)
  {
    if |xs| > 1 {
      JoinAvoids(xs[1..], sep, c);
    }
  }

  /** Splitting the CSV text on newlines gives the header line, then one line per row, then the
      empty string after the final newline, provided no header or cell contains a newline. */
  lemma CsvLines(rows: seq<Row>, header: seq<string>)
    requires NoNewline(header)
    requires forall i, key :: 0 <= i < |rows| && key in rows[i] ==> '\n' !in rows[i][key]
    ensures SplitOn(ToCsv(rows, header), '\n')
              == [Join(header, ",")] + (if |rows| == 0 then [""] else seq(|rows|, i requires 0 <= i < |rows| => RowLine(rows[i], header))) + [""]
  {
    var lines := seq(|rows|, i requires 0 <= i < |rows| => RowLine(rows[i], header));
    forall i | 0 <= i < |rows| ensures '\n' !in lines[i] {
      JoinAvoids(seq(|header|, j requires 0 <= j < |header| => Cell(rows[i], header[j])), ",", '\n');
    }
    JoinAvoids(header, ",", '\n');
    var all := [Join(header, ",")] + (if |rows| == 0 then [""] else lines) + [""];
    if |rows| == 0 {
      assert all[1..] == ["", ""];
      assert Join(all[1..], "\n") == "" + "\n" + "";
    } else {
      assert all[1..] == lines + [""];
      JoinAppendLast(lines, "\n");
    }
    assert Join(all, "\n") == ToCsv(rows, header);
    SplitOnJoin(all, '\n');
  }

  lemma {:induction false} JoinAppendLast(xs: seq<string>, sep: string)
    requires |xs| >= 1
    ensures Join(xs + [""], sep) == Join(xs, sep) + sep
  {
    if |xs| == 1 {
      assert (xs + [""])[1..] == [""];
    } else {
      assert (xs + [""])[1..] == xs[1..] + [""];
      JoinAppendLast(xs[1..], sep);
    }
  }
}
