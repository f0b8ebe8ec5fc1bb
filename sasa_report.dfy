/** Reading a FreeSASA relative-accessibility (RSA) report: the residue lookup
    `get_rsa_for_residue` (over the lines of a report file, and over the
    captured report text) and the record extraction `parse_freesasa_output`.
    Running FreeSASA itself is left out; the report is an argument. */
module SasaReport {
  import opened PyText

  // ---------------------------------------------------------------------
  // Lookup of one residue

  /** The residue number a report line offers to the lookup, or `None` when
      the lookup loop `continue`s past the line: comment and blank lines,
      lines not starting with "RES", lines with fewer than 11 fields or whose
      first field is not exactly "RES", and lines whose fourth field is not
      an integer. */
  function ResidueNumber(line: string): (r: Option<int>)
    ensures r.Some? ==> StartsWith(line, "RES") && |Fields(line)| >= 11
  {
    if StartsWith(line, "REM") || Strip(line) == "" || !StartsWith(line, "RES") then None
    else
      var columns := Fields(line);
      if |columns| >= 11 && columns[0] == "RES" then PyInt(columns[3]) else None
  }

  /** The residue number each line offers, line by line. */
  function Offered(lines: seq<string>): (r: seq<Option<int>>)
    ensures |r| == |lines|
  {
    if lines == [] then [] else [ResidueNumber(lines[0])] + Offered(lines[1..])
  }

  lemma {:induction false} OfferedAt(lines: seq<string>, i: int)
    requires 0 <= i < |lines|
    ensures Offered(lines)[i] == ResidueNumber(lines[i])
  {
    if i > 0 {
      OfferedAt(lines[1..], i - 1);
    }
  }

  lemma {:induction false} OfferedConcat(a: seq<string>, b: seq<string>)
    ensures Offered(a + b) == Offered(a) + Offered(b)
  {
    if a == [] {
      assert a + b == b;
    } else {
      assert (a + b)[0] == a[0] && (a + b)[1..] == a[1..] + b;
      OfferedConcat(a[1..], b);
    }
  }

  /** The index of the first occurrence of `x` in `xs`. */
  function FirstIndex<T(==)>(xs: seq<T>, x: T): (r: Option<nat>)
    ensures r.Some? ==> r.value < |xs| && xs[r.value] == x && forall j :: 0 <= j < r.value ==> xs[j] != x
    ensures r.None? ==> forall j :: 0 <= j < |xs| ==> xs[j] != x
  {
    if xs == [] then None
    else if xs[0] == x then Some(0)
    else
      match FirstIndex(xs[1..], x)
      case Some(k) => Some(k + 1)
      case None => None
  }

  /** The index of the first line offering residue number `n`. */
  function FindResidue(lines: seq<string>, n: int): Option<nat>
  {
    FirstIndex(Offered(lines), Some(n))
  }

  /** `float(columns[5])` of a line that offers a residue number; `None`
      when that conversion raises (the lookup then gives `None`). */
  function RsaField(line: string): Option<real>
    requires ResidueNumber(line).Some?
  {
    PyFloat(Fields(line)[5])
  }

  /** What `get_rsa_for_residue` returns for the lines of a report. */
  function RsaOf(lines: seq<string>, n: int): Option<real>
  {
    match FindResidue(lines, n)
    case Some(i) => OfferedAt(lines, i); RsaField(lines[i])
    case None => None
  }

  /** The line loop of `get_rsa_for_residue` (report read from a file, one
      line at a time). */
  method GetRsaForResidue(lines: seq<string>, residueNumber: int) returns (rsaValue: Option<real>)
    ensures rsaValue == RsaOf(lines, residueNumber)
  {
    rsaValue := None;
    for i := 0 to |lines|
      invariant rsaValue == None
      invariant forall j :: 0 <= j < i ==> Offered(lines)[j] != Some(residueNumber)
    {
      var line := lines[i];
      OfferedAt(lines, i);
      if StartsWith(line, "REM") || Strip(line) == "" || !StartsWith(line, "RES") {
        assert ResidueNumber(line) == None;
        continue;
      }
      var columns := Fields(line);
      if |columns| >= 11 && columns[0] == "RES" {
        var resNumber := PyInt(columns[3]);
        assert ResidueNumber(line) == resNumber;
        if resNumber.None? {
          continue;
        }
        if resNumber.value == residueNumber {
          rsaValue := PyFloat(columns[5]);
          assert FindResidue(lines, residueNumber) == Some(i);
          break;
        }
      }
    }
  }

  /** What the text version of `get_rsa_for_residue` returns: `None` for a
      missing or empty report, otherwise the lookup over its lines. */
  function RsaInOutput(freesasaOutput: Option<string>, n: int): Option<real>
  {
    match freesasaOutput
    case Some(text) => if text != "" then RsaOf(SplitLines(text), n) else None
    case None => None
  }

  /** `get_rsa_for_residue` on the captured report text. */
  method GetRsaForResidueInOutput(freesasaOutput: Option<string>, residueNumber: int) returns (rsaValue: Option<real>)
    ensures freesasaOutput.None? || freesasaOutput == Some("") ==> rsaValue.None?
    ensures rsaValue == RsaInOutput(freesasaOutput, residueNumber)
  {
    rsaValue := None;
    if freesasaOutput.Some? && freesasaOutput.value != "" {
      var lines := SplitLines(freesasaOutput.value);
      rsaValue := GetRsaForResidue(lines, residueNumber);
    }
  }

  lemma {:induction false} FirstIndexAppend<T>(xs: seq<T>, ys: seq<T>, x: T)
    requires FirstIndex(xs, x).Some?
    ensures FirstIndex(xs + ys, x) == FirstIndex(xs, x)
  {
    assert (xs + ys)[0] == xs[0];
    if xs[0] != x {
      assert (xs + ys)[1..] == xs[1..] + ys;
      FirstIndexAppend(xs[1..], ys, x);
    }
  }

  /** The lookup stops at the first line carrying the residue number: what
      follows that line never matters, even a later line with the same
      number (so when the first line's RSA field does not parse, the answer
      stays `None`). */
  lemma StopsAtFirstMatch(before: seq<string>, after: seq<string>, n: int)
    requires FindResidue(before, n).Some?
    ensures RsaOf(before + after, n) == RsaOf(before, n)
  {
    OfferedConcat(before, after);
    FirstIndexAppend(Offered(before), Offered(after), Some(n));
    var i := FindResidue(before, n).value;
    assert (before + after)[i] == before[i];
  }

  lemma {:induction false} FirstIndexSkip<T>(xs: seq<T>, y: T, zs: seq<T>, x: T)
    requires y != x
    ensures FirstIndex(xs + [y] + zs, x) ==
      match FirstIndex(xs + zs, x)
      case Some(k) => Some(if k < |xs| then k else k + 1)
      case None => None
  {
    var with, without := xs + [y] + zs, xs + zs;
    if xs == [] {
      assert with[0] == y && with[1..] == zs == without;
    } else if xs[0] == x {
      assert with[0] == x && without[0] == x;
    } else {
      assert with[0] == xs[0] && without[0] == xs[0];
      assert with[1..] == xs[1..] + [y] + zs;
      assert without[1..] == xs[1..] + zs;
      FirstIndexSkip(xs[1..], y, zs, x);
    }
  }

  lemma OfferedInsert(before: seq<string>, line: string, after: seq<string>)
    ensures Offered(before + [line] + after) == Offered(before) + [ResidueNumber(line)] + Offered(after)
  {
    OfferedConcat(before, [line] + after);
    OfferedConcat([line], after);
    assert Offered([line]) == [ResidueNumber(line)];
    assert before + [line] + after == before + ([line] + after);
  }

  lemma FindResidueSkip(before: seq<string>, line: string, after: seq<string>, n: int)
    requires ResidueNumber(line) != Some(n)
    ensures FindResidue(before + [line] + after, n) ==
      match FindResidue(before + after, n)
      case Some(k) => Some(if k < |before| then k else k + 1)
      case None => None
  {
    OfferedInsert(before, line, after);
    OfferedConcat(before, after);
    FirstIndexSkip(Offered(before), ResidueNumber(line), Offered(after), Some(n));
  }

  /** A line that does not offer residue number `n` never changes the answer
      for `n`, wherever it stands. */
  lemma SkippedLineIrrelevant(before: seq<string>, line: string, after: seq<string>, n: int)
    requires ResidueNumber(line) != Some(n)
    ensures RsaOf(before + [line] + after, n) == RsaOf(before + after, n)
  {
    FindResidueSkip(before, line, after, n);
    var with, without := before + [line] + after, before + after;
    match FindResidue(without, n)
    case Some(k) =>
      if k < |before| {
        assert with[k] == without[k];
      } else {
        assert with[k + 1] == without[k];
      }
    case None =>
  }

  /** Lines the lookup skips never change its answer, wherever they stand:
      comments, blank lines, lines not starting with "RES", lines with at most
      10 fields or another first field, and lines whose residue number is not
      an integer. */
  lemma IgnoredLineIrrelevant(before: seq<string>, line: string, after: seq<string>, n: int)
    requires StartsWith(line, "REM") || Strip(line) == "" || !StartsWith(line, "RES") ||
      |Fields(line)| <= 10 || Fields(line)[0] != "RES" || PyInt(Fields(line)[3]).None?
    ensures RsaOf(before + [line] + after, n) == RsaOf(before + after, n)
  {
    assert ResidueNumber(line) == None;
    SkippedLineIrrelevant(before, line, after, n);
  }

  // ---------------------------------------------------------------------
  // Records of a whole report

  /** One residue row of the report, field by field. */
  datatype Record = Record(
    res: string, chain: string, resNum: int,
    area: real, rsa: real, sidechain: real, mainchain: real,
    nonPolar: real, allPolar: real, relTotal: real)

  /** The lines `parse_freesasa_output` turns into records: they start with
      "RES" and have at least 11 whitespace-separated fields (the first
      field itself is not checked). */
  predicate IsRecordLine(line: string)
  {
    StartsWith(line, "RES") && |Fields(line)| >= 11
  }

  /** `float(c)` of every column in `cs`, or `None` when one of them raises. */
  function FloatColumns(cs: seq<string>): (r: Option<seq<real>>)
    ensures r.Some? ==> |r.value| == |cs|
  {
    if cs == [] then Some([])
    else
      match (PyFloat(cs[0]), FloatColumns(cs[1..]))
      case (Some(x), Some(xs)) => Some([x] + xs)
      case _ => None
  }

  /** The columns convert exactly when each of them does. */
  lemma {:induction false} FloatColumnsSome(cs: seq<string>)
    ensures FloatColumns(cs).Some? <==> forall i :: 0 <= i < |cs| ==> PyFloat(cs[i]).Some?
  {
    if cs != [] {
      FloatColumnsSome(cs[1..]);
      assert forall i :: 1 <= i < |cs| ==> cs[i] == cs[1..][i - 1];
    }
  }

  /** They then convert to their own values, in order. */
  lemma {:induction false} FloatColumnsValues(cs: seq<string>)
    requires FloatColumns(cs).Some?
    ensures forall i :: 0 <= i < |cs| ==> PyFloat(cs[i]) == Some(FloatColumns(cs).value[i])
  {
    if cs != [] {
      FloatColumnsValues(cs[1..]);
      assert forall i :: 1 <= i < |cs| ==> cs[i] == cs[1..][i - 1];
    }
  }

  /** The record of one line, by column index; the residue number or any of
      the seven numeric columns that does not convert raises ValueError. */
  function ToRecord(columns: seq<string>): Result<Record>
    requires |columns| >= 11
  {
    var resNum := PyInt(columns[3]);
    var values := FloatColumns(columns[4..11]);
    if resNum.Some? && values.Some? then
      var v := values.value;
      Ok(Record(columns[2], columns[1], resNum.value, v[0], v[1], v[2], v[3], v[4], v[5], v[6]))
    else Raises(ValueError)
  }

  /** The result of `parse_freesasa_output` on the lines of a report. */
  function RecordsOf(lines: seq<string>): Result<seq<Record>>
  {
    if lines == [] then Ok([])
    else if !IsRecordLine(lines[0]) then RecordsOf(lines[1..])
    else
      match ToRecord(Fields(lines[0]))
      case Raises(e) => Raises(e)
      case Ok(record) =>
        match RecordsOf(lines[1..])
        case Ok(rest) => Ok([record] + rest)
        case Raises(e) => Raises(e)
  }

  /** `data + later`, or the exception raised later. */
  function Prepend(data: seq<Record>, later: Result<seq<Record>>): Result<seq<Record>>
  {
    match later
    case Ok(rest) => Ok(data + rest)
    case Raises(e) => Raises(e)
  }

  lemma PrependNothing(later: Result<seq<Record>>)
    ensures Prepend([], later) == later
  {
    if later.Ok? {
      assert [] + later.value == later.value;
    }
  }

  lemma PrependTwice(data: seq<Record>, more: seq<Record>, later: Result<seq<Record>>)
    ensures Prepend(data, Prepend(more, later)) == Prepend(data + more, later)
  {
    if later.Ok? {
      assert data + (more + later.value) == data + more + later.value;
    }
  }

  /** `parse_freesasa_output`: one record appended per record line, in order. */
  method ParseFreesasaOutput(freesasaOutput: string) returns (df: Result<seq<Record>>)
    ensures df == RecordsOf(SplitLines(freesasaOutput))
  {
    var data: seq<Record> := [];
    var lines := SplitLines(freesasaOutput);
    assert lines[0..] == lines;
    PrependNothing(RecordsOf(lines));
    for i := 0 to |lines|
      invariant RecordsOf(lines) == Prepend(data, RecordsOf(lines[i..]))
    {
      var line := lines[i];
      var later := RecordsOf(lines[i + 1..]);
      assert lines[i..] == [line] + lines[i + 1..];
      assert RecordsOf(lines[i..]) ==
        if IsRecordLine(line) then
          match ToRecord(Fields(line))
          case Raises(e) => Raises(e)
          case Ok(r) => Prepend([r], later)
        else later;
      if StartsWith(line, "RES") {
        var columns := Fields(line);
        if |columns| >= 11 {
          var record := ToRecord(columns);
          if record.Raises? {
            return Raises(record.exc);
          }
          PrependTwice(data, [record.value], later);
          data := data + [record.value];
        }
      }
    }
    assert lines[|lines|..] == [] && data + [] == data;
    df := Ok(data);
  }

  /** The records of the given record lines, in order, or the exception of
      the first one that does not convert. */
  function ConvertAll(recordLines: seq<string>): Result<seq<Record>>
    requires forall k :: 0 <= k < |recordLines| ==> IsRecordLine(recordLines[k])
  {
    if recordLines == [] then Ok([])
    else
      assert IsRecordLine(recordLines[0]);
      match ToRecord(Fields(recordLines[0]))
      case Raises(e) => Raises(e)
      case Ok(r) => Prepend([r], ConvertAll(recordLines[1..]))
  }

  /** The record lines of a report, in order. */
  function RecordLines(lines: seq<string>): (r: seq<string>)
    ensures |r| <= |lines|
    ensures forall k :: 0 <= k < |r| ==> IsRecordLine(r[k])
  {
    if lines == [] then []
    else if IsRecordLine(lines[0]) then [lines[0]] + RecordLines(lines[1..])
    else RecordLines(lines[1..])
  }

  /** Parsing keeps the record lines and converts them, in order. */
  lemma {:induction false} RecordsOfFilter(lines: seq<string>)
    ensures RecordsOf(lines) == ConvertAll(RecordLines(lines))
  {
    if lines != [] {
      RecordsOfFilter(lines[1..]);
      if IsRecordLine(lines[0]) {
        var rl := RecordLines(lines);
        assert rl[0] == lines[0] && rl[1..] == RecordLines(lines[1..]);
      }
    }
  }

  /** Converting succeeds exactly when every line converts, and then yields
      one record per line, in order. */
  lemma {:induction false} ConvertAllMeaning(recordLines: seq<string>)
    requires forall k :: 0 <= k < |recordLines| ==> IsRecordLine(recordLines[k])
    ensures ConvertAll(recordLines).Ok? <==>
      forall k :: 0 <= k < |recordLines| ==> ToRecord(Fields(recordLines[k])).Ok?
    ensures ConvertAll(recordLines).Ok? ==>
      |ConvertAll(recordLines).value| == |recordLines| &&
      forall k :: 0 <= k < |recordLines| ==>
        Ok(ConvertAll(recordLines).value[k]) == ToRecord(Fields(recordLines[k]))
  {
    if recordLines != [] {
      var tail := recordLines[1..];
      ConvertAllMeaning(tail);
      assert forall k :: 1 <= k < |recordLines| ==> recordLines[k] == tail[k - 1];
      if ConvertAll(recordLines).Ok? {
        var recs := ConvertAll(recordLines).value;
        assert recs[1..] == ConvertAll(tail).value;
      }
    }
  }

  /** Parsing succeeds exactly when every record line converts; it then
      yields one record per record line, in the order of the lines. */
  lemma RecordsOfMeaning(lines: seq<string>)
    ensures RecordsOf(lines).Ok? <==>
      forall k :: 0 <= k < |RecordLines(lines)| ==> ToRecord(Fields(RecordLines(lines)[k])).Ok?
    ensures RecordsOf(lines).Ok? ==>
      |RecordsOf(lines).value| == |RecordLines(lines)| &&
      forall k :: 0 <= k < |RecordLines(lines)| ==>
        Ok(RecordsOf(lines).value[k]) == ToRecord(Fields(RecordLines(lines)[k]))
  {
    RecordsOfFilter(lines);
    ConvertAllMeaning(RecordLines(lines));
  }

  /** A line that is not a record line (a header, a remark, or a "RES" line
      with only 10 fields) is skipped wherever it stands, not partly parsed. */
  lemma {:induction false} NonRecordLineSkipped(before: seq<string>, line: string, after: seq<string>)
    requires !IsRecordLine(line)
    ensures RecordsOf(before + [line] + after) == RecordsOf(before + after)
  {
    if before == [] {
      assert (before + [line] + after)[1..] == after;
      assert before + after == after;
    } else {
      assert (before + [line] + after)[1..] == before[1..] + [line] + after;
      assert (before + after)[1..] == before[1..] + after;
      NonRecordLineSkipped(before[1..], line, after);
    }
  }

  /** A "RES" line with exactly 10 fields is ignored by both the parser and
      the lookup. */
  lemma TenFieldLineSkipped(before: seq<string>, line: string, after: seq<string>, n: int)
    requires StartsWith(line, "RES") && |Fields(line)| == 10
    ensures RecordsOf(before + [line] + after) == RecordsOf(before + after)
    ensures RsaOf(before + [line] + after, n) == RsaOf(before + after, n)
  {
    NonRecordLineSkipped(before, line, after);
    IgnoredLineIrrelevant(before, line, after, n);
  }

  // ---------------------------------------------------------------------
  // Lookup and parser agree

  /** The RSA of the first record with residue number `n`. */
  function FirstRsa(records: seq<Record>, n: int): Option<real>
  {
    if records == [] then None
    else if records[0].resNum == n then Some(records[0].rsa)
    else FirstRsa(records[1..], n)
  }

  /** In a report where every record line has "RES" as its first field. */
  predicate MarkerIsFirstField(lines: seq<string>)
  {
    forall i :: 0 <= i < |lines| && IsRecordLine(lines[i]) ==> Fields(lines[i])[0] == "RES"
  }

  /** The line `RESX A ALA 45 1 1 1 1 1 1 1`. The parser keeps a line that
      merely starts with `RES`, while the lookup needs its first field to be
      `RES` itself, so the two disagree on it. */
  const GluedTokens := ["RESX", "A", "ALA", "45", "1", "1", "1", "1", "1", "1", "1"]
  const GluedLine := JoinSpaces(GluedTokens)

  lemma GluedLineFields()
    ensures Fields(GluedLine) == GluedTokens
  {
    forall i | 0 <= i < |GluedTokens| ensures GluedTokens[i] != [] && NoSpace(GluedTokens[i]) {
    }
    FieldsOfJoin(GluedTokens);
  }

  lemma OneConverts()
    ensures PyFloat("1") == Some(1.0)
  {
    assert NatToString(1) == "1";
    FloatOfNat(1);
  }

  lemma GluedAreasConvert()
    ensures FloatColumns(GluedTokens[4..11]).Some?
  {
    var cs := GluedTokens[4..11];
    OneConverts();
    forall i | 0 <= i < |cs|
      ensures PyFloat(cs[i]).Some?
    {
      assert cs[i] == "1";
    }
    FloatColumnsSome(cs);
  }

  lemma GluedNumber()
    ensures PyInt(GluedTokens[3]) == Some(45)
  {
    assert IntToString(45) == "45";
    IntRoundTrip(45);
  }

  lemma GluedColumnsConvert()
    ensures ToRecord(GluedTokens).Ok? && ToRecord(GluedTokens).value.resNum == 45
  {
    GluedAreasConvert();
    GluedNumber();
  }

  lemma GluedLineParses()
    ensures RecordsOf([GluedLine]).Ok?
    ensures |RecordsOf([GluedLine]).value| == 1 && RecordsOf([GluedLine]).value[0].resNum == 45
  {
    GluedLineFields();
    GluedColumnsConvert();
    assert GluedLine[..3] == "RES";
    assert RecordsOf([GluedLine][1..]) == Ok([]);
  }

  lemma GluedMarkerDisagreement()
    ensures IsRecordLine(GluedLine)
    ensures RecordsOf([GluedLine]).Ok? && RecordsOf([GluedLine]).value[0].resNum == 45
    ensures ResidueNumber(GluedLine) == None
    ensures RsaOf([GluedLine], 45) == None
  {
    GluedLineParses();
    GluedLineFields();
    StripBlank(GluedLine);
    assert GluedLine[..3] == "RES";
    assert Offered([GluedLine]) == [ResidueNumber(GluedLine)];
  }

  /** A record line whose first field is "RES" offers its fourth field as
      residue number to the lookup. */
  lemma RecordLineResidue(line: string)
    requires IsRecordLine(line) && Fields(line)[0] == "RES"
    ensures ResidueNumber(line) == PyInt(Fields(line)[3])
  {
    assert line[0] == 'R' && !IsSpace('R');
    StripBlank(line);
    assert !StartsWith(line, "REM") by {
      assert line[..3] == "RES";
    }
  }

  /** A converted record carries the residue number and the RSA column of
      its line. */
  lemma ToRecordColumns(columns: seq<string>)
    requires |columns| >= 11 && ToRecord(columns).Ok?
    ensures PyInt(columns[3]) == Some(ToRecord(columns).value.resNum)
    ensures PyFloat(columns[5]) == Some(ToRecord(columns).value.rsa)
  {
    FloatColumnsValues(columns[4..11]);
    assert columns[4..11][1] == columns[5];
  }

  lemma MarkerIsFirstFieldTail(lines: seq<string>)
    requires lines != [] && MarkerIsFirstField(lines)
    ensures MarkerIsFirstField(lines[1..])
  {
    forall i | 0 <= i < |lines[1..]| && IsRecordLine(lines[1..][i])
      ensures Fields(lines[1..][i])[0] == "RES"
    {
      assert lines[1..][i] == lines[i + 1];
    }
  }

  /** On a report that parses and whose record lines all have `RES` as
      their first field, looking a residue up line by line gives the RSA of
      the first parsed record with that residue number, or `None` when there
      is none. */
  lemma {:induction false} LookupAgreesWithParse(lines: seq<string>, n: int)
    requires RecordsOf(lines).Ok? && MarkerIsFirstField(lines)
    ensures RsaOf(lines, n) == FirstRsa(RecordsOf(lines).value, n)
  {
    if lines != [] {
      var line := lines[0];
      MarkerIsFirstFieldTail(lines);
      LookupAgreesWithParse(lines[1..], n);
      if IsRecordLine(line) {
        RecordLineResidue(line);
        ToRecordColumns(Fields(line));
      }
    }
  }

  // ---------------------------------------------------------------------
  // Round trip: a generated report parses back to its columns

  /** The text columns of one residue row, as a report generator writes
      them (the residue number as an integer). */
  datatype ResidueColumns = ResidueColumns(
    chain: string, res: string, resNum: int,
    area: string, rsa: string, sidechain: string, mainchain: string,
    nonPolar: string, allPolar: string, relTotal: string)

  /** The seven area columns, in report order. */
  function AreaColumns(c: ResidueColumns): seq<string>
  {
    [c.area, c.rsa, c.sidechain, c.mainchain, c.nonPolar, c.allPolar, c.relTotal]
  }

  function Tokens(c: ResidueColumns): seq<string>
  {
    ["RES", c.chain, c.res, IntToString(c.resNum)] + AreaColumns(c)
  }

  /** Every column is a non-empty run without whitespace. */
  predicate Plain(c: ResidueColumns)
  {
    forall t :: t in Tokens(c) ==> t != [] && NoSpace(t)
  }

  /** A plain row whose area columns are decimal numbers. */
  predicate WellFormed(c: ResidueColumns)
  {
    Plain(c) && FloatColumns(AreaColumns(c)).Some?
  }

  function RenderLine(c: ResidueColumns): string
  {
    JoinSpaces(Tokens(c))
  }

  function RenderReport(cs: seq<ResidueColumns>): (lines: seq<string>)
    ensures |lines| == |cs|
  {
    if cs == [] then [] else [RenderLine(cs[0])] + RenderReport(cs[1..])
  }

  /** The record the generator meant to describe. */
  function Intended(c: ResidueColumns): Record
    requires WellFormed(c)
  {
    var v := FloatColumns(AreaColumns(c)).value;
    Record(c.res, c.chain, c.resNum, v[0], v[1], v[2], v[3], v[4], v[5], v[6])
  }

  function IntendedRecords(cs: seq<ResidueColumns>): (records: seq<Record>)
    requires forall i :: 0 <= i < |cs| ==> WellFormed(cs[i])
    ensures |records| == |cs|
  {
    if cs == [] then [] else [Intended(cs[0])] + IntendedRecords(cs[1..])
  }

  lemma RenderLineFields(c: ResidueColumns)
    requires Plain(c)
    ensures StartsWith(RenderLine(c), "RES")
    ensures Fields(RenderLine(c)) == Tokens(c)
  {
    var ts := Tokens(c);
    assert forall i :: 0 <= i < |ts| ==> ts[i] in ts;
    FieldsOfJoin(ts);
    assert RenderLine(c) == "RES" + " " + JoinSpaces(ts[1..]);
  }

  lemma TokensRecord(c: ResidueColumns)
    requires WellFormed(c)
    ensures ToRecord(Tokens(c)) == Ok(Intended(c))
  {
    IntRoundTrip(c.resNum);
    assert Tokens(c)[4..11] == AreaColumns(c);
  }

  /** A generated line is a record line whose record is the intended one. */
  lemma RenderLineRecord(c: ResidueColumns)
    requires WellFormed(c)
    ensures IsRecordLine(RenderLine(c))
    ensures ToRecord(Fields(RenderLine(c))) == Ok(Intended(c))
  {
    RenderLineFields(c);
    TokensRecord(c);
  }

  /** A report of N generated residue lines parses into exactly N records,
      each matching its line column for column. */
  lemma {:induction false} ReportRoundTrip(cs: seq<ResidueColumns>)
    requires forall i :: 0 <= i < |cs| ==> WellFormed(cs[i])
    ensures RecordsOf(RenderReport(cs)) == Ok(IntendedRecords(cs))
  {
    if cs != [] {
      RenderLineRecord(cs[0]);
      ReportRoundTrip(cs[1..]);
      assert RenderReport(cs)[1..] == RenderReport(cs[1..]);
    }
  }

  lemma RsaText()
    ensures PyFloat("62.3") == Some(62.3)
  {
    var s := "62.3";
    StripNoSpace(s);
    assert FindExponent(s) == 4;
    assert s[..4] == s;
    assert Find(s, '.') == 2;
    assert s[..2] + s[3..] == "623";
    assert DecimalValue("623") == Some(623) by {
      assert "623"[..2] == "62";
      assert "62"[..1] == "6";
      assert "6"[..0] == "";
    }
    assert Scale(623.0, -1) == 62.3;
    assert Mantissa(s) == Some(62.3);
  }

  /** The row `RES A ALA 45 55.2 62.3 10.1 45.1 20.2 34.9 62.3`. */
  const Example := ResidueColumns("A", "ALA", 45, "55.2", "62.3", "10.1", "45.1", "20.2", "34.9", "62.3")

  lemma ExamplePlain()
    ensures Plain(Example)
  {
    IntToStringNoSpace(45);
    var ts := Tokens(Example);
    assert ts == ["RES", "A", "ALA", IntToString(45), "55.2", "62.3", "10.1", "45.1", "20.2", "34.9", "62.3"];
    forall t | t in ts ensures t != [] && NoSpace(t) {
    }
  }

  lemma ExampleLineFields()
    ensures StartsWith(RenderLine(Example), "RES")
    ensures Fields(RenderLine(Example)) == Tokens(Example)
  {
    ExamplePlain();
    RenderLineFields(Example);
  }

  lemma ExampleLine()
    ensures ResidueNumber(RenderLine(Example)) == Some(45)
    ensures Fields(RenderLine(Example))[5] == "62.3"
  {
    ExampleLineFields();
    RecordLineResidue(RenderLine(Example));
    IntRoundTrip(45);
  }

  /** The report line of `Example` gives residue 45 an RSA of 62.3. */
  lemma LookupExample()
    ensures RsaOf([RenderLine(Example)], 45) == Some(62.3)
  {
    var line := RenderLine(Example);
    ExampleLine();
    assert Offered([line]) == [ResidueNumber(line)];
    RsaText();
  }
}
