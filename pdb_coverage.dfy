/** `check_pdb_coverage`: is a residue position inside a chain range of a PDB
    cross-reference of the protein? The HTTP request is left out; the
    decoded response is an argument. */
module PdbCoverage {
  import opened PyText
  import opened UniprotXrefs

  /** The three outcomes of the check: `(True, "PDB ID: <id>")`,
      `(False, None)`, and `("No PDB cross-references ...", None)`. */
  datatype Coverage = Covered(structure: string) | NotCovered | NoCrossReferences(message: string)

  /** What one comma-separated piece `chain=start-end` of a chain-range string
      contributes: nothing, a range, or a ValueError from unpacking it. */
  datatype Span = NoRange | Range(start: int, end: int) | Malformed

  function StructureLabel(id: string): string
  {
    "PDB ID: " + id
  }

  function NoCrossReferencesMessage(uniprotId: string): string
  {
    "No PDB cross-references found for UniProt ID: " + uniprotId
  }

  /** A piece is read as a range only when it splits on `=` into exactly two
      parts whose second part contains `-`; that part must then split on `-`
      into exactly two integers, or `start, end = map(int, ...)` raises. */
  function ChainSpan(chain: string): (s: Span)
    ensures '=' !in chain ==> s == NoRange
  {
    var chainParts := SplitOn(chain, '=');
    assert '=' !in chain ==> |chainParts| == 1 by {
      if '=' !in chain {
        SplitOnNoSep(chain, '=');
      }
    }
    if |chainParts| != 2 then NoRange
    else if '-' !in chainParts[1] then NoRange
    else
      var bounds := SplitOn(chainParts[1], '-');
      if |bounds| != 2 then Malformed
      else
        match (PyInt(bounds[0]), PyInt(bounds[1]))
        case (Some(a), Some(b)) => Range(a, b)
        case _ => Malformed
  }

  /** `start <= pos <= end`: both ends included. */
  predicate Covers(span: Span, pos: int)
  {
    span.Range? && span.start <= pos <= span.end
  }

  /** The inner loop over the pieces of one chain-range string. */
  function ScanChains(chains: seq<string>, pos: int): Result<bool>
  {
    if chains == [] then Ok(false)
    else
      match ChainSpan(chains[0])
      case Malformed => Raises(ValueError)
      case Range(a, b) => if a <= pos <= b then Ok(true) else ScanChains(chains[1..], pos)
      case NoRange => ScanChains(chains[1..], pos)
  }

  /** Whether one cross-reference covers `pos`: entries of other databases
      never do; a PDB entry with fewer than three properties raises. */
  function EntryCovers(x: XRef, pos: int): Result<bool>
  {
    if x.database != "PDB" then Ok(false)
    else if |x.properties| < 3 then Raises(IndexError)
    else ScanChains(SplitOn(x.properties[2], ','), pos)
  }

  /** The outer loop: the label reported for the first covering entry. */
  function ScanEntries(xrefs: seq<XRef>, pos: int): Result<Option<string>>
  {
    if xrefs == [] then Ok(None)
    else
      match EntryCovers(xrefs[0], pos)
      case Raises(e) => Raises(e)
      case Ok(covered) =>
        if covered then Ok(Some(StructureLabel(xrefs[0].id))) else ScanEntries(xrefs[1..], pos)
  }

  /** The value `check_pdb_coverage(uniprot_id, pos)` returns or raises. */
  function CoverageOf(uniprotId: string, data: SearchResponse, pos: int): Result<Coverage>
  {
    match PdbCrossReferences(data)
    case None => Ok(NoCrossReferences(NoCrossReferencesMessage(uniprotId)))
    case Some(xrefs) =>
      match ScanEntries(xrefs, pos)
      case Raises(e) => Raises(e)
      case Ok(found) => Ok(if found.Some? then Covered(found.value) else NotCovered)
  }

  /** The nested scan with its two flags and early exits. */
  method CheckPdbCoverage(uniprotId: string, data: SearchResponse, posWt: int) returns (r: Result<Coverage>)
    ensures r == CoverageOf(uniprotId, data, posWt)
  {
    var positionCovered := false;
    var coveredStructure := "";
    var found := PdbCrossReferences(data);
    if found.None? {
      return Ok(NoCrossReferences(NoCrossReferencesMessage(uniprotId)));
    }
    var pdbStructures := found.value;
    for i := 0 to |pdbStructures|
      invariant !positionCovered
      invariant ScanEntries(pdbStructures, posWt) == ScanEntries(pdbStructures[i..], posWt)
    {
      var pdb := pdbStructures[i];
      assert pdbStructures[i..][1..] == pdbStructures[i + 1..];
      if pdb.database == "PDB" {
        var structure := StructureLabel(pdb.id);
        if |pdb.properties| < 3 {
          return Raises(IndexError);
        }
        var chains := SplitOn(pdb.properties[2], ',');
        for j := 0 to |chains|
          invariant !positionCovered
          invariant ScanChains(chains, posWt) == ScanChains(chains[j..], posWt)
        {
          assert chains[j..][1..] == chains[j + 1..];
          var chainParts := SplitOn(chains[j], '=');
          if |chainParts| == 2 {
            var chainRange := chainParts[1];
            if '-' in chainRange {
              var bounds := SplitOn(chainRange, '-');
              if |bounds| != 2 {
                return Raises(ValueError);
              }
              var start, end := PyInt(bounds[0]), PyInt(bounds[1]);
              if start.None? || end.None? {
                return Raises(ValueError);
              }
              if start.value <= posWt <= end.value {
                positionCovered := true;
                coveredStructure := structure;
                break;
              }
            }
          }
        }
      }
      if positionCovered {
        break;
      }
    }
    r := Ok(if positionCovered then Covered(coveredStructure) else NotCovered);
  }

  // ---------------------------------------------------------------------
  // What the scan means

  /** Piece `k` covers `pos` and no piece before it is malformed. */
  predicate CoveringPiece(chains: seq<string>, k: int, pos: int)
  {
    0 <= k < |chains| && Covers(ChainSpan(chains[k]), pos) &&
    forall j :: 0 <= j < k ==> ChainSpan(chains[j]) != Malformed
  }

  lemma {:induction false} ScanChainsCoveredOnlyIf(chains: seq<string>, pos: int)
    requires ScanChains(chains, pos) == Ok(true)
    ensures exists k :: CoveringPiece(chains, k, pos)
  {
    var tail := chains[1..];
    if !Covers(ChainSpan(chains[0]), pos) {
      ScanChainsCoveredOnlyIf(tail, pos);
      var k :| CoveringPiece(tail, k, pos);
      assert chains[k + 1] == tail[k];
      assert forall j :: 1 <= j < k + 1 ==> chains[j] == tail[j - 1];
      assert CoveringPiece(chains, k + 1, pos);
    } else {
      assert CoveringPiece(chains, 0, pos);
    }
  }

  lemma {:induction false} ScanChainsCoveredIf(chains: seq<string>, k: int, pos: int)
    requires CoveringPiece(chains, k, pos)
    ensures ScanChains(chains, pos) == Ok(true)
  {
    if k > 0 {
      var tail := chains[1..];
      assert ChainSpan(chains[0]) != Malformed;
      assert tail[k - 1] == chains[k];
      assert forall j :: 0 <= j < k - 1 ==> tail[j] == chains[j + 1];
      ScanChainsCoveredIf(tail, k - 1, pos);
    }
  }

  /** The pieces of one entry cover `pos` exactly when some piece's range
      contains it and no piece before it is malformed. */
  lemma ScanChainsCovered(chains: seq<string>, pos: int)
    ensures ScanChains(chains, pos) == Ok(true) <==> exists k :: CoveringPiece(chains, k, pos)
  {
    if ScanChains(chains, pos) == Ok(true) {
      ScanChainsCoveredOnlyIf(chains, pos);
    }
    if exists k :: CoveringPiece(chains, k, pos) {
      var k :| CoveringPiece(chains, k, pos);
      ScanChainsCoveredIf(chains, k, pos);
    }
  }

  /** They report "not covered" exactly when no piece covers and none is
      malformed. */
  lemma {:induction false} ScanChainsNotCovered(chains: seq<string>, pos: int)
    ensures ScanChains(chains, pos) == Ok(false) <==>
      forall k :: 0 <= k < |chains| ==> ChainSpan(chains[k]) != Malformed && !Covers(ChainSpan(chains[k]), pos)
  {
    if chains != [] {
      var tail := chains[1..];
      ScanChainsNotCovered(tail, pos);
      assert forall k :: 1 <= k < |chains| ==> chains[k] == tail[k - 1];
    }
  }

  /** Entry `i` covers `pos` and every entry before it was examined
      without covering or raising. */
  predicate CoveringEntry(xrefs: seq<XRef>, i: int, pos: int)
  {
    0 <= i < |xrefs| && EntryCovers(xrefs[i], pos) == Ok(true) &&
    forall j :: 0 <= j < i ==> EntryCovers(xrefs[j], pos) == Ok(false)
  }

  lemma {:induction false} ScanEntriesReportsOnlyIf(xrefs: seq<XRef>, pos: int)
    requires ScanEntries(xrefs, pos).Ok? && ScanEntries(xrefs, pos).value.Some?
    ensures exists i ::
      CoveringEntry(xrefs, i, pos) && ScanEntries(xrefs, pos).value.value == StructureLabel(xrefs[i].id)
  {
    var tail := xrefs[1..];
    if EntryCovers(xrefs[0], pos) != Ok(true) {
      ScanEntriesReportsOnlyIf(tail, pos);
      var i :| CoveringEntry(tail, i, pos) && ScanEntries(tail, pos).value.value == StructureLabel(tail[i].id);
      assert xrefs[i + 1] == tail[i];
      assert forall j :: 1 <= j < i + 1 ==> xrefs[j] == tail[j - 1];
      assert CoveringEntry(xrefs, i + 1, pos);
    } else {
      assert CoveringEntry(xrefs, 0, pos);
    }
  }

  lemma {:induction false} ScanEntriesReportsIf(xrefs: seq<XRef>, i: int, pos: int)
    requires CoveringEntry(xrefs, i, pos)
    ensures ScanEntries(xrefs, pos) == Ok(Some(StructureLabel(xrefs[i].id)))
  {
    if i > 0 {
      var tail := xrefs[1..];
      assert EntryCovers(xrefs[0], pos) == Ok(false);
      assert tail[i - 1] == xrefs[i];
      assert forall j :: 0 <= j < i - 1 ==> tail[j] == xrefs[j + 1];
      ScanEntriesReportsIf(tail, i - 1, pos);
    }
  }

  lemma {:induction false} ScanEntriesNothing(xrefs: seq<XRef>, pos: int)
    ensures ScanEntries(xrefs, pos) == Ok(None) <==>
      forall j :: 0 <= j < |xrefs| ==> EntryCovers(xrefs[j], pos) == Ok(false)
  {
    if xrefs != [] {
      ScanEntriesNothing(xrefs[1..], pos);
      assert forall j :: 1 <= j < |xrefs| ==> xrefs[j] == xrefs[1..][j - 1];
    }
  }

  /** The outer scan reports the label of entry `i` exactly when `i` is the
      first entry that covers `pos` and every entry before it was examined
      without covering or raising; it reports nothing exactly when no entry
      covers and none raises. */
  lemma ScanEntriesMeaning(xrefs: seq<XRef>, pos: int, reported: string)
    ensures ScanEntries(xrefs, pos) == Ok(Some(reported)) <==>
      exists i :: CoveringEntry(xrefs, i, pos) && reported == StructureLabel(xrefs[i].id)
    ensures ScanEntries(xrefs, pos) == Ok(None) <==>
      forall j :: 0 <= j < |xrefs| ==> EntryCovers(xrefs[j], pos) == Ok(false)
  {
    ScanEntriesNothing(xrefs, pos);
    if ScanEntries(xrefs, pos) == Ok(Some(reported)) {
      ScanEntriesReportsOnlyIf(xrefs, pos);
    }
    if exists i :: CoveringEntry(xrefs, i, pos) && reported == StructureLabel(xrefs[i].id) {
      var i :| CoveringEntry(xrefs, i, pos) && reported == StructureLabel(xrefs[i].id);
      ScanEntriesReportsIf(xrefs, i, pos);
    }
  }

  /** Only a PDB entry can be reported, and the one reported is the earliest
      covering entry in list order; later entries are never examined. */
  lemma CoveredByFirstPdbEntry(uniprotId: string, data: SearchResponse, pos: int, reported: string)
    requires CoverageOf(uniprotId, data, pos) == Ok(Covered(reported))
    ensures PdbCrossReferences(data).Some?
    ensures var xrefs := PdbCrossReferences(data).value;
      exists i :: CoveringEntry(xrefs, i, pos) && xrefs[i].database == "PDB" &&
        reported == StructureLabel(xrefs[i].id)
  {
    var xrefs := PdbCrossReferences(data).value;
    ScanEntriesMeaning(xrefs, pos, reported);
    var i :| CoveringEntry(xrefs, i, pos) && reported == StructureLabel(xrefs[i].id);
    assert xrefs[i].database == "PDB";
  }


  /** Conversely, the earliest covering entry is the one reported, whatever
      follows it in the list. */
  lemma FirstCoveringEntryReported(uniprotId: string, xrefs: seq<XRef>, i: nat, rest: seq<XRef>, pos: int)
    requires i < |xrefs| && EntryCovers(xrefs[i], pos) == Ok(true)
    requires forall j :: 0 <= j < i ==> EntryCovers(xrefs[j], pos) == Ok(false)
    ensures CoverageOf(uniprotId, ResponseWith(xrefs + rest), pos) == Ok(Covered(StructureLabel(xrefs[i].id)))
  {
    var all := xrefs + rest;
    assert forall j :: 0 <= j <= i ==> all[j] == xrefs[j];
    ScanEntriesMeaning(all, pos, StructureLabel(xrefs[i].id));
  }

  /** "Not covered" means every cross-reference was examined and none
      covers the position; "no cross-references" means the response had no
      cross-reference list at all. */
  lemma NotCoveredMeaning(uniprotId: string, data: SearchResponse, pos: int)
    ensures CoverageOf(uniprotId, data, pos) == Ok(NotCovered) <==>
      PdbCrossReferences(data).Some? &&
      forall j :: 0 <= j < |PdbCrossReferences(data).value| ==>
        EntryCovers(PdbCrossReferences(data).value[j], pos) == Ok(false)
    ensures CoverageOf(uniprotId, data, pos).Ok? && CoverageOf(uniprotId, data, pos).value.NoCrossReferences? <==>
      PdbCrossReferences(data).None?
  {
    if PdbCrossReferences(data).Some? {
      ScanEntriesMeaning(PdbCrossReferences(data).value, pos, "");
    }
  }

  /** Inserting a piece that contributes no range changes nothing. */
  lemma {:induction false} NoRangePieceIrrelevant(before: seq<string>, piece: string, after: seq<string>, pos: int)
    requires ChainSpan(piece) == NoRange
    ensures ScanChains(before + [piece] + after, pos) == ScanChains(before + after, pos)
  {
    if before == [] {
      assert (before + [piece] + after)[1..] == after;
      assert before + after == after;
    } else {
      assert (before + [piece] + after)[1..] == before[1..] + [piece] + after;
      assert (before + after)[1..] == before[1..] + after;
      NoRangePieceIrrelevant(before[1..], piece, after, pos);
    }
  }

  lemma DigitsExclude(s: string, c: char)
    requires AllDigits(s) && !IsDigit(c)
    ensures c !in s
  {
  }

  lemma ChainSpanOfParts(piece: string, chain: string, range: string, a: string, b: string)
    requires SplitOn(piece, '=') == [chain, range]
    requires '-' in range && SplitOn(range, '-') == [a, b]
    requires PyInt(a).Some? && PyInt(b).Some?
    ensures ChainSpan(piece) == Range(PyInt(a).value, PyInt(b).value)
  {
  }

  /** A piece `chain=start-end` written with non-negative decimal bounds is
      read back as exactly that range. */
  lemma ChainSpanOfRange(chain: string, start: nat, end: nat)
    requires '=' !in chain
    ensures ChainSpan(chain + "=" + NatToString(start) + "-" + NatToString(end)) == Range(start, end)
  {
    var a, b := NatToString(start), NatToString(end);
    var range := a + ['-'] + b;
    DigitsExclude(a, '=');
    DigitsExclude(b, '=');
    DigitsExclude(a, '-');
    DigitsExclude(b, '-');
    assert '=' !in range;
    var piece := chain + "=" + a + "-" + b;
    assert piece == chain + ['='] + range;
    SplitOnConcat(chain, '=', range);
    SplitOnNoSep(range, '=');
    SplitOnConcat(a, '-', b);
    SplitOnNoSep(b, '-');
    assert range[|a|] == '-';
    IntRoundTrip(start);
    IntRoundTrip(end);
    assert IntToString(start) == a && IntToString(end) == b;
    ChainSpanOfParts(piece, chain, range, a, b);
  }

  /** A PDB entry whose chain ranges are the single piece `chain=start-end`
      covers exactly the positions from `start` to `end`, both included. */
  lemma SingleRangeEntry(x: XRef, chain: string, start: nat, end: nat, pos: int)
    requires x.database == "PDB" && |x.properties| == 3
    requires '=' !in chain && ',' !in chain
    requires x.properties[2] == chain + "=" + NatToString(start) + "-" + NatToString(end)
    ensures EntryCovers(x, pos) == Ok(start <= pos <= end)
  {
    var a, b := NatToString(start), NatToString(end);
    var piece := x.properties[2];
    DigitsExclude(a, ',');
    DigitsExclude(b, ',');
    assert piece == chain + ['='] + a + ['-'] + b;
    assert ',' !in piece;
    SplitOnNoSep(piece, ',');
    ChainSpanOfRange(chain, start, end);
    assert ScanChains([piece], pos) == Ok(start <= pos <= end);
  }

  /** A response whose only cross-reference is such an entry: the position
      is covered by it exactly when it lies in the range. */
  lemma SingleEntryCoverage(uniprotId: string, x: XRef, chain: string, start: nat, end: nat, pos: int)
    requires x.database == "PDB" && |x.properties| == 3
    requires '=' !in chain && ',' !in chain
    requires x.properties[2] == chain + "=" + NatToString(start) + "-" + NatToString(end)
    ensures CoverageOf(uniprotId, ResponseWith([x]), pos) ==
      if start <= pos <= end then Ok(Covered(StructureLabel(x.id))) else Ok(NotCovered)
  {
    SingleRangeEntry(x, chain, start, end, pos);
    assert [x][1..] == [];
    if start <= pos <= end {
      assert ScanEntries([x], pos) == Ok(Some(StructureLabel(x.id)));
    } else {
      assert ScanEntries([x], pos) == ScanEntries([], pos);
    }
  }

  /** Both ends of a deposited range count as covered; the position just
      past the end does not. */
  lemma EndpointsCovered(uniprotId: string, x: XRef, chain: string, start: nat, end: nat)
    requires x.database == "PDB" && |x.properties| == 3
    requires '=' !in chain && ',' !in chain && start <= end
    requires x.properties[2] == chain + "=" + NatToString(start) + "-" + NatToString(end)
    ensures CoverageOf(uniprotId, ResponseWith([x]), start) == Ok(Covered(StructureLabel(x.id)))
    ensures CoverageOf(uniprotId, ResponseWith([x]), end) == Ok(Covered(StructureLabel(x.id)))
    ensures CoverageOf(uniprotId, ResponseWith([x]), end + 1) == Ok(NotCovered)
  {
    SingleEntryCoverage(uniprotId, x, chain, start, end, start);
    SingleEntryCoverage(uniprotId, x, chain, start, end, end);
    SingleEntryCoverage(uniprotId, x, chain, start, end, end + 1);
  }

  lemma RangeText()
    ensures "A=10-200" == "A" + "=" + NatToString(10) + "-" + NatToString(200)
  {
    assert NatToString(1) == "1";
    assert NatToString(10) == "10";
    assert NatToString(2) == "2";
    assert NatToString(20) == "20";
    assert NatToString(200) == "200";
  }

  /** One PDB entry of structure 1ABC with chains "A=10-200". */
  const ExampleEntry := XRef("PDB", "1ABC", ["X-ray", "2.00 A", "A=10-200"])

  lemma ExampleEntryRange()
    ensures ExampleEntry.database == "PDB" && |ExampleEntry.properties| == 3
    ensures ExampleEntry.properties[2] == "A" + "=" + NatToString(10) + "-" + NatToString(200)
    ensures StructureLabel(ExampleEntry.id) == "PDB ID: 1ABC"
  {
    RangeText();
  }

  /** Position 150 lies in the deposited range of the example entry. */
  lemma CoverageExampleInside(uniprotId: string)
    ensures CoverageOf(uniprotId, ResponseWith([ExampleEntry]), 150) == Ok(Covered("PDB ID: 1ABC"))
  {
    ExampleEntryRange();
    SingleEntryCoverage(uniprotId, ExampleEntry, "A", 10, 200, 150);
  }

  /** Position 250 lies past it. */
  lemma CoverageExampleOutside(uniprotId: string)
    ensures CoverageOf(uniprotId, ResponseWith([ExampleEntry]), 250) == Ok(NotCovered)
  {
    ExampleEntryRange();
    SingleEntryCoverage(uniprotId, ExampleEntry, "A", 10, 200, 250);
  }

  // ---------------------------------------------------------------------
  // How the web page reads the outcome

  /** The page tests `if is_covered:` on the first element of the returned
      pair, with Python truthiness: the message string of the
      no-cross-references outcome is a non-empty string. */
  function PageReadsAsCovered(c: Coverage): (covered: bool)
    ensures c.NoCrossReferences? ==> (covered <==> |c.message| > 0)
    ensures !c.NoCrossReferences? ==> (covered <==> c.Covered?)
  {
    match c
    case Covered(_) => true
    case NotCovered => false
    case NoCrossReferences(message) => message != ""
  }

  /** A protein without any cross-reference list is announced as covered. */
  lemma NoCrossReferencesReadAsCovered(uniprotId: string, data: SearchResponse, pos: int)
    requires PdbCrossReferences(data).None?
    ensures CoverageOf(uniprotId, data, pos).Ok?
    ensures PageReadsAsCovered(CoverageOf(uniprotId, data, pos).value)
    ensures !CoverageOf(uniprotId, data, pos).value.Covered?
  {
  }

  /** The reading the page intends: covered only by an actual structure. */
  function IsCovered(c: Coverage): (covered: bool)
    ensures covered ==> PageReadsAsCovered(c)
    ensures PageReadsAsCovered(c) && !covered ==> c.NoCrossReferences?
  {
    c.Covered?
  }

  /** With that reading, the page says "covered" exactly when some
      cross-reference covers the position (and none before it raised). */
  lemma IsCoveredMeansSomeEntryCovers(uniprotId: string, data: SearchResponse, pos: int)
    requires CoverageOf(uniprotId, data, pos).Ok?
    ensures IsCovered(CoverageOf(uniprotId, data, pos).value) <==>
      PdbCrossReferences(data).Some? &&
      exists i :: 0 <= i < |PdbCrossReferences(data).value| &&
        EntryCovers(PdbCrossReferences(data).value[i], pos) == Ok(true)
  {
    var c := CoverageOf(uniprotId, data, pos);
    if PdbCrossReferences(data).Some? {
      var xrefs := PdbCrossReferences(data).value;
      if c.value.Covered? {
        ScanEntriesMeaning(xrefs, pos, c.value.structure);
      } else {
        ScanEntriesMeaning(xrefs, pos, "");
      }
    }
  }
}
