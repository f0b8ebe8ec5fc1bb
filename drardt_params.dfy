/** The DRARDT druggability parameters: the per-source scores, the text
    processing behind the STRING interactor count, the KEGG pathway count and
    the UniProt 3D-structure count, and the final DRARDT score. The web
    requests are left out; their response text or decoded JSON is an
    argument. */
module DrardtParams {
  import opened PyText
  import opened UniprotXrefs

  // ---------------------------------------------------------------------
  // Threshold scores

  /** `get_publication_count_score` */
  function PublicationCountScore(pubCount: int): (score: int)
    ensures 1 <= score <= 4
  {
    if pubCount <= 50 then 1
    else if pubCount <= 100 then 2
    else if pubCount <= 200 then 3
    else 4
  }

  /** More publications never lower the score. */
  lemma PublicationCountScoreMonotone(a: int, b: int)
    requires a <= b
    ensures PublicationCountScore(a) <= PublicationCountScore(b)
  {
  }

  /** The score steps up exactly after 50, 100 and 200 publications. */
  lemma PublicationCountScoreSteps(n: int)
    ensures PublicationCountScore(n) == 1 <==> n <= 50
    ensures PublicationCountScore(n) == 2 <==> 50 < n <= 100
    ensures PublicationCountScore(n) == 3 <==> 100 < n <= 200
    ensures PublicationCountScore(n) == 4 <==> 200 < n
  {
  }

  /** `get_interactors_score` */
  function InteractorsScore(count: int): (score: int)
    ensures 1 <= score <= 4
  {
    if count < 2 then 1
    else if count < 4 then 2
    else if count <= 6 then 3
    else 4
  }

  /** More interactors never lower the score. */
  lemma InteractorsScoreMonotone(a: int, b: int)
    requires a <= b
    ensures InteractorsScore(a) <= InteractorsScore(b)
  {
  }

  /** The score steps up exactly at 2, 4 and 7 interactors. */
  lemma InteractorsScoreSteps(n: int)
    ensures InteractorsScore(n) == 1 <==> n < 2
    ensures InteractorsScore(n) == 2 <==> 2 <= n < 4
    ensures InteractorsScore(n) == 3 <==> 4 <= n <= 6
    ensures InteractorsScore(n) == 4 <==> 6 < n
  {
  }

  /** `get_KEGG_score` */
  function KeggScore(pathways: int): (score: int)
    ensures 1 <= score <= 3
  {
    if pathways < 1 then 1
    else if pathways < 2 then 2
    else 3
  }

  /** The score is 1 with no pathway, 2 with one and 3 with more; more
      pathways never lower it. */
  lemma KeggScoreSteps(n: int, m: int)
    ensures KeggScore(n) == 1 <==> n < 1
    ensures KeggScore(n) == 2 <==> n == 1
    ensures KeggScore(n) == 3 <==> n > 1
    ensures n <= m ==> KeggScore(n) <= KeggScore(m)
  {
  }

  /** The `PDB_score` part of `get_uniprot_3d`. */
  function PdbScore(pdbCount: int): (score: int)
    ensures 1 <= score <= 4
  {
    if pdbCount < 1 then 1
    else if pdbCount <= 3 then 2
    else if pdbCount <= 4 then 3
    else 4
  }

  /** No structure scores 1, one to three score 2, four score 3 and five or
      more score 4; more structures never lower the score. */
  lemma PdbScoreSteps(n: nat, m: nat)
    ensures PdbScore(n) == 1 <==> n == 0
    ensures PdbScore(n) == 2 <==> 1 <= n <= 3
    ensures PdbScore(n) == 3 <==> n == 4
    ensures PdbScore(n) == 4 <==> n >= 5
    ensures n <= m ==> PdbScore(n) <= PdbScore(m)
  {
  }

  /** `get_AF2_score`: `None` stands for Python's `None`. */
  function AF2Score(prediction: Option<string>): (score: int)
    ensures score == 2 <==> prediction.Some?
    ensures score == 1 <==> prediction.None?
  {
    if prediction.Some? then 2 else 1
  }

  /** `calculate_DRARDT_score`: the sum of the five scores bucketed into 0..3. */
  function DrardtScore(pub: int, interactors: int, kegg: int, pdb: int, af2: int): (score: int)
    ensures 0 <= score <= 3
  {
    var sum := pub + interactors + kegg + pdb + af2;
    if sum < 8 then 0
    else if sum < 11 then 1
    else if sum < 14 then 2
    else 3
  }

  /** The DRARDT score only depends on the sum, and a larger sum never
      lowers it. */
  lemma DrardtScoreMonotone(a: seq<int>, b: seq<int>)
    requires |a| == 5 && |b| == 5
    requires a[0] + a[1] + a[2] + a[3] + a[4] <= b[0] + b[1] + b[2] + b[3] + b[4]
    ensures DrardtScore(a[0], a[1], a[2], a[3], a[4]) <= DrardtScore(b[0], b[1], b[2], b[3], b[4])
  {
  }

  /** Raising any single score never lowers the DRARDT score. */
  lemma DrardtScoreMonotoneEach(pub: int, interactors: int, kegg: int, pdb: int, af2: int, d: nat)
    ensures DrardtScore(pub, interactors, kegg, pdb, af2) <= DrardtScore(pub + d, interactors, kegg, pdb, af2)
    ensures DrardtScore(pub, interactors, kegg, pdb, af2) <= DrardtScore(pub, interactors + d, kegg, pdb, af2)
    ensures DrardtScore(pub, interactors, kegg, pdb, af2) <= DrardtScore(pub, interactors, kegg + d, pdb, af2)
    ensures DrardtScore(pub, interactors, kegg, pdb, af2) <= DrardtScore(pub, interactors, kegg, pdb + d, af2)
    ensures DrardtScore(pub, interactors, kegg, pdb, af2) <= DrardtScore(pub, interactors, kegg, pdb, af2 + d)
  {
  }

  /** With every parameter at its lowest score (5) the DRARDT score is 0 and
      with every one at its highest (17) it is 3. */
  lemma DrardtScoreExtremes()
    ensures DrardtScore(PublicationCountScore(0), InteractorsScore(0), KeggScore(0), PdbScore(0),
                        AF2Score(None)) == 0
    ensures DrardtScore(PublicationCountScore(201), InteractorsScore(7), KeggScore(2), PdbScore(5),
                        AF2Score(Some(""))) == 3
  {
  }

  // ---------------------------------------------------------------------
  // KEGG pathways

  /** `len(text.split('\n')) - 1` in `get_kegg_pathways`. */
  /** The subtraction never goes below zero: the count is the number of
      newline characters of the response. */
  function KeggPathwayCount(text: string): (n: nat)
    ensures n == CountChar(text, '\n')
  {
    SplitOnLength(text, '\n');
    |SplitOn(text, '\n')| - 1
  }

  // ---------------------------------------------------------------------
  // STRING interactors

  /** The confidence above which an interaction is kept. */
  const ScoreThreshold: real := 0.7

  /** One line of the STRING response, as far as the filter reads it. */
  datatype InteractionLine =
    | Blank                                     // skipped by `if pathway:`
    | Short                                     // fewer than 11 tab fields
    | Scored(a: string, b: string, score: Option<real>)  // fields 2 and 3, `float(data[10])`

  function ReadLine(line: string): InteractionLine
  {
    if line == [] then Blank
    else
      var data := SplitOn(line, '\t');
      if |data| < 11 then Short else Scored(data[2], data[3], PyFloat(data[10]))
  }

  /** Every line read, in order. */
  function ReadLines(lines: seq<string>): (ls: seq<InteractionLine>)
    ensures |ls| == |lines|
  {
    if lines == [] then [] else [ReadLine(lines[0])] + ReadLines(lines[1..])
  }

  lemma {:induction false} ReadLinesAt(lines: seq<string>, i: int)
    requires 0 <= i < |lines|
    ensures ReadLines(lines)[i] == ReadLine(lines[i])
  {
    if i > 0 {
      ReadLinesAt(lines[1..], i - 1);
    }
  }

  lemma UnionNothing(r: Result<set<string>>)
    ensures Union({}, r) == r
  {
    if r.Ok? {
      assert {} + r.value == r.value;
    }
  }

  /** The partners one line contributes: `data[10]` past the end raises
      IndexError and a field that does not convert raises ValueError. */
  function LinePartners(l: InteractionLine, gene: string): Result<set<string>>
  {
    match l
    case Blank => Ok({})
    case Short => Raises(IndexError)
    case Scored(a, b, score) =>
      match score
      case None => Raises(ValueError)
      case Some(x) => Ok(if x > ScoreThreshold then Named([a, b], gene) else {})
  }

  /** The names among `proteins` other than `gene`. */
  function Named(proteins: seq<string>, gene: string): set<string>
  {
    set p | p in proteins && p != gene
  }

  /** The inner loop over `data[2:4]`: adds every name but `gene`. */
  method AddPartners(acc: set<string>, proteins: seq<string>, gene: string) returns (r: set<string>)
    ensures r == acc + Named(proteins, gene)
  {
    r := acc;
    for k := 0 to |proteins|
      invariant r == acc + Named(proteins[..k], gene)
    {
      var protein := proteins[k];
      if protein != gene {
        r := r + {protein};
      }
      assert Named(proteins[..k + 1], gene) ==
        Named(proteins[..k], gene) + (if protein != gene then {protein} else {}) by {
        assert proteins[..k + 1] == proteins[..k] + [protein];
      }
    }
    assert proteins[..|proteins|] == proteins;
  }

  /** Adds the names already collected to what the remaining lines give. */
  function Union(acc: set<string>, rest: Result<set<string>>): Result<set<string>>
  {
    match rest
    case Ok(s) => Ok(acc + s)
    case Raises(e) => Raises(e)
  }

  /** The set of partners collected from the lines; the first line that
      raises ends the scan. */
  function Partners(ls: seq<InteractionLine>, gene: string): Result<set<string>>
  {
    if ls == [] then Ok({})
    else
      match LinePartners(ls[0], gene)
      case Raises(e) => Raises(e)
      case Ok(s) => Union(s, Partners(ls[1..], gene))
  }

  /** What `get_string_interactors` returns: the number of partners and the
      partners themselves (the list order of `list(set)` is not modelled). */
  datatype Interactors = Interactors(count: nat, names: set<string>)

  /** The lines of `response.text.strip().split('\n')`. */
  function ResponseLines(text: string): seq<string>
  {
    SplitOn(Strip(text), '\n')
  }

  function StringInteractors(text: string, gene: string): Result<Interactors>
  {
    match Partners(ReadLines(ResponseLines(text)), gene)
    case Ok(s) => Ok(Interactors(|s|, s))
    case Raises(e) => Raises(e)
  }

  /** The filtering loop of `get_string_interactors`. */
  method GetStringInteractors(text: string, gene: string) returns (r: Result<Interactors>)
    ensures r == StringInteractors(text, gene)
  {
    var pathways := ResponseLines(text);
    var filtered: set<string> := {};
    var i := 0;
    assert pathways[0..] == pathways;
    UnionNothing(Partners(ReadLines(pathways), gene));
    while i < |pathways|
      invariant 0 <= i <= |pathways|
      invariant Partners(ReadLines(pathways), gene) == Union(filtered, Partners(ReadLines(pathways[i..]), gene))
    {
      var step := FilterLine(pathways[i], gene, filtered);
      if step.Raises? {
        ScanStops(pathways, i, gene, filtered);
        return Raises(step.exc);
      }
      ScanGoesOn(pathways, i, gene, filtered, step.value);
      filtered := step.value;
      i := i + 1;
    }
    assert pathways[i..] == [];
    assert Partners(ReadLines(pathways[i..]), gene) == Ok({});
    assert filtered + {} == filtered;
    return Ok(Interactors(|filtered|, filtered));
  }

  /** The body of the loop for one line: the names collected so far with the
      line's partners added, or the exception the line raises. */
  method FilterLine(pathway: string, gene: string, filtered: set<string>) returns (r: Result<set<string>>)
    ensures r == Union(filtered, LinePartners(ReadLine(pathway), gene))
  {
    if pathway == [] {
      assert filtered + {} == filtered;
      return Ok(filtered);
    }
    var data := SplitOn(pathway, '\t');
    if |data| < 11 {
      return Raises(IndexError);
    }
    var experimentalScore := PyFloat(data[10]);
    if experimentalScore.None? {
      return Raises(ValueError);
    }
    if experimentalScore.value > ScoreThreshold {
      assert data[2..4] == [data[2], data[3]];
      var added := AddPartners(filtered, data[2..4], gene);
      return Ok(added);
    }
    assert filtered + {} == filtered;
    return Ok(filtered);
  }

  /** Line `i` reads as `l`; the lines after it follow. */
  lemma ReadsNext(lines: seq<string>, i: nat)
    requires i < |lines|
    ensures ReadLines(lines[i..]) == [ReadLine(lines[i])] + ReadLines(lines[i + 1..])
  {
    assert lines[i..][1..] == lines[i + 1..];
  }

  /** A line that raises ends the whole scan with its exception. */
  lemma ScanStops(lines: seq<string>, i: nat, gene: string, acc: set<string>)
    requires i < |lines| && LinePartners(ReadLine(lines[i]), gene).Raises?
    requires Partners(ReadLines(lines), gene) == Union(acc, Partners(ReadLines(lines[i..]), gene))
    ensures Partners(ReadLines(lines), gene) == LinePartners(ReadLine(lines[i]), gene)
  {
    ReadsNext(lines, i);
  }

  /** A line that does not raise adds its partners to those collected. */
  lemma ScanGoesOn(lines: seq<string>, i: nat, gene: string, acc: set<string>, acc': set<string>)
    requires i < |lines| && Union(acc, LinePartners(ReadLine(lines[i]), gene)) == Ok(acc')
    requires Partners(ReadLines(lines), gene) == Union(acc, Partners(ReadLines(lines[i..]), gene))
    ensures Partners(ReadLines(lines), gene) == Union(acc', Partners(ReadLines(lines[i + 1..]), gene))
  {
    ReadsNext(lines, i);
    var s := LinePartners(ReadLine(lines[i]), gene).value;
    var rest := Partners(ReadLines(lines[i + 1..]), gene);
    if rest.Ok? {
      assert acc + (s + rest.value) == (acc + s) + rest.value;
    }
  }

  /** A line that adds partners: it has a score above the threshold and the
      name is one of its two protein columns other than `gene`. */
  predicate Contributes(l: InteractionLine, gene: string, p: string)
  {
    l.Scored? && l.score.Some? && l.score.value > ScoreThreshold && p in [l.a, l.b] && p != gene
  }

  lemma {:induction false} PartnersMembers(ls: seq<InteractionLine>, gene: string, p: string)
    requires Partners(ls, gene).Ok?
    ensures p in Partners(ls, gene).value <==> exists i :: 0 <= i < |ls| && Contributes(ls[i], gene, p)
  {
    if ls != [] {
      PartnersMembers(ls[1..], gene, p);
      if exists i :: 0 <= i < |ls| && Contributes(ls[i], gene, p) {
        var i :| 0 <= i < |ls| && Contributes(ls[i], gene, p);
        if i > 0 {
          assert Contributes(ls[1..][i - 1], gene, p);
        }
      }
      if exists i :: 0 <= i < |ls[1..]| && Contributes(ls[1..][i], gene, p) {
        var i :| 0 <= i < |ls[1..]| && Contributes(ls[1..][i], gene, p);
        assert Contributes(ls[i + 1], gene, p);
      }
    }
  }

  /** The names returned are exactly the protein columns, other than the
      queried gene, of the non-empty lines scoring above 0.7; the count is
      their number, and the gene itself is never listed. */
  lemma InteractorsMeaning(text: string, gene: string, p: string)
    requires StringInteractors(text, gene).Ok?
    ensures StringInteractors(text, gene).value.count == |StringInteractors(text, gene).value.names|
    ensures p in StringInteractors(text, gene).value.names <==>
      exists i :: 0 <= i < |ResponseLines(text)| && Contributes(ReadLine(ResponseLines(text)[i]), gene, p)
    ensures gene !in StringInteractors(text, gene).value.names
  {
    var lines := ResponseLines(text);
    var ls := ReadLines(lines);
    PartnersMembers(ls, gene, p);
    PartnersMembers(ls, gene, gene);
    forall i | 0 <= i < |lines|
      ensures ls[i] == ReadLine(lines[i])
    {
      ReadLinesAt(lines, i);
    }
  }

  /** A non-empty first line with fewer than eleven tab-separated fields
      makes the whole call raise IndexError. */
  lemma ShortLineRaises(text: string, gene: string)
    requires |ResponseLines(text)| > 0
    requires ResponseLines(text)[0] != [] && |SplitOn(ResponseLines(text)[0], '\t')| < 11
    ensures StringInteractors(text, gene) == Raises(IndexError)
  {
  }

  // ---------------------------------------------------------------------
  // UniProt 3D structures

  /** The text shown when no PDB structure is listed. */
  const NoStructures := "_No experimental 3D structures found_"

  /** The line describing one PDB entry; an entry with fewer than three
      properties raises IndexError when the first, second or third one is
      read. */
  function Describe(x: XRef): (r: Result<string>)
    ensures r.Ok? <==> |x.properties| >= 3
    ensures r.Ok? ==> StartsWith(r.value, "PDB ID: " + x.id)
  {
    if |x.properties| < 3 then Raises(IndexError)
    else
      var head := "PDB ID: " + x.id;
      var line := head + ", Method: " + x.properties[0] + ", Resolution: " + x.properties[1]
        + ", Chains: " + x.properties[2];
      assert line[..|head|] == head;
      Ok(line)
  }

  /** Prepends the lines already built to what the remaining entries give. */
  function PrependLines(done: seq<string>, rest: Result<seq<string>>): Result<seq<string>>
  {
    match rest
    case Ok(ds) => Ok(done + ds)
    case Raises(e) => Raises(e)
  }

  lemma PrependNothing(r: Result<seq<string>>)
    ensures PrependLines([], r) == r
  {
    if r.Ok? {
      assert [] + r.value == r.value;
    }
  }

  /** The lines describing the PDB entries, in order; other databases are
      skipped. */
  function Descriptions(xrefs: seq<XRef>): Result<seq<string>>
  {
    if xrefs == [] then Ok([])
    else if xrefs[0].database != "PDB" then Descriptions(xrefs[1..])
    else
      match Describe(xrefs[0])
      case Raises(e) => Raises(e)
      case Ok(d) => PrependLines([d], Descriptions(xrefs[1..]))
  }

  /** The PDB entries, in order. */
  function PdbEntries(xrefs: seq<XRef>): (ps: seq<XRef>)
    ensures |ps| <= |xrefs|
    ensures forall k :: 0 <= k < |ps| ==> ps[k].database == "PDB"
  {
    if xrefs == [] then []
    else if xrefs[0].database == "PDB" then [xrefs[0]] + PdbEntries(xrefs[1..])
    else PdbEntries(xrefs[1..])
  }

  /** Every entry has the three properties the description reads. */
  predicate AllDescribable(ps: seq<XRef>)
  {
    forall k :: 0 <= k < |ps| ==> |ps[k].properties| >= 3
  }

  lemma AllDescribableCons(x: XRef, ps: seq<XRef>)
    ensures AllDescribable([x] + ps) <==> |x.properties| >= 3 && AllDescribable(ps)
  {
    var xs := [x] + ps;
    assert xs[0] == x;
    assert forall k :: 0 <= k < |ps| ==> ps[k] == xs[k + 1];
  }

  /** The lines exist exactly when every PDB entry has at least three
      properties. */
  lemma {:induction false} DescriptionsOk(xrefs: seq<XRef>)
    ensures Descriptions(xrefs).Ok? <==> AllDescribable(PdbEntries(xrefs))
  {
    if xrefs != [] {
      DescriptionsOk(xrefs[1..]);
      if xrefs[0].database == "PDB" {
        AllDescribableCons(xrefs[0], PdbEntries(xrefs[1..]));
      }
    }
  }

  /** The lines are one per PDB entry, in order, each describing that entry. */
  lemma {:induction false} DescriptionsLines(xrefs: seq<XRef>)
    requires Descriptions(xrefs).Ok?
    ensures |Descriptions(xrefs).value| == |PdbEntries(xrefs)|
    ensures forall k :: 0 <= k < |PdbEntries(xrefs)| ==>
      Describe(PdbEntries(xrefs)[k]) == Ok(Descriptions(xrefs).value[k])
  {
    if xrefs != [] {
      DescriptionsLines(xrefs[1..]);
      var ps := PdbEntries(xrefs);
      var tail := PdbEntries(xrefs[1..]);
      if xrefs[0].database == "PDB" {
        assert forall k :: 1 <= k < |ps| ==> ps[k] == tail[k - 1];
      }
    }
  }

  /** `data['results'][0]['uniProtKBCrossReferences']` when the guard holds,
      the empty list when it does not; a response without `results` raises
      KeyError. */
  function StructureCrossReferences(data: SearchResponse): (r: Result<seq<XRef>>)
    ensures r.Raises? <==> data.results.None?
    ensures r.Raises? ==> r.exc == KeyError
    ensures r.Ok? && PdbCrossReferences(data).Some? ==> r.value == PdbCrossReferences(data).value
    ensures r.Ok? && PdbCrossReferences(data).None? ==> r.value == []
  {
    match data.results
    case None => Raises(KeyError)
    case Some(hits) =>
      Ok(if |hits| > 0 && hits[0].crossReferences.Some? then hits[0].crossReferences.value else [])
  }

  /** What `get_uniprot_3d` returns: the PDB count, the lines to show and
      the PDB score. */
  datatype Structures = Structures(pdbCount: nat, structures: seq<string>, pdbScore: int)

  function Uniprot3d(data: SearchResponse): Result<Structures>
  {
    match StructureCrossReferences(data)
    case Raises(e) => Raises(e)
    case Ok(xrefs) =>
      match Descriptions(xrefs)
      case Raises(e) => Raises(e)
      case Ok(ds) => Ok(Structures(|ds|, if |ds| == 0 then [NoStructures] else ds, PdbScore(|ds|)))
  }

  /** The counting loop of `get_uniprot_3d`. */
  method GetUniprot3d(data: SearchResponse) returns (r: Result<Structures>)
    ensures r == Uniprot3d(data)
  {
    var structures: seq<string> := [];
    var pdbCount := 0;
    if data.results.None? {
      return Raises(KeyError);
    }
    var hits := data.results.value;
    if |hits| > 0 && hits[0].crossReferences.Some? {
      var pdbStructures := hits[0].crossReferences.value;
      assert pdbStructures[0..] == pdbStructures;
      PrependNothing(Descriptions(pdbStructures));
      for i := 0 to |pdbStructures|
        invariant pdbCount == |structures|
        invariant Descriptions(pdbStructures) == PrependLines(structures, Descriptions(pdbStructures[i..]))
      {
        var pdb := pdbStructures[i];
        DescriptionsStep(pdbStructures, i, structures);
        if pdb.database == "PDB" {
          pdbCount := pdbCount + 1;
          if |pdb.properties| < 3 {
            return Raises(IndexError);
          }
          var structureInfo := "PDB ID: " + pdb.id + ", Method: " + pdb.properties[0]
            + ", Resolution: " + pdb.properties[1] + ", Chains: " + pdb.properties[2];
          structures := structures + [structureInfo];
        }
      }
      assert pdbStructures[|pdbStructures|..] == [];
      assert structures + [] == structures;
    }
    assert Descriptions(StructureCrossReferences(data).value) == Ok(structures);
    if pdbCount == 0 {
      assert structures + [NoStructures] == [NoStructures];
      structures := structures + [NoStructures];
    }
    var score := 0;
    if pdbCount < 1 {
      score := 1;
    } else if pdbCount <= 3 {
      score := 2;
    } else if pdbCount <= 4 {
      score := 3;
    } else {
      score := 4;
    }
    return Ok(Structures(pdbCount, structures, score));
  }

  /** One entry of the loop: skipped, raising, or adding its line. */
  lemma DescriptionsStep(xrefs: seq<XRef>, i: nat, done: seq<string>)
    requires i < |xrefs|
    requires Descriptions(xrefs) == PrependLines(done, Descriptions(xrefs[i..]))
    ensures xrefs[i].database != "PDB" ==>
      Descriptions(xrefs) == PrependLines(done, Descriptions(xrefs[i + 1..]))
    ensures xrefs[i].database == "PDB" && |xrefs[i].properties| < 3 ==>
      Descriptions(xrefs) == Raises(IndexError)
    ensures xrefs[i].database == "PDB" && |xrefs[i].properties| >= 3 ==>
      Descriptions(xrefs) == PrependLines(done + [Describe(xrefs[i]).value], Descriptions(xrefs[i + 1..]))
  {
    assert xrefs[i..][1..] == xrefs[i + 1..];
    var rest := Descriptions(xrefs[i + 1..]);
    if rest.Ok? && xrefs[i].database == "PDB" && |xrefs[i].properties| >= 3 {
      assert done + ([Describe(xrefs[i]).value] + rest.value) ==
        (done + [Describe(xrefs[i]).value]) + rest.value;
    }
  }

  /** The count is the number of PDB entries, the lines are one per PDB entry
      or the single placeholder when there is none, and the score is the PDB
      score of the count. */
  lemma Uniprot3dMeaning(data: SearchResponse)
    requires Uniprot3d(data).Ok?
    ensures StructureCrossReferences(data).Ok?
    ensures Uniprot3d(data).value.pdbCount == |PdbEntries(StructureCrossReferences(data).value)|
    ensures Uniprot3d(data).value.pdbCount == 0 <==> Uniprot3d(data).value.structures == [NoStructures]
    ensures |Uniprot3d(data).value.structures| == if Uniprot3d(data).value.pdbCount == 0 then 1 else Uniprot3d(data).value.pdbCount
    ensures Uniprot3d(data).value.pdbScore == PdbScore(Uniprot3d(data).value.pdbCount)
  {
    var xrefs := StructureCrossReferences(data).value;
    DescriptionsLines(xrefs);
    var ds := Descriptions(xrefs).value;
    if |ds| > 0 {
      var d0 := Describe(PdbEntries(xrefs)[0]);
      assert StartsWith(ds[0], "PDB ID: " + PdbEntries(xrefs)[0].id);
      assert ds[0][0] == 'P';
      assert ds != [NoStructures] by {
        if |ds| == 1 {
          assert NoStructures[0] == '_';
        }
      }
    }
  }

  /** A response without `results` raises KeyError; one whose `results` is
      empty or lacks cross-references scores 1 and shows the placeholder. */
  lemma Uniprot3dWithoutEntries(hits: seq<Hit>)
    requires |hits| == 0 || hits[0].crossReferences.None?
    ensures Uniprot3d(SearchResponse(None)) == Raises(KeyError)
    ensures Uniprot3d(SearchResponse(Some(hits))) == Ok(Structures(0, [NoStructures], 1))
  {
  }

  // ---------------------------------------------------------------------
  // AlphaFold prediction

  /** `get_alphafold_prediction` as written: the entry URL for status 200
      and a message string otherwise; it never returns `None`. */
  function AlphaFoldPrediction(statusCode: int, uniprotId: string): (r: string)
    ensures r != ""
    ensures r == "No AlphaFold prediction found" <==> statusCode != 200
    ensures statusCode == 200 ==> StartsWith(r, "https://alphafold.ebi.ac.uk/entry/")
  {
    if statusCode == 200 then "https://alphafold.ebi.ac.uk/entry/" + uniprotId
    else "No AlphaFold prediction found"
  }

  /** Fed to `get_AF2_score`, the message string counts as a prediction, so
      the AlphaFold score is 2 even for a 404 response. */
  lemma AF2ScoreIgnoresStatus(statusCode: int, uniprotId: string)
    ensures AF2Score(Some(AlphaFoldPrediction(statusCode, uniprotId))) == 2
    ensures AF2Score(Some(AlphaFoldPrediction(404, uniprotId))) == 2
  {
  }

  /** The evidently intended prediction: `None` when there is none. */
  function AlphaFoldPredictionOrNone(statusCode: int, uniprotId: string): (r: Option<string>)
    ensures r.Some? ==> r.value == AlphaFoldPrediction(statusCode, uniprotId)
  {
    if statusCode == 200 then Some(AlphaFoldPrediction(statusCode, uniprotId)) else None
  }

  /** With the intended prediction the AlphaFold score is 2 exactly when the
      prediction exists. */
  lemma AF2ScoreReflectsPrediction(statusCode: int, uniprotId: string)
    ensures AF2Score(AlphaFoldPredictionOrNone(statusCode, uniprotId)) == 2 <==> statusCode == 200
    ensures AF2Score(AlphaFoldPredictionOrNone(statusCode, uniprotId)) == 1 <==> statusCode != 200
  {
  }

  /** The DRARDT score of a gene from its publication count, interactor
      count, KEGG pathway count, PDB count and AlphaFold status, with the
      intended AlphaFold prediction. */
  function GeneScore(pubCount: int, interactors: nat, pathways: int, pdbCount: nat,
                     statusCode: int, uniprotId: string): (score: int)
    ensures 0 <= score <= 3
  {
    DrardtScore(PublicationCountScore(pubCount), InteractorsScore(interactors), KeggScore(pathways),
                PdbScore(pdbCount), AF2Score(AlphaFoldPredictionOrNone(statusCode, uniprotId)))
  }

  /** A gene without an AlphaFold model, with at most 50 publications, at
      most one interactor, no KEGG pathway and at most four PDB entries
      scores 0: its sum is at most 7. The as-written AlphaFold rule adds one
      to the sum, which lifts a gene with four PDB entries to 1. */
  lemma LowEvidenceGeneScore(pubCount: int, interactors: nat, pathways: int, pdbCount: nat,
                             statusCode: int, uniprotId: string)
    requires pubCount <= 50 && interactors <= 1 && pathways <= 0 && pdbCount <= 4
    requires statusCode != 200
    ensures GeneScore(pubCount, interactors, pathways, pdbCount, statusCode, uniprotId) == 0
    ensures pdbCount == 4 ==>
      DrardtScore(PublicationCountScore(pubCount), InteractorsScore(interactors), KeggScore(pathways),
                  PdbScore(pdbCount), AF2Score(Some(AlphaFoldPrediction(statusCode, uniprotId)))) == 1
  {
  }
}
