/** `calculate_ddG`: the SimBa-NI estimate of the folding free-energy change
    of a missense mutation, from the relative solvent accessibility of the
    wild-type residue and the volume and hydrophobicity tables; together
    with the two small rules the web page applies around it (reading the
    mutation list and position, and the unfolding verdict). */
module SimbaNi {
  import opened PyText

  /** The one-letter code `mutation[0]` of the wild-type residue. */
  function WildType(mutation: string): string
    requires mutation != []
  {
    [mutation[0]]
  }

  /** The one-letter code `mutation[-1]` of the mutant residue. */
  function Mutant(mutation: string): string
    requires mutation != []
  {
    [mutation[|mutation| - 1]]
  }

  /** The SimBa-NI formula over the relative accessibility (in percent) and
      the volume and hydrophobicity differences, mutant minus wild type. */
  function Formula(rsa: real, vdiff: real, hdiff: real): real
  {
    -1.64 + 1.9 * (rsa / 100.0) + 0.49 * (vdiff / 100.0) - 0.12 * hdiff
  }

  /** `calculate_ddG(mutation, RSA, volume_dict, polarity_dict)`: indexing an
      empty mutation raises IndexError and a code missing from either table
      raises KeyError. */
  function CalculateDdG(mutation: string, rsa: real, volume: map<string, real>,
                        polarity: map<string, real>): (r: Result<real>)
    ensures mutation == [] ==> r == Raises(IndexError)
    ensures r.Raises? && mutation != [] ==> r.exc == KeyError
  {
    if mutation == [] then Raises(IndexError)
    else
      var wt := WildType(mutation);
      var mt := Mutant(mutation);
      if mt in volume && wt in volume && mt in polarity && wt in polarity then
        Ok(Formula(rsa, volume[mt] - volume[wt], polarity[mt] - polarity[wt]))
      else Raises(KeyError)
  }

  /** Both codes present in both tables. */
  predicate Known(mutation: string, volume: map<string, real>, polarity: map<string, real>)
  {
    mutation != [] &&
    WildType(mutation) in volume && Mutant(mutation) in volume &&
    WildType(mutation) in polarity && Mutant(mutation) in polarity
  }

  /** The estimate is defined exactly when the mutation is non-empty and both
      of its end codes are in both tables; it is then the formula applied to
      the table differences. */
  lemma DdGDefined(mutation: string, rsa: real, volume: map<string, real>,
                   polarity: map<string, real>)
    ensures CalculateDdG(mutation, rsa, volume, polarity).Ok? <==> Known(mutation, volume, polarity)
    ensures Known(mutation, volume, polarity) ==>
      CalculateDdG(mutation, rsa, volume, polarity).value ==
        -1.64 + 0.019 * rsa
        + 0.0049 * (volume[Mutant(mutation)] - volume[WildType(mutation)])
        - 0.12 * (polarity[Mutant(mutation)] - polarity[WildType(mutation)])
  {
  }

  /** Only the first and last characters of the mutation matter. */
  lemma OnlyEndsMatter(m1: string, m2: string, rsa: real, volume: map<string, real>,
                       polarity: map<string, real>)
    requires m1 != [] && m2 != []
    requires m1[0] == m2[0] && m1[|m1| - 1] == m2[|m2| - 1]
    ensures CalculateDdG(m1, rsa, volume, polarity) == CalculateDdG(m2, rsa, volume, polarity)
  {
  }

  /** A silent substitution leaves only the accessibility term. */
  lemma SameResidue(mutation: string, rsa: real, volume: map<string, real>,
                    polarity: map<string, real>)
    requires Known(mutation, volume, polarity)
    requires WildType(mutation) == Mutant(mutation)
    ensures CalculateDdG(mutation, rsa, volume, polarity) == Ok(-1.64 + 0.019 * rsa)
  {
  }

  /** For a fixed mutation the estimate grows strictly with the accessibility. */
  lemma IncreasingInRsa(mutation: string, rsa1: real, rsa2: real, volume: map<string, real>,
                        polarity: map<string, real>)
    requires Known(mutation, volume, polarity) && rsa1 < rsa2
    ensures CalculateDdG(mutation, rsa1, volume, polarity).value
          < CalculateDdG(mutation, rsa2, volume, polarity).value
  {
  }

  /** The estimates of `XnY` and `YnX` at the same accessibility add up to
      twice the silent-substitution value: the table terms cancel. */
  lemma ReverseMutation(a: char, middle: string, b: char, rsa: real,
                        volume: map<string, real>, polarity: map<string, real>)
    requires [a] in volume && [b] in volume && [a] in polarity && [b] in polarity
    ensures CalculateDdG([a] + middle + [b], rsa, volume, polarity).Ok?
    ensures CalculateDdG([b] + middle + [a], rsa, volume, polarity).Ok?
    ensures CalculateDdG([a] + middle + [b], rsa, volume, polarity).value
          + CalculateDdG([b] + middle + [a], rsa, volume, polarity).value
         == 2.0 * (-1.64 + 0.019 * rsa)
  {
    var m1 := [a] + middle + [b];
    var m2 := [b] + middle + [a];
    assert m1[0] == a && m1[|m1| - 1] == b;
    assert m2[0] == b && m2[|m2| - 1] == a;
  }

  /** Two mutations of the same wild type at the same accessibility differ
      by the volume and hydrophobicity terms of their mutant residues. */
  lemma CompareMutants(m1: string, m2: string, rsa: real, volume: map<string, real>,
                       polarity: map<string, real>)
    requires Known(m1, volume, polarity) && Known(m2, volume, polarity)
    requires WildType(m1) == WildType(m2)
    ensures CalculateDdG(m1, rsa, volume, polarity).value
          - CalculateDdG(m2, rsa, volume, polarity).value
         == 0.0049 * (volume[Mutant(m1)] - volume[Mutant(m2)])
          - 0.12 * (polarity[Mutant(m1)] - polarity[Mutant(m2)])
  {
  }

  /** The page's verdict: a mutation is expected to unfold the protein
      unless its estimate exceeds -1.5. */
  predicate ExpectedToUnfold(ddG: real): (unfolds: bool)
    ensures unfolds <==> ddG <= -1.5
  {
    !(ddG > -1.5)
  }

  /** Any known mutation is expected to unfold the protein exactly when its
      accessibility, volume and hydrophobicity terms add up to at most 0.14. */
  lemma UnfoldThreshold(mutation: string, rsa: real, volume: map<string, real>,
                        polarity: map<string, real>)
    requires Known(mutation, volume, polarity)
    ensures CalculateDdG(mutation, rsa, volume, polarity).Ok?
    ensures ExpectedToUnfold(CalculateDdG(mutation, rsa, volume, polarity).value) <==>
      0.019 * rsa
      + 0.0049 * (volume[Mutant(mutation)] - volume[WildType(mutation)])
      - 0.12 * (polarity[Mutant(mutation)] - polarity[WildType(mutation)]) <= 0.14
  {
    DdGDefined(mutation, rsa, volume, polarity);
  }

  /** A silent substitution is expected to unfold the protein exactly when
      the residue is at most 140/19 percent (about 7.4%) accessible. */
  lemma SilentUnfoldThreshold(mutation: string, rsa: real, volume: map<string, real>,
                              polarity: map<string, real>)
    requires Known(mutation, volume, polarity)
    requires WildType(mutation) == Mutant(mutation)
    ensures CalculateDdG(mutation, rsa, volume, polarity).Ok?
    ensures ExpectedToUnfold(CalculateDdG(mutation, rsa, volume, polarity).value)
        <==> 19.0 * rsa <= 140.0
  {
    SameResidue(mutation, rsa, volume, polarity);
  }

  /** A worked estimate: Ala to Gly at 25% accessibility with Ala (88.6, -0.5)
      and Gly (60.1, 0.0) gives -1.36465, which is not expected to unfold. */
  lemma AlaToGlyExample()
    ensures CalculateDdG("A10G", 25.0, map["A" := 88.6, "G" := 60.1],
                         map["A" := -0.5, "G" := 0.0]) == Ok(-1.36465)
    ensures !ExpectedToUnfold(-1.36465)
  {
    var m := "A10G";
    assert WildType(m) == "A" && Mutant(m) == "G";
  }

  /** `mutation[1:-1]`: everything between the first and last characters;
      the empty string for mutations shorter than three. */
  function Middle(mutation: string): (s: string)
    ensures |mutation| >= 2 ==> |s| == |mutation| - 2
  {
    if |mutation| >= 2 then mutation[1..|mutation| - 1] else ""
  }

  /** `int(mutation[1:-1])`, the residue position the page reads from a
      mutation such as `A10G`; `None` stands for the ValueError. */
  function MutationPosition(mutation: string): (p: Option<int>)
    ensures |mutation| <= 2 ==> p == None
  {
    assert |mutation| <= 2 ==> Middle(mutation) == "";
    assert Strip("") == "";
    PyInt(Middle(mutation))
  }

  /** The position written between two residue codes is read back. */
  lemma MutationPositionRoundTrip(wt: char, k: int, mt: char)
    ensures MutationPosition([wt] + IntToString(k) + [mt]) == Some(k)
  {
    var m := [wt] + IntToString(k) + [mt];
    assert Middle(m) == IntToString(k);
    IntRoundTrip(k);
  }

  /** `[mutation.strip() for mutation in mutations.split(',')]` */
  function MutationList(text: string): (ms: seq<string>)
    ensures |ms| == |SplitOn(text, ',')| == CountChar(text, ',') + 1
    ensures forall i :: 0 <= i < |ms| ==> ms[i] == Strip(SplitOn(text, ',')[i])
  {
    SplitOnLength(text, ',');
    var parts := SplitOn(text, ',');
    seq(|parts|, i requires 0 <= i < |parts| => Strip(parts[i]))
  }

  /** The first piece is the stripped text before the first comma and the
      rest come from the text after it. */
  lemma MutationListCons(first: string, rest: string)
    requires ',' !in first
    ensures MutationList(first + "," + rest) == [Strip(first)] + MutationList(rest)
  {
    SplitOnConcat(first, ',', rest);
  }
}
