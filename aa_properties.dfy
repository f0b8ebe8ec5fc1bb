/** `load_aa_properties`: the amino-acid volume and hydrophobicity tables
    read from the rows of a tab-separated file with columns `AA`, `V` and
    `H`. Reading and tokenising the file is left out; the rows are an
    argument. */
module AaProperties {
  import opened PyText

  /** One row of the file: the `AA`, `V` and `H` fields as text. */
  datatype Row = Row(aa: string, v: string, h: string)

  /** The two dictionaries the loader returns. */
  datatype AaTables = AaTables(volume: map<string, real>, polarity: map<string, real>)

  /** A row after `float()` has been applied to its `V` and `H` fields. */
  datatype Converted = Converted(aa: string, v: Option<real>, h: Option<real>)

  /** Every row converted, in order. */
  function ConvertAll(rows: seq<Row>): (cs: seq<Converted>)
    ensures |cs| == |rows|
  {
    if rows == [] then []
    else
      var row := rows[|rows| - 1];
      ConvertAll(rows[..|rows| - 1]) + [Converted(row.aa, PyFloat(row.v), PyFloat(row.h))]
  }

  lemma {:induction false} ConvertAllAt(rows: seq<Row>, i: int)
    requires 0 <= i < |rows|
    ensures ConvertAll(rows)[i] == Converted(rows[i].aa, PyFloat(rows[i].v), PyFloat(rows[i].h))
  {
    if i < |rows| - 1 {
      ConvertAllAt(rows[..|rows| - 1], i);
    }
  }

  /** The dictionaries filled from converted rows, in order: a later row
      overwrites an earlier one with the same key; a field that did not
      convert raises ValueError. */
  function Fill(cs: seq<Converted>): Result<AaTables>
  {
    if cs == [] then Ok(AaTables(map[], map[]))
    else
      var c := cs[|cs| - 1];
      match Fill(cs[..|cs| - 1])
      case Raises(e) => Raises(e)
      case Ok(t) =>
        if c.v.Some? && c.h.Some? then
          Ok(AaTables(t.volume[c.aa := c.v.value], t.polarity[c.aa := c.h.value]))
        else Raises(ValueError)
  }

  /** What the loader returns for the given rows. */
  function Tables(rows: seq<Row>): Result<AaTables>
  {
    Fill(ConvertAll(rows))
  }

  /** The row loop filling both dictionaries. */
  method LoadAaProperties(rows: seq<Row>) returns (r: Result<AaTables>)
    ensures r == Tables(rows)
  {
    var volumeDict: map<string, real> := map[];
    var polarityDict: map<string, real> := map[];
    for i := 0 to |rows|
      invariant Fill(ConvertAll(rows[..i])) == Ok(AaTables(volumeDict, polarityDict))
    {
      ConvertStep(rows, i);
      var row := rows[i];
      var aa := row.aa;
      var v := PyFloat(row.v);
      if v.None? {
        AbortOnRow(rows, i, Converted(aa, v, PyFloat(row.h)));
        return Raises(ValueError);
      }
      volumeDict := volumeDict[aa := v.value];
      var h := PyFloat(row.h);
      if h.None? {
        AbortOnRow(rows, i, Converted(aa, v, h));
        return Raises(ValueError);
      }
      polarityDict := polarityDict[aa := h.value];
    }
    assert rows[..|rows|] == rows;
    r := Ok(AaTables(volumeDict, polarityDict));
  }

  /** Converting one more row appends its conversion. */
  lemma ConvertStep(rows: seq<Row>, i: nat)
    requires i < |rows|
    ensures ConvertAll(rows[..i + 1]) ==
      ConvertAll(rows[..i]) + [Converted(rows[i].aa, PyFloat(rows[i].v), PyFloat(rows[i].h))]
  {
    assert rows[..i + 1][..i] == rows[..i];
  }

  /** A row whose `V` or `H` does not convert makes the whole load raise. */
  lemma AbortOnRow(rows: seq<Row>, i: nat, c: Converted)
    requires i < |rows| && Fill(ConvertAll(rows[..i])).Ok?
    requires ConvertAll(rows[..i + 1]) == ConvertAll(rows[..i]) + [c]
    requires c.v.None? || c.h.None?
    ensures Tables(rows) == Raises(ValueError)
  {
    PrefixConverted(rows, i + 1);
    FillFailingRow(ConvertAll(rows[..i]), c);
    AbortKeepsError(ConvertAll(rows), i + 1);
  }

  lemma FillFailingRow(pre: seq<Converted>, c: Converted)
    requires Fill(pre).Ok? && (c.v.None? || c.h.None?)
    ensures Fill(pre + [c]) == Raises(ValueError)
  {
    assert (pre + [c])[..|pre|] == pre;
  }

  /** Converting a prefix of the rows gives a prefix of the conversions. */
  lemma {:induction false} PrefixConverted(rows: seq<Row>, i: nat)
    requires i <= |rows|
    ensures ConvertAll(rows)[..i] == ConvertAll(rows[..i])
    decreases |rows|
  {
    if i < |rows| {
      assert rows[..|rows| - 1][..i] == rows[..i];
      PrefixConverted(rows[..|rows| - 1], i);
    } else {
      assert rows[..i] == rows;
    }
  }

  /** Once a prefix of the rows raises, so do all the rows. */
  lemma {:induction false} AbortKeepsError(cs: seq<Converted>, i: nat)
    requires i <= |cs| && Fill(cs[..i]).Raises?
    ensures Fill(cs) == Raises(ValueError)
    decreases |cs| - i
  {
    RaisesValueError(cs[..i]);
    if i < |cs| {
      assert cs[..i + 1][..i] == cs[..i];
      AbortKeepsError(cs, i + 1);
    } else {
      assert cs[..i] == cs;
    }
  }

  /** The only exception the loader raises is ValueError. */
  lemma {:induction false} RaisesValueError(cs: seq<Converted>)
    ensures Fill(cs).Raises? ==> Fill(cs).exc == ValueError
  {
    if cs != [] {
      RaisesValueError(cs[..|cs| - 1]);
    }
  }

  lemma {:induction false} FillOk(cs: seq<Converted>)
    ensures Fill(cs).Ok? <==> forall i :: 0 <= i < |cs| ==> cs[i].v.Some? && cs[i].h.Some?
  {
    if cs != [] {
      var init := cs[..|cs| - 1];
      FillOk(init);
      assert forall i :: 0 <= i < |init| ==> init[i] == cs[i];
    }
  }

  /** Loading succeeds exactly when every row's `V` and `H` convert. */
  lemma TablesOk(rows: seq<Row>)
    ensures Tables(rows).Ok? <==>
      forall i :: 0 <= i < |rows| ==> PyFloat(rows[i].v).Some? && PyFloat(rows[i].h).Some?
  {
    FillOk(ConvertAll(rows));
    forall i | 0 <= i < |rows| {
      ConvertAllAt(rows, i);
    }
  }

  /** The amino-acid codes seen in the rows. */
  function Codes(rows: seq<Row>): set<string>
  {
    set i | 0 <= i < |rows| :: rows[i].aa
  }

  lemma {:induction false} FillKeys(cs: seq<Converted>)
    requires Fill(cs).Ok?
    ensures Fill(cs).value.volume.Keys == set i | 0 <= i < |cs| :: cs[i].aa
    ensures Fill(cs).value.polarity.Keys == set i | 0 <= i < |cs| :: cs[i].aa
  {
    if cs != [] {
      var init := cs[..|cs| - 1];
      FillKeys(init);
      assert (set i | 0 <= i < |cs| :: cs[i].aa) ==
        (set i | 0 <= i < |init| :: init[i].aa) + {cs[|cs| - 1].aa} by {
        assert forall i :: 0 <= i < |init| ==> init[i] == cs[i];
      }
    }
  }

  /** Both tables have exactly the codes seen in the rows as keys. */
  lemma TablesKeys(rows: seq<Row>)
    requires Tables(rows).Ok?
    ensures Tables(rows).value.volume.Keys == Codes(rows)
    ensures Tables(rows).value.polarity.Keys == Codes(rows)
  {
    var cs := ConvertAll(rows);
    FillKeys(cs);
    forall i | 0 <= i < |rows|
      ensures cs[i].aa == rows[i].aa
    {
      ConvertAllAt(rows, i);
    }
  }

  /** Entry `i` is the last one carrying its code. */
  predicate LastWithCode(cs: seq<Converted>, i: int)
  {
    0 <= i < |cs| && forall j :: i < j < |cs| ==> cs[j].aa != cs[i].aa
  }

  lemma {:induction false} FillLastWins(cs: seq<Converted>, i: int)
    requires Fill(cs).Ok? && LastWithCode(cs, i)
    ensures cs[i].aa in Fill(cs).value.volume && cs[i].aa in Fill(cs).value.polarity
    ensures cs[i].v == Some(Fill(cs).value.volume[cs[i].aa])
    ensures cs[i].h == Some(Fill(cs).value.polarity[cs[i].aa])
  {
    var init := cs[..|cs| - 1];
    if i < |cs| - 1 {
      assert init[i] == cs[i];
      assert LastWithCode(init, i) by {
        assert forall j :: i < j < |init| ==> init[j] == cs[j];
      }
      FillLastWins(init, i);
    }
  }

  /** The entry of every code is `float(V)` and `float(H)` of the last row
      carrying it. */
  lemma TablesLastRowWins(rows: seq<Row>, i: int)
    requires Tables(rows).Ok?
    requires 0 <= i < |rows| && forall j :: i < j < |rows| ==> rows[j].aa != rows[i].aa
    ensures rows[i].aa in Tables(rows).value.volume && rows[i].aa in Tables(rows).value.polarity
    ensures Some(Tables(rows).value.volume[rows[i].aa]) == PyFloat(rows[i].v)
    ensures Some(Tables(rows).value.polarity[rows[i].aa]) == PyFloat(rows[i].h)
  {
    var cs := ConvertAll(rows);
    forall j | i <= j < |rows|
      ensures cs[j].aa == rows[j].aa
    {
      ConvertAllAt(rows, j);
    }
    ConvertAllAt(rows, i);
    FillLastWins(cs, i);
  }
}
