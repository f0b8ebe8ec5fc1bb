/** The decoded JSON of a UniProt search with `fields=xref_pdb`, as far as
    the coverage check and the PDB score read it. */
module UniprotXrefs {
  import opened PyText

  /** One entry of `uniProtKBCrossReferences`: its `database`, its `id` and
      the `value` of each element of its `properties` list, in order (for a
      PDB entry: method, resolution, chain ranges). */
  datatype XRef = XRef(database: string, id: string, properties: seq<string>)

  /** One element of `results`; `crossReferences` is `None` when the key
      `uniProtKBCrossReferences` is absent. */
  datatype Hit = Hit(crossReferences: Option<seq<XRef>>)

  /** The whole response; `results` is `None` when that key is absent. */
  datatype SearchResponse = SearchResponse(results: Option<seq<Hit>>)

  /** The guard `data.get('results') and 'uniProtKBCrossReferences' in
      data['results'][0]`, together with the list it then reads. */
  function PdbCrossReferences(data: SearchResponse): (r: Option<seq<XRef>>)
    ensures r.Some? <==>
      data.results.Some? && |data.results.value| > 0 && data.results.value[0].crossReferences.Some?
    ensures r.Some? ==> r == data.results.value[0].crossReferences
  {
    match data.results
    case Some(hits) =>
      if |hits| > 0 && hits[0].crossReferences.Some? then hits[0].crossReferences else None
    case None => None
  }

  /** A response holding exactly the given cross-reference list. */
  function ResponseWith(xrefs: seq<XRef>): (data: SearchResponse)
    ensures PdbCrossReferences(data) == Some(xrefs)
  {
    SearchResponse(Some([Hit(Some(xrefs))]))
  }
}
