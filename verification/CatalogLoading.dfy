/** The size and count gates around catalogue parsing, and the monotonicity rule for limits from the
    file's bytes to the verified summary. Field-by-field record checks do not look at limits; they are
    one function from records to obligations. */
module CatalogLoading {
  import opened Text
  import opened Outcomes
  import opened Json
  import Scanner
  import opened CanonicalJsonl
  import opened CompileLimits
  import opened Os
  import opened ObligationSources

  datatype LoadError =
    | InputTooBig
    | SerializedTooBig
    | NotCanonical(cause: Scanner.Error)
    | NoHeader
    | InvalidRecords
    | TooManyObligations

  function LoadCatalog(raw: seq<Byte>, l: Limits, decode: seq<Json> -> Option<seq<Obligation>>)
    : Result<seq<Obligation>, LoadError>
  {
    if |raw| > l.parserInput then Err(InputTooBig)
    else if |raw| > l.serializedInputTotal then Err(SerializedTooBig)
    else
      match ParseRecords(raw, Some(l.catalogRecordCount))
      case Err(e) => Err(NotCanonical(e))
      case Ok(records) =>
        if records == [] then Err(NoHeader)
        else
          match decode(records)
          case None => Err(InvalidRecords)
          case Some(obligations) =>
            if |obligations| > l.obligationCount then Err(TooManyObligations) else Ok(obligations)
  }

  /** A file loads exactly when it is the encoding of some records that fit the caps and decode; the
      limits choose whether, never what. */
  lemma LoadsExactly(raw: seq<Byte>, l: Limits, decode: seq<Json> -> Option<seq<Obligation>>,
                     obligations: seq<Obligation>)
    ensures LoadCatalog(raw, l, decode) == Ok(obligations) <==>
      && |raw| <= l.parserInput && |raw| <= l.serializedInputTotal
      && |obligations| <= l.obligationCount
      && exists records :: records != [] && AllRecords(records) && SortItems(records) == records
           && raw == Lines(records) && |records| <= l.catalogRecordCount
           && decode(records) == Some(obligations)
  {
    hide ParseRecords, Lines, SortItems, AllRecords;
    var parsed := ParseRecords(raw, Some(l.catalogRecordCount));
    if parsed.Ok? {
      AcceptedExactly(raw, Some(l.catalogRecordCount), parsed.value);
    }
    forall records | records != [] && AllRecords(records) && SortItems(records) == records
        && raw == Lines(records) && |records| <= l.catalogRecordCount
      ensures parsed == Ok(records)
    {
      AcceptedExactly(raw, Some(l.catalogRecordCount), records);
    }
  }

  /** What loads under some limits loads to the same obligations under looser ones. */
  lemma LooserLimitsLoadTheSame(raw: seq<Byte>, l: Limits, m: Limits,
                                decode: seq<Json> -> Option<seq<Obligation>>)
    requires Within(l, m) && LoadCatalog(raw, l, decode).Ok?
    ensures LoadCatalog(raw, m, decode) == LoadCatalog(raw, l, decode)
  {
    hide LoadCatalog, Lines, SortItems, AllRecords;
    var obligations := LoadCatalog(raw, l, decode).value;
    LoadsExactly(raw, l, decode, obligations);
    LoadsExactly(raw, m, decode, obligations);
  }

  /** Nothing the frozen limits reject is admitted by a smaller vector: load, then verify. */
  lemma SmallerLimitsOnlyReject(raw: seq<Byte>, l: Limits, decode: seq<Json> -> Option<seq<Obligation>>,
                                filesystem: Node, rootText: Str, hash: Hash)
    requires CompileLimits.Valid(l) && LoadCatalog(raw, l, decode).Ok?
    requires Accepts(filesystem, rootText, LoadCatalog(raw, l, decode).value, l, hash)
    ensures LoadCatalog(raw, FROZEN, decode) == LoadCatalog(raw, l, decode)
    ensures Accepts(filesystem, rootText, LoadCatalog(raw, FROZEN, decode).value, FROZEN, hash)
  {
    hide LoadCatalog, Accepts;
    LooserLimitsLoadTheSame(raw, l, FROZEN, decode);
    RaisingLimitsAccepts(filesystem, rootText, LoadCatalog(raw, l, decode).value, l, FROZEN, hash);
  }
}
