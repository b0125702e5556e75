/**
 * The script's main sequence once its inputs are in hand: resolve the
 * profile, stop quietly on an empty CSV, derive the page layout, then build
 * the table of labels that the document renderer lays out.
 */
module Pipeline {
  import opened Wrappers
  import opened Errors
  import opened Config
  import opened Label
  import opened Grid

  /** No document for an empty CSV; otherwise the page, unit, cell size and table. */
  datatype Output =
    | NoDocument
    | Document(pagesize: PageSize, unit: Unit, dims: int, table: seq<seq<Cell>>)

  /**
   * The outcome of one run. The document template reads `profile['unit']`,
   * so as written a profile with no unit raises KeyError before any label is
   * built.
   */
  function Generate(sections: seq<Section>, name: string, records: seq<Record>, csvType: string)
    : (r: Result<Output, Error>)
    ensures (forall j :: 0 <= j < |sections| ==> sections[j].name != name) ==> r == Failure(ProfileNotFound)
    ensures Resolve(sections, name).Success? && records == [] ==> r == Success(NoDocument)
    ensures r.Success? && r.value.Document? ==>
      records != [] && r.value.unit == MM && r.value.table != [] &&
      (r.value.pagesize == A4 ==> r.value.dims == 35)
  {
    match Resolve(sections, name)
    case Failure(e) => Failure(e)
    case Success(resolved) =>
      if records == [] then Success(NoDocument)
      else
        var profile := resolved.profile;
        match LayoutOf(profile)
        case Failure(e) => Failure(e)
        case Success(layout) =>
          if profile.unit == Points then Failure(MissingKey("unit"))
          else
            match Packed(records, csvType, resolved.fields, resolved.swapColumns, profile.columns.value, layout.dims)
            case Failure(e) => Failure(e)
            case Success(table) =>
              PackedShape(records, csvType, resolved.fields, resolved.swapColumns, profile.columns.value, layout.dims);
              Success(Document(layout.pagesize, profile.unit, layout.dims, table))
  }

  /** The run: the section scan, the empty-input exit, the layout and the record loop. */
  method GenerateLabels(sections: seq<Section>, name: string, records: seq<Record>, csvType: string)
    returns (r: Result<Output, Error>)
    requires DistinctNames(sections)
    ensures r == Generate(sections, name, records, csvType)
  {
    var resolved := ResolveProfile(sections, name);
    if resolved.Failure? {
      return Failure(resolved.error);
    }
    var profile := resolved.value.profile;
    if |records| == 0 {
      return Success(NoDocument);
    }
    var layout := LayoutOf(profile);
    if layout.Failure? {
      return Failure(layout.error);
    }
    if profile.unit == Points {
      return Failure(MissingKey("unit"));
    }
    var table := PackLabels(records, csvType, resolved.value.fields, resolved.value.swapColumns,
                            profile.columns.value, layout.value.dims);
    if table.Failure? {
      return Failure(table.error);
    }
    r := Success(Document(layout.value.pagesize, profile.unit, layout.value.dims, table.value));
  }

  /**
   * As written, a profile without A4 and without `unit = mm` never yields a
   * document for a non-empty CSV: it fails on the layout or on the missing unit.
   */
  lemma PointsProfileFails(sections: seq<Section>, name: string, records: seq<Record>, csvType: string)
    requires Resolve(sections, name).Success? && records != []
    requires Resolve(sections, name).value.profile.unit == Points
    ensures Generate(sections, name, records, csvType).Failure?
  {
  }
}
