/**
 * Label content for one CSV record: the URL the QR code encodes and the text
 * block printed beside it.
 */
module Label {
  import opened Wrappers
  import opened Errors
  import opened Strings

  /** One CSV row, keyed by column name. */
  type Record = map<string, string>

  const Collection := "collection"
  const ReleasePrefix := "https://www.discogs.com/release/"
  const SellPrefix := "https://www.discogs.com/sell/item/"
  const LineBreak := "<br />"

  /** The identifier column of each CSV shape. */
  function IdKey(csvType: string): string
  {
    if csvType == Collection then "release_id" else "listing_id"
  }

  /**
   * The QR payload: the release page for a collection export, the sale page for
   * any other shape; a record without the identifier column raises KeyError.
   */
  function Payload(record: Record, csvType: string): (r: Result<string, Error>)
    ensures r.Success? <==> IdKey(csvType) in record
    ensures r.Failure? ==> r.error == MissingKey(IdKey(csvType))
  {
    if csvType == Collection then
      if "release_id" in record then Success(ReleasePrefix + record["release_id"])
      else Failure(MissingKey("release_id"))
    else
      if "listing_id" in record then Success(SellPrefix + record["listing_id"])
      else Failure(MissingKey("listing_id"))
  }

  /** What a scanned payload points at. */
  datatype Target = Release(id: string) | Listing(id: string)

  /** Reads a payload back: which page it names and the identifier in it. */
  function DecodePayload(url: string): Option<Target>
  {
    if ReleasePrefix <= url then Some(Release(url[|ReleasePrefix|..]))
    else if SellPrefix <= url then Some(Listing(url[|SellPrefix|..]))
    else None
  }

  /**
   * The payload identifies the record: a collection record's release, any other
   * record's listing, with the identifier recovered verbatim.
   */
  lemma PayloadIdentifiesRecord(record: Record, csvType: string)
    requires IdKey(csvType) in record
    ensures DecodePayload(Payload(record, csvType).value) ==
      Some(if csvType == Collection then Release(record["release_id"]) else Listing(record["listing_id"]))
  {
    var url := Payload(record, csvType).value;
    if csvType == Collection {
      assert url[..|ReleasePrefix|] == ReleasePrefix;
      assert url[|ReleasePrefix|..] == record["release_id"];
    } else {
      assert url[24] == 's' != ReleasePrefix[24];
      assert !(ReleasePrefix <= url);
      assert url[|SellPrefix|..] == record["listing_id"];
    }
  }

  /** Different identifiers never share a payload. */
  lemma PayloadInjective(a: Record, b: Record, csvType: string)
    requires IdKey(csvType) in a && IdKey(csvType) in b
    requires Payload(a, csvType) == Payload(b, csvType)
    ensures a[IdKey(csvType)] == b[IdKey(csvType)]
  {
    PayloadIdentifiesRecord(a, csvType);
    PayloadIdentifiesRecord(b, csvType);
  }

  /**
   * The text one field contributes. As written, the lookup uses the literal
   * key "field" rather than the field's name, so a record without a "field"
   * column raises KeyError and every other field name reads the same value.
   */
  function Segment(record: Record, field: string): (r: Result<string, Error>)
    ensures r.Success? <==>
      "field" in record &&
      (record["field"] == "" && field == "condition" ==>
         "media_condition" in record && "sleeve_condition" in record)
    ensures r.Success? && "field" in record && record["field"] != "" ==> r.value == record["field"]
    ensures r.Success? && record["field"] == "" && field != "condition" ==> r.value == ""
    ensures r.Success? && record["field"] == "" && field == "condition" ==>
      r.value == "v/s: " + record["media_condition"] + "/" + record["sleeve_condition"]
    ensures r.Failure? ==>
      r.error == MissingKey(if "field" !in record then "field"
                            else if "media_condition" !in record then "media_condition"
                            else "sleeve_condition")
  {
    if "field" !in record then Failure(MissingKey("field"))
    else if record["field"] != "" then Success(record["field"])
    else if field == "condition" then
      if "media_condition" !in record then Failure(MissingKey("media_condition"))
      else if "sleeve_condition" !in record then Failure(MissingKey("sleeve_condition"))
      else Success("v/s: " + record["media_condition"] + "/" + record["sleeve_condition"])
    else Success("")
  }

  /** The segments of all fields in order, or the error of the first field that fails. */
  function Segments(record: Record, fields: seq<string>): Result<seq<string>, Error>
  {
    if fields == [] then Success([])
    else
      var last := |fields| - 1;
      match Segments(record, fields[..last])
      case Failure(e) => Failure(e)
      case Success(segs) =>
        match Segment(record, fields[last])
        case Failure(e) => Failure(e)
        case Success(s) => Success(segs + [s])
  }

  /**
   * On success there is one segment per field, each the field's own; on
   * failure the error is that of the first field that fails.
   */
  lemma {:induction false} SegmentsSpec(record: Record, fields: seq<string>)
    ensures var r := Segments(record, fields);
      r.Success? ==> (|r.value| == |fields| &&
        forall i :: 0 <= i < |fields| ==> Segment(record, fields[i]) == Success(r.value[i]))
    ensures var r := Segments(record, fields);
      r.Failure? ==>
        exists i :: 0 <= i < |fields| && Segment(record, fields[i]) == Failure(r.error) &&
          forall j :: 0 <= j < i ==> Segment(record, fields[j]).Success?
  {
    if fields != [] {
      var last := |fields| - 1;
      var init := fields[..last];
      SegmentsSpec(record, init);
      assert forall j :: 0 <= j < last ==> init[j] == fields[j];
      match Segments(record, init)
      case Failure(e) =>
        var i :| 0 <= i < |init| && Segment(record, init[i]) == Failure(e) &&
          forall j :: 0 <= j < i ==> Segment(record, init[j]).Success?;
        assert Segment(record, fields[i]) == Failure(e);
      case Success(segs) =>
        match Segment(record, fields[last])
        case Failure(e) =>
          assert Segment(record, fields[last]) == Failure(e);
        case Success(x) =>
          assert Segments(record, fields) == Success(segs + [x]);
    }
  }

  /** The text block: the segments separated by line breaks. */
  function TextBlock(record: Record, fields: seq<string>): Result<string, Error>
  {
    match Segments(record, fields)
    case Failure(e) => Failure(e)
    case Success(segs) => Success(Join(segs, LineBreak))
  }

  /** Once a prefix of the fields fails, the whole list fails with the same error. */
  lemma {:induction false} SegmentsPrefixFailure(record: Record, fields: seq<string>, k: nat)
    requires k <= |fields| && Segments(record, fields[..k]).Failure?
    ensures Segments(record, fields) == Segments(record, fields[..k])
    decreases |fields| - k
  {
    if k < |fields| {
      assert fields[..k + 1][..k] == fields[..k];
      SegmentsPrefixFailure(record, fields, k + 1);
    } else {
      assert fields[..k] == fields;
    }
  }

  /**
   * The loop that builds the text: each field's segment, then a line break
   * while `fieldcounter` is below the number of fields.
   */
  method BuildText(record: Record, fields: seq<string>) returns (r: Result<string, Error>)
    ensures r == TextBlock(record, fields)
  {
    var text := "";
    var fieldcounter := 1;
    var i := 0;
    ghost var segs: seq<string> := [];
    while i < |fields|
      invariant 0 <= i <= |fields| && fieldcounter == i + 1
      invariant Segments(record, fields[..i]) == Success(segs)
      invariant text == if i == 0 then "" else Join(segs, LineBreak) + (if i < |fields| then LineBreak else "")
    {
      var field := fields[i];
      assert fields[..i + 1][..i] == fields[..i];
      if "field" !in record {
        SegmentsPrefixFailure(record, fields, i + 1);
        return Failure(MissingKey("field"));
      }
      var segment := "";
      if record["field"] != "" {
        segment := record["field"];
      } else if field == "condition" {
        if "media_condition" !in record {
          SegmentsPrefixFailure(record, fields, i + 1);
          return Failure(MissingKey("media_condition"));
        }
        if "sleeve_condition" !in record {
          SegmentsPrefixFailure(record, fields, i + 1);
          return Failure(MissingKey("sleeve_condition"));
        }
        segment := "v/s: " + record["media_condition"] + "/" + record["sleeve_condition"];
      }
      text := text + segment;
      if fieldcounter < |fields| {
        text := text + LineBreak;
      }
      fieldcounter := fieldcounter + 1;
      if i > 0 {
        JoinSnoc(segs, segment, LineBreak);
      }
      segs := segs + [segment];
      i := i + 1;
    }
    assert fields[..i] == fields;
    assert Segments(record, fields) == Success(segs);
    assert text == Join(segs, LineBreak);
    r := Success(text);
  }

  /** No fields give an empty text block. */
  lemma TextBlockEmpty(record: Record)
    ensures TextBlock(record, []) == Success("")
  {
  }

  /**
   * A further field adds exactly one line break, between the text so far and
   * the new segment, and none after it.
   */
  lemma TextBlockSnoc(record: Record, fields: seq<string>, field: string)
    requires fields != []
    requires TextBlock(record, fields).Success? && Segment(record, field).Success?
    ensures TextBlock(record, fields + [field]) ==
      Success(TextBlock(record, fields).value + LineBreak + Segment(record, field).value)
  {
    var all := fields + [field];
    assert all[..|all| - 1] == fields;
    JoinSnoc(Segments(record, fields).value, Segment(record, field).value, LineBreak);
  }

  /**
   * A text block over k fields is the k segments, in order, with exactly k - 1
   * line breaks between them.
   */
  lemma TextBlockLength(record: Record, fields: seq<string>)
    requires fields != [] && Segments(record, fields).Success?
    ensures var segs := Segments(record, fields).value;
      TextBlock(record, fields) == Success(Join(segs, LineBreak)) &&
      |TextBlock(record, fields).value| == TotalLength(segs) + (|fields| - 1) * |LineBreak|
  {
    SegmentsSpec(record, fields);
    JoinLength(Segments(record, fields).value, LineBreak);
  }

  /**
   * Consequence of the literal "field" key: every field name other than
   * "condition" yields the same segment, and a record without a "field" column
   * fails on any non-empty field list.
   */
  lemma LiteralFieldKey(record: Record, fields: seq<string>, f: string, g: string)
    requires f != "condition" && g != "condition"
    ensures Segment(record, f) == Segment(record, g)
    ensures "field" !in record && fields != [] ==> TextBlock(record, fields) == Failure(MissingKey("field"))
  {
    if "field" !in record && fields != [] {
      SegmentsSpec(record, fields);
      assert Segment(record, fields[0]).Failure?;
    }
  }

  /** An empty "field" value and the field name "condition" give the condition summary. */
  lemma ConditionSegment(record: Record)
    requires "field" in record && record["field"] == ""
    requires "media_condition" in record && "sleeve_condition" in record
    ensures Segment(record, "condition") ==
      Success("v/s: " + record["media_condition"] + "/" + record["sleeve_condition"])
  {
  }
}
