/**
 * The analytics event that Searching_Agent.py posts after its analysis, and the lines it
 * prints depending on the HTTP status of that post.
 */
module Telemetry {
  import opened Wrappers
  import opened Strings

  /** A form field value: every field is text except `ev`, which is the integer 1. */
  datatype FormValue = Text(text: string) | Int(number: int)

  type Payload = map<string, FormValue>

  const PayloadKeys: set<string> := {"v", "tid", "cid", "t", "ec", "ea", "el", "ev"}

  const LabelPrefix: string := "Analyzed "
  const LabelSuffix: string := " records"

  /** The `el` field: `f"Analyzed {len(df)} records"`. */
  function RecordsLabel(rowCount: nat): (el: string)
    ensures |el| > |LabelPrefix| + |LabelSuffix|
    ensures el[..|LabelPrefix|] == LabelPrefix
    ensures el[|el| - |LabelSuffix|..] == LabelSuffix
    ensures IsDecimal(el[|LabelPrefix|..|el| - |LabelSuffix|])
  {
    LabelPrefix + NatToString(rowCount) + LabelSuffix
  }

  /** The `payload` dict of `analyze_data`. */
  function MakePayload(trackingId: string, rowCount: nat): (p: Payload)
    ensures p.Keys == PayloadKeys
    ensures p["tid"] == Text(trackingId)
    ensures p["el"] == Text(RecordsLabel(rowCount))
    ensures forall key <- p.Keys :: key == "ev" <==> p[key].Int?
  {
    map["v" := Text("1"), "tid" := Text(trackingId), "cid" := Text("555"), "t" := Text("event"),
        "ec" := Text("data_analysis"), "ea" := Text("completed"),
        "el" := Text(RecordsLabel(rowCount)), "ev" := Int(1)]
  }

  /** Reads the row count back out of an `el` label. */
  function RowCountOfLabel(el: string): Option<nat>
  {
    if |el| > |LabelPrefix| + |LabelSuffix|
       && el[..|LabelPrefix|] == LabelPrefix
       && el[|el| - |LabelSuffix|..] == LabelSuffix
       && IsDecimal(el[|LabelPrefix|..|el| - |LabelSuffix|])
    then Some(ParseDecimal(el[|LabelPrefix|..|el| - |LabelSuffix|]))
    else None
  }

  /** The payload always carries the number of rows analysed, and it can be read back. */
  lemma PayloadCarriesRowCount(trackingId: string, rowCount: nat)
    ensures RowCountOfLabel(MakePayload(trackingId, rowCount)["el"].text) == Some(rowCount)
  {
    var el := RecordsLabel(rowCount);
    assert el[|LabelPrefix|..|el| - |LabelSuffix|] == NatToString(rowCount);
    assert el[..|LabelPrefix|] == LabelPrefix;
    assert el[|el| - |LabelSuffix|..] == LabelSuffix;
    NatToStringRoundTrip(rowCount);
  }

  const Failure: string := "tracking failed"
  const SuccessStatus: string := "Data tracking status: Success"

  /** The lines printed after the post: four success lines for status 200, otherwise
      the single failure line. */
  function TrackingMessages(statusCode: int, rowCount: nat, trackingId: string): (lines: seq<string>)
    ensures statusCode == 200 <==> SuccessStatus in lines
    ensures statusCode == 200 <==> Failure !in lines
    ensures statusCode != 200 ==> lines == [Failure]
    ensures statusCode == 200 ==> |lines| == 4 && lines[0] == SuccessStatus
  {
    if statusCode == 200 then
      [ SuccessStatus,
        "Data on " + NatToString(rowCount)
          + " records was successfully tracked to Google Analytics with Tracking ID: " + trackingId,
        "Data sent to: Google Analytics",
        "Tracker Website: Google Analytics (https://www.google-analytics.com)" ]
    else
      [Failure]
  }
}
