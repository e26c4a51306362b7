/**
 * The two `analyze_data` functions: the shared load-and-clean prefix, the full analysis
 * of Searching_Agent.py (seasonal subsets and telemetry) and the sampling variant of
 * Searching_Agent_api.py whose column names feed the dataset description.
 */
module Analysis {
  import opened Wrappers
  import opened Frame
  import opened Seasons
  import opened Telemetry

  /** What `pd.to_datetime(df['date'], format='%d/%m/%y')` makes of the date column: it
      raises `ValueError` when a value does not match the format; otherwise every row gets
      a timestamp, of which only the month is used later (`None` for NaT, from a blank cell). */
  datatype DateColumn = Unparsable | Parsed(months: seq<Option<Month>>)

  /** How the common prefix of both `analyze_data` functions ended. */
  datatype Load =
    | NoFile                       // "Data file does not exist." and an early return
    | KeyError(column: string)     // `df[col]` raised for an absent column
    | DateValueError               // `pd.to_datetime` raised on a malformed date
    | Loaded                       // cleaned in place and the date column parsed

  /** `os.path.exists`, `pd.read_csv`, the cleaning loop and `df['date'] = pd.to_datetime(...)`.
      `df` stands for the frame `read_csv` produces and `dates` for what parsing its date
      column gives; the frame is only touched once the file exists. */
  method LoadAndClean(fileExists: bool, df: DataFrame, dates: DateColumn) returns (load: Load)
    requires df.Valid()
    modifies df
    ensures df.Valid() && df.columns == old(df.columns) && df.rowCount == old(df.rowCount)
    ensures !fileExists ==> load == NoFile && df.data == old(df.data)
    ensures fileExists ==>
      var k := FirstAbsent(NumericColumns, old(df.columns));
      && df.data == Cleaned(old(df.data), NumericColumns[..k])
      && load == if k < |NumericColumns| then KeyError(NumericColumns[k])
                 else if "date" !in df.columns then KeyError("date")
                 else if dates.Unparsable? then DateValueError
                 else Loaded
  {
    if !fileExists {
      return NoFile;
    }
    var absent := CleanColumns(df, NumericColumns);
    if absent.Some? {
      return KeyError(absent.value);
    }
    if "date" !in df.data {
      return KeyError("date");
    }
    if dates.Unparsable? {
      return DateValueError;
    }
    return Loaded;
  }

  /** The outcome of the POST to the analytics endpoint. */
  datatype PostOutcome = Response(statusCode: int) | ConnectionError

  /** How `analyze_data(data_path, tracking_id)` of Searching_Agent.py ended. */
  datatype Analysis =
    | FileMissing
    | MissingColumn(column: string)
    | BadDate                        // the `ValueError` of `pd.to_datetime` propagates
    | PostRaised(payload: Payload)   // `requests.post` raised; nothing catches it
    | Tracked(summer: seq<Cell>, winter: seq<Cell>, payload: Payload, messages: seq<string>)

  /** The file exists and holds every column the analysis reads. */
  predicate Loadable(fileExists: bool, columns: seq<string>) {
    fileExists && "date" in columns && forall c <- NumericColumns :: c in columns
  }

  /** `analyze_data` of Searching_Agent.py. `dates` is what parsing the date column gives,
      with one month per row; `post` is what the POST of the payload returns. */
  method AnalyzeData(fileExists: bool, df: DataFrame, dates: DateColumn, trackingId: string, post: PostOutcome)
    returns (r: Analysis)
    requires df.Valid()
    requires dates.Parsed? ==> |dates.months| == df.rowCount
    modifies df
    ensures df.Valid() && df.columns == old(df.columns) && df.rowCount == old(df.rowCount)
    ensures !fileExists ==> r == FileMissing && df.data == old(df.data)
    ensures r.MissingColumn? <==> fileExists && !Loadable(fileExists, old(df.columns))
    ensures r.MissingColumn? ==>
      var k := FirstAbsent(NumericColumns, old(df.columns));
      r.column == if k < |NumericColumns| then NumericColumns[k] else "date"
    ensures r.BadDate? <==> Loadable(fileExists, old(df.columns)) && dates.Unparsable?
    ensures r.PostRaised? || r.Tracked? <==> Loadable(fileExists, old(df.columns)) && dates.Parsed?
    ensures r.PostRaised? || r.Tracked? ==>
      && r.payload == MakePayload(trackingId, old(df.rowCount))
      && df.data == Cleaned(old(df.data), NumericColumns)
    ensures r.Tracked? ==>
      && post.Response?
      && "tavg" in df.data
      && r.summer == Summer(df.data["tavg"], dates.months)
      && r.winter == Winter(df.data["tavg"], dates.months)
      && r.messages == TrackingMessages(post.statusCode, old(df.rowCount), trackingId)
    ensures r.PostRaised? <==> Loadable(fileExists, old(df.columns)) && dates.Parsed? && post.ConnectionError?
  {
    var load := LoadAndClean(fileExists, df, dates);
    FirstAbsentAll(NumericColumns, old(df.columns));
    match load
    case NoFile =>
      return FileMissing;
    case KeyError(column) =>
      return MissingColumn(column);
    case DateValueError =>
      return BadDate;
    case Loaded =>
      assert "tavg" == NumericColumns[2];
      var tavg := df.data["tavg"];
      var summer := Summer(tavg, dates.months);
      var winter := Winter(tavg, dates.months);
      var payload := MakePayload(trackingId, df.rowCount);
      match post
      case ConnectionError =>
        return PostRaised(payload);
      case Response(status) =>
        return Tracked(summer, winter, payload, TrackingMessages(status, df.rowCount, trackingId));
  }

  lemma FirstAbsentAll(names: seq<string>, columns: seq<string>)
    ensures FirstAbsent(names, columns) == |names| <==> forall c <- names :: c in columns
    ensures FirstAbsent(names, columns) == |names| ==> names[..|names|] == names
  {
    if FirstAbsent(names, columns) < |names| {
      assert names[FirstAbsent(names, columns)] in names;
    }
  }

  /** How `analyze_data(data_path)` of Searching_Agent_api.py ended. */
  datatype Sample =
    | NoSample                     // the file is absent: the function returns None
    | SampleKeyError(column: string)
    | SampleDateError              // the `ValueError` of `pd.to_datetime` propagates
    | Head(columns: seq<string>)   // `df.head().to_dict()`, of which only the keys are modelled

  /** `analyze_data` of Searching_Agent_api.py. */
  method AnalyzeSample(fileExists: bool, df: DataFrame, dates: DateColumn) returns (r: Sample)
    requires df.Valid()
    modifies df
    ensures df.Valid() && df.columns == old(df.columns) && df.rowCount == old(df.rowCount)
    ensures !fileExists ==> r == NoSample && df.data == old(df.data)
    ensures r.SampleKeyError? <==> fileExists && !Loadable(fileExists, old(df.columns))
    ensures r.SampleKeyError? ==>
      var k := FirstAbsent(NumericColumns, old(df.columns));
      r.column == if k < |NumericColumns| then NumericColumns[k] else "date"
    ensures r.SampleDateError? <==> Loadable(fileExists, old(df.columns)) && dates.Unparsable?
    ensures r.Head? ==> r.columns == old(df.columns) && df.data == Cleaned(old(df.data), NumericColumns)
    ensures r.Head? <==> Loadable(fileExists, old(df.columns)) && dates.Parsed?
  {
    var load := LoadAndClean(fileExists, df, dates);
    FirstAbsentAll(NumericColumns, old(df.columns));
    match load
    case NoFile =>
      return NoSample;
    case KeyError(column) =>
      return SampleKeyError(column);
    case DateValueError =>
      return SampleDateError;
    case Loaded =>
      return Head(df.columns);
  }
}
