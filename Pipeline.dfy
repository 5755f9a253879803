/**
 * The run as a whole: the argument check, the fetch of the response body,
 * the JSON-to-CSV step and the decision to write. The HTTP exchange and the
 * JSON library are parameters: `server` gives the response for a URL, and
 * `parse` gives the elements of the parsed array, or `None` when the body is
 * not a JSON array at all.
 */
module Pipeline {
  import opened Wrappers
  import opened Strings
  import opened Location
  import opened Fetch
  import opened Csv
  import opened Writer

  /** What the server gives back for a request. */
  datatype Response =
    | Unreachable          // the connection, a timeout or a read failed
    | NoStream             // the connection gave no input stream
    | Stream(text: string) // the decoded response text

  /** How a run ends; only `Written` changes the directory. */
  datatype Outcome =
    | NoLocation                                // no argument: "Please supply a location name."
    | FetchFailed(location: string)             // an I/O error while fetching
    | StreamUnavailable                         // "Unable to read data from endpoint"
    | EmptyBody(location: string)               // "No data found" for an empty body
    | JsonError                                 // the body is not a JSON array
    | EmptyArray(location: string)              // "No data found" for an empty array
    | NoValidRecords                            // every record was malformed
    | WriteFailed(fileName: string)             // the output file could not be opened
    | Written(fileName: string, content: string)

  /** The directory after a run with this outcome. */
  function Effect(files: map<string, string>, outcome: Outcome): map<string, string>
  {
    if outcome.Written? then files[outcome.fileName := outcome.content] else files
  }

  /** The outcome of handing the response body to the transformer. */
  function JsonOutcome(body: string, location: string, parse: string -> Option<seq<Record>>, denied: set<string>): (outcome: Outcome)
    ensures outcome.Written? <==>
      && parse(body).Some?
      && (exists i :: 0 <= i < |parse(body).value| && parse(body).value[i].Valid?)
      && FileName(location) !in denied
    ensures outcome.Written? ==>
      outcome.fileName == location + ".csv" && outcome.content == Render(CsvLines(parse(body).value))
  {
    match parse(body)
    case None => JsonError
    case Some(records) =>
      CsvLinesEmptyIff(records);
      if records == [] then EmptyArray(location)
      else if CsvLines(records) == [] then NoValidRecords
      else if FileName(location) in denied then WriteFailed(FileName(location))
      else Written(FileName(location), Render(CsvLines(records)))
  }

  /** The outcome of looking up one location. */
  function LocationOutcome(rawLocation: string, server: string -> Response, parse: string -> Option<seq<Record>>, denied: set<string>): (outcome: Outcome)
    ensures outcome.Written? ==>
      && server(RequestUrl(rawLocation)).Stream?
      && Filter(IsLineChar, server(RequestUrl(rawLocation)).text) != []
      && outcome.fileName == Sanitize(rawLocation) + ".csv"
      && outcome.content != []
  {
    var location := Sanitize(rawLocation);
    match server(RequestUrl(rawLocation))
    case Unreachable => FetchFailed(location)
    case NoStream => StreamUnavailable
    case Stream(text) =>
      LinesDropTerminators(text);
      var body := Concat(Lines(text));
      if body == [] then EmptyBody(location) else JsonOutcome(body, location, parse, denied)
  }

  /** The outcome of a run with these command-line arguments. */
  function RunOutcome(args: seq<string>, server: string -> Response, parse: string -> Option<seq<Record>>, denied: set<string>): (outcome: Outcome)
    ensures outcome.Written? ==>
      && |args| > 0
      && outcome.fileName == Sanitize(args[0]) + ".csv"
      && forall i :: 0 <= i < |outcome.fileName| - 4 ==> IsLocationChar(outcome.fileName[i])
  {
    if |args| > 0 then LocationOutcome(args[0], server, parse, denied) else NoLocation
  }

  /** The transformer step: parse, format the well-formed records, and write only if a line was produced. */
  method GetLocationDataFromJson(locationJsonStr: string, location: string, parse: string -> Option<seq<Record>>, dir: Directory)
    returns (outcome: Outcome)
    modifies dir
    ensures outcome == JsonOutcome(locationJsonStr, location, parse, dir.denied)
    ensures dir.files == Effect(old(dir.files), outcome)
  {
    match parse(locationJsonStr)
    case None =>
      outcome := JsonError;
    case Some(jsonArray) =>
      if |jsonArray| == 0 {
        return EmptyArray(location);
      }
      var csvArray := ToCsvLines(jsonArray);
      if |csvArray| > 0 {
        var ok := dir.WriteToFile(csvArray, location);
        outcome := if ok then Written(FileName(location), Render(csvArray)) else WriteFailed(FileName(location));
      } else {
        outcome := NoValidRecords;
      }
  }

  /** The fetch step: sanitise, request, read the body line by line, and stop early on an empty body. */
  method GetLocationData(rawLocation: string, server: string -> Response, parse: string -> Option<seq<Record>>, dir: Directory)
    returns (outcome: Outcome)
    modifies dir
    ensures outcome == LocationOutcome(rawLocation, server, parse, dir.denied)
    ensures dir.files == Effect(old(dir.files), outcome)
  {
    var location := Sanitize(rawLocation);
    match server(Endpoint + location)
    case Unreachable =>
      outcome := FetchFailed(location);
    case NoStream =>
      outcome := StreamUnavailable;
    case Stream(text) =>
      var reader := new LineReader(text);
      var buffer := ReadBody(reader);
      if |buffer| == 0 {
        return EmptyBody(location);
      }
      outcome := GetLocationDataFromJson(buffer, location, parse, dir);
  }

  /** The entry point: the first argument is the location; without one nothing is requested. */
  method Run(args: seq<string>, server: string -> Response, parse: string -> Option<seq<Record>>, dir: Directory)
    returns (outcome: Outcome)
    modifies dir
    ensures outcome == RunOutcome(args, server, parse, dir.denied)
    ensures dir.files == Effect(old(dir.files), outcome)
  {
    if |args| > 0 {
      outcome := GetLocationData(args[0], server, parse, dir);
    } else {
      outcome := NoLocation;
    }
  }

  /**
   * A file is written exactly when the body (the response text without line
   * terminators) is non-empty, parses as an array holding at least one
   * well-formed record, and the output file can be opened.
   */
  lemma WrittenIff(rawLocation: string, server: string -> Response, parse: string -> Option<seq<Record>>, denied: set<string>)
    ensures LocationOutcome(rawLocation, server, parse, denied).Written? <==>
      && server(RequestUrl(rawLocation)).Stream?
      && Filter(IsLineChar, server(RequestUrl(rawLocation)).text) != []
      && parse(Filter(IsLineChar, server(RequestUrl(rawLocation)).text)).Some?
      && (exists i :: 0 <= i < |parse(Filter(IsLineChar, server(RequestUrl(rawLocation)).text)).value| &&
                      parse(Filter(IsLineChar, server(RequestUrl(rawLocation)).text)).value[i].Valid?)
      && FileName(Sanitize(rawLocation)) !in denied
  {
    var response := server(RequestUrl(rawLocation));
    if response.Stream? {
      LinesDropTerminators(response.text);
      var body := Filter(IsLineChar, response.text);
      if parse(body).Some? {
        CsvLinesEmptyIff(parse(body).value);
      }
    }
  }

  /**
   * A written file is named after the sanitised location plus ".csv", its
   * stem holds only letters and spaces, and its content is the CSV lines of
   * the parsed records, between one and as many as there are records.
   */
  lemma WrittenFile(rawLocation: string, server: string -> Response, parse: string -> Option<seq<Record>>, denied: set<string>)
    requires LocationOutcome(rawLocation, server, parse, denied).Written?
    ensures var outcome := LocationOutcome(rawLocation, server, parse, denied);
      && outcome.fileName == Sanitize(rawLocation) + ".csv"
      && (forall i :: 0 <= i < |outcome.fileName| - 4 ==> IsLocationChar(outcome.fileName[i]))
      && server(RequestUrl(rawLocation)).Stream?
      && var body := Filter(IsLineChar, server(RequestUrl(rawLocation)).text);
         && parse(body).Some?
         && 0 < |CsvLines(parse(body).value)| <= |parse(body).value|
         && outcome.content == Render(CsvLines(parse(body).value))
  {
    LinesDropTerminators(server(RequestUrl(rawLocation)).text);
  }

  /** With no argument the run ends at once, whatever the server and the parser would do. */
  lemma NoArgumentNoRequest(server: string -> Response, parse: string -> Option<seq<Record>>, denied: set<string>, files: map<string, string>)
    ensures RunOutcome([], server, parse, denied) == NoLocation
    ensures Effect(files, RunOutcome([], server, parse, denied)) == files
  {
  }

  /** A response holding only line terminators ends the run without parsing or writing. */
  lemma EmptyBodySkipsParse(rawLocation: string, server: string -> Response, parse: string -> Option<seq<Record>>, denied: set<string>)
    requires server(RequestUrl(rawLocation)).Stream?
    requires forall i :: 0 <= i < |server(RequestUrl(rawLocation)).text| ==> IsTerminator(server(RequestUrl(rawLocation)).text[i])
    ensures LocationOutcome(rawLocation, server, parse, denied) == EmptyBody(Sanitize(rawLocation))
  {
    EmptyBodyIffOnlyTerminators(server(RequestUrl(rawLocation)).text);
  }

  /** An empty array ends the run without writing. */
  lemma EmptyArrayNoWrite(body: string, location: string, parse: string -> Option<seq<Record>>, denied: set<string>, files: map<string, string>)
    requires parse(body) == Some([])
    ensures JsonOutcome(body, location, parse, denied) == EmptyArray(location)
    ensures Effect(files, JsonOutcome(body, location, parse, denied)) == files
  {
  }

  /** A record that survives the trip to the file and back: nothing in it can be taken for a separator or a line break. */
  predicate IsPlain(r: Record)
  {
    r.Valid? ==>
      && '"' !in r.name && '"' !in r.placeType && ',' !in r.latitude
      && NoTerminator(r.name) && NoTerminator(r.placeType)
      && NoTerminator(r.latitude) && NoTerminator(r.longitude)
  }

  /** A CSV line holds a line terminator only if one of the record's text fields does. */
  lemma CsvLineHasNoTerminator(r: Record)
    requires r.Valid?
    requires NoTerminator(r.name) && NoTerminator(r.placeType)
    requires NoTerminator(r.latitude) && NoTerminator(r.longitude)
    ensures NoTerminator(CsvLine(r))
  {
  }

  /**
   * Reading the written file back line by line gives one line per well-formed
   * record, in array order, and each line splits back into its record.
   */
  lemma FileReadsBackRecords(records: seq<Record>)
    requires forall i :: 0 <= i < |records| ==> IsPlain(records[i])
    ensures |Lines(Render(CsvLines(records)))| == |Filter(IsWellFormed, records)|
    ensures forall k :: 0 <= k < |Filter(IsWellFormed, records)| ==>
      ParseCsvLine(Lines(Render(CsvLines(records)))[k]) == Some(Filter(IsWellFormed, records)[k])
  {
    var valid := Filter(IsWellFormed, records);
    var lines := CsvLines(records);
    CsvLinesAreValidRecords(records);
    FilterTakesFrom(IsWellFormed, records);
    forall k | 0 <= k < |lines|
      ensures NoTerminator(lines[k])
    {
      CsvLineHasNoTerminator(valid[k]);
    }
    RenderReadsBack(lines);
    forall k | 0 <= k < |valid|
      ensures ParseCsvLine(lines[k]) == Some(valid[k])
    {
      CsvLineRoundTrip(valid[k]);
    }
  }

  /** A one-record Berlin response gives one line, followed by a newline, in "Berlin.csv". */
  lemma BerlinExample(body: string, parse: string -> Option<seq<Record>>)
    requires parse(body) == Some([Valid(1, "Berlin", "city", "52.5", "13.4")])
    ensures JsonOutcome(body, "Berlin", parse, {}) == Written("Berlin.csv", "1,\"Berlin\",\"city\",52.5,13.4\n")
  {
    var line := "1,\"Berlin\",\"city\",52.5,13.4";
    BerlinLine();
    assert Render([line]) == line + "\n" by {
      assert Render([line]) == line + NewLine + Render([]);
    }
  }
}
