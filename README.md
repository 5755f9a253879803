# GoEuro location lookup to CSV, modelled in Dafny

The program takes a place name on the command line, asks the GoEuro
position-suggest service about it, turns the JSON array it gets back into CSV
lines and writes them to `<location>.csv`. This project models the rules that
sit between the I/O calls and proves what they guarantee:

- **Location sanitiser** (`Location.dfy`). The argument loses every character
  outside `[a-zA-Z ]`. The result is the last path segment of the request URL
  and the stem of the output file name.
- **Body accumulation** (`Fetch.dfy`). A buffered reader returns the response
  line by line. A line ends at `\n`, `\r` or `\r\n`, and the terminator is not
  part of the line. Every line is appended to one buffer with no separator,
  and an empty buffer ends the run. `LineReader` is the reader as a class, and
  `ReadBody` is the `while` loop.
- **Record-to-CSV transformer** (`Csv.dfy`). Each array element is either a
  well-formed `Record.Valid` or `Record.Malformed`. Each well-formed record
  becomes `id,"name","type",latitude,longitude` by plain concatenation, with no
  escaping. Malformed records are skipped. `ToCsvLines` is the `for` loop.
- **Writer** (`Writer.dfy`). `Directory` maps file names to contents.
  `WriteToFile` truncates `location + ".csv"` and then writes each entry and a
  newline, in order.
- **Run** (`Pipeline.dfy`). It covers the argument check in `main`, the fetch
  and the transform. Each way the run can end is an `Outcome`, and only
  `Written` changes the directory.

`Strings.dfy` holds the shared sequence helpers and `Wrappers.dfy` holds
`Option`.

The HTTP exchange and the JSON library are parameters of the run:

- `server: string -> Response` gives what the connection yields for a URL:
  `Unreachable` for an `IOException`, `NoStream` for a null input stream, or
  `Stream(text)`.
- `parse: string -> Option<seq<Record>>` gives the elements of the parsed
  array, or `None` when the whole body is not a JSON array.

The text handed to the JSON parser is the response with every line terminator
removed, not the response as sent. That text is empty when the
response holds nothing but line terminators.

## Model

| member | source | states |
|---|---|---|
| `Location.Sanitize` | GoEuroTest.java:45 | every character of the result is an ASCII letter or a space, and the result is no longer than the input |
| `Location.SanitizeKeepsExactly` | GoEuroTest.java:45 | each letter and space occurs in the result exactly as often as in the input; every other character never occurs |
| `Location.SanitizeAppend` | GoEuroTest.java:45 | sanitising `a + b` gives `Sanitize(a) + Sanitize(b)`, so kept characters stay in input order |
| `Location.SanitizeKeepsClean` | GoEuroTest.java:45 | a location made only of letters and spaces comes back unchanged |
| `Location.SanitizeIdempotent` | GoEuroTest.java:45 | sanitising twice is the same as sanitising once |
| `Location.SanitizeExample` | GoEuroTest.java:45 | `"Neu Berlin!2"` becomes `"Neu Berlin"` |
| `Location.RequestUrl` | GoEuroTest.java:47 | the URL is the endpoint followed by a segment of letters and spaces only, no longer than the raw location |
| `Location.UrlSegmentIsFileStem` | GoEuroTest.java:155 | the URL's path segment (line 47) and the output file's stem are the same sanitised string, and the file name ends in `.csv` |
| `Fetch.Lines` | GoEuroTest.java:66 | the lines `readLine` returns one per call, never more lines than characters; its partner `LinesDropTerminators` shows that joining them drops exactly the terminators |
| `Fetch.LinesHaveNoTerminator` | GoEuroTest.java:66 | no line the reader returns holds `\n` or `\r` |
| `Fetch.LineReader.ReadLine` | GoEuroTest.java:66 | returns the next unread line and advances past it, or `None` exactly when no line is left |
| `Fetch.ReadBody` | GoEuroTest.java:64-68 | the buffer is the concatenation of all the lines the reader returns, and the reader ends exhausted |
| `Fetch.LinesDropTerminators` | GoEuroTest.java:64-68 | the concatenated lines are the response text with every line terminator dropped and nothing else changed |
| `Fetch.EmptyBodyIffOnlyTerminators` | GoEuroTest.java:70-73 | the buffer is empty exactly when the response holds only line terminators |
| `Csv.NatToDecimal` | GoEuroTest.java:128 | the digits of an id are non-empty decimal digits with no leading zero |
| `Csv.LongToDecimal` | GoEuroTest.java:128 | the id's text starts with `-` exactly for negative ids, and the rest is digits |
| `Csv.DecimalRoundTrip` | GoEuroTest.java:128 | reading back the digits of a natural number gives that number |
| `Csv.LongRoundTrip` | GoEuroTest.java:128 | reading back the text of a `long` id gives the id |
| `Csv.LongTextIsNumeric` | GoEuroTest.java:128 | the id's text holds only digits and the minus sign |
| `Csv.CsvLine` | GoEuroTest.java:128-129 | the line is the id text, name, type, latitude and longitude verbatim plus exactly eight separator characters (no escaping), starting with the id and ending with the longitude; its partner `CsvLineRoundTrip` splits it back |
| `Csv.CsvLineRoundTrip` | GoEuroTest.java:128-129 | splitting a record's line at its commas and quotes gives back the record, provided name and type hold no quote and latitude holds no comma |
| `Csv.CsvLineIsNotInjective` | GoEuroTest.java:128-129 | name and type are inserted verbatim, so two different records can give the same line |
| `Csv.BerlinLine` | GoEuroTest.java:128-130 | the record `1, Berlin, city, 52.5, 13.4` gives the single line `1,"Berlin","city",52.5,13.4` |
| `Csv.CsvLines` | GoEuroTest.java:119-135 | there are never more lines than records |
| `Csv.CsvLinesAppend` | GoEuroTest.java:119-135 | the lines of a concatenation of arrays are the lines of each part, in order |
| `Csv.CsvLinesAreValidRecords` | GoEuroTest.java:119-135 | the k-th line is the CSV line of the k-th well-formed record, with one line per well-formed record and none for malformed ones |
| `Csv.CsvLinesEmptyIff` | GoEuroTest.java:119-137 | no line is produced exactly when every record is malformed, which includes the empty array |
| `Csv.CsvLinesExtend` | GoEuroTest.java:119-135 | one more record adds its line, or nothing when it is malformed |
| `Csv.ToCsvLines` | GoEuroTest.java:118-135 | the loop's list equals the formatted well-formed records in array order, skipping malformed ones |
| `Writer.Render` | GoEuroTest.java:158-161 | the content is empty exactly when there is no entry and otherwise ends with a newline; its partner `RenderReadsBack` reads the entries back line by line |
| `Writer.RenderAppend` | GoEuroTest.java:158-161 | writing `a + b` writes `a`'s content and then `b`'s |
| `Writer.RenderReadsBack` | GoEuroTest.java:158-161 | reading the written content line by line gives back the entries, provided no entry holds a line terminator |
| `Writer.Directory.WriteToFile` | GoEuroTest.java:150-161 | `location + ".csv"` ends up holding each entry followed by a newline, replacing old content; no other file changes, and nothing changes when the file cannot be opened |
| `Writer.WriteTwice` | GoEuroTest.java:150-161 | writing the same entries twice leaves the same content as writing once, whatever the file held before |
| `Pipeline.JsonOutcome` | GoEuroTest.java:100-144 | the transformer writes iff the body parses to an array holding a well-formed record and the file can be opened; the file is `location + ".csv"` holding the rendered CSV lines |
| `Pipeline.LocationOutcome` | GoEuroTest.java:41-95 | a write happens only after the response was read and its text without terminators is non-empty; the file is named after the sanitised location |
| `Pipeline.RunOutcome` | GoEuroTest.java:29-36 | a write needs a location argument; the file is the sanitised first argument plus ".csv", with a stem of letters and spaces |
| `Pipeline.GetLocationDataFromJson` | GoEuroTest.java:100-144 | the outcome is a JSON error, an empty array, no well-formed record, a failed open, or a write of the rendered CSV lines; the directory changes only for a write |
| `Pipeline.GetLocationData` | GoEuroTest.java:41-95 | sanitises, requests, reads the body and stops early on an I/O error, a missing stream or an empty body; otherwise it hands the body on |
| `Pipeline.Run` | GoEuroTest.java:29-36 | with no argument nothing is requested and nothing is written; otherwise the first argument is looked up |
| `Pipeline.WrittenIff` | GoEuroTest.java:70-139 | a file is written iff the response was read, its text without terminators is non-empty and parses to an array with a well-formed record, and the file can be opened |
| `Pipeline.WrittenFile` | GoEuroTest.java:137-155 | a written file is named `Sanitize(location) + ".csv"`, has a stem of letters and spaces, and holds the rendered CSV lines, at least one and at most one per record |
| `Pipeline.NoArgumentNoRequest` | GoEuroTest.java:29-36 | with no argument the run ends with the prompt, whatever the server and parser, and any directory is left unchanged |
| `Pipeline.EmptyBodySkipsParse` | GoEuroTest.java:70-73 | a response of only line terminators ends the run with "no data" before parsing, whatever the parser returns |
| `Pipeline.EmptyArrayNoWrite` | GoEuroTest.java:113-116 | an empty array ends the run with "no data" and leaves the directory unchanged |
| `Pipeline.CsvLineHasNoTerminator` | GoEuroTest.java:128-129 | the line of a well-formed record whose name, type, latitude and longitude hold no line terminator holds none either |
| `Pipeline.FileReadsBackRecords` | GoEuroTest.java:119-161 | provided no field holds a line terminator, name and type hold no quote, and latitude holds no comma, reading the written file back gives one line per well-formed record, in array order, and each splits back into its record |
| `Pipeline.BerlinExample` | GoEuroTest.java:128-161 | the one-record Berlin response writes `Berlin.csv` holding exactly `1,"Berlin","city",52.5,13.4` and a newline |

## Left out

- The HTTP connection, its `Accept-Charset` header and the two 10-second timeouts (GoEuroTest.java:47-62) are network I/O. `server` gives the response instead, and a failed or timed-out connection is `Unreachable`.
- Parsing through `org.json` (GoEuroTest.java:111, 121-127) is a foreign library. `parse` gives `None` when the body is not an array, and each element is `Valid` or `Malformed`. An element the library rejects is `Malformed`; the library's own coercions (numeric strings accepted by `getLong` and `getDouble`, a fractional `_id` truncated) happen inside `parse` and are not modelled.
- The conversion of latitude and longitude from `double` to text is floating-point formatting. Both values are opaque strings in `Record`.
- UTF-8 decoding of the response and encoding of the file are not modelled. The response is already-decoded text, and the file content is text.
- The messages printed to standard output and standard error are not modelled. `Outcome` names which one the run ends with.
- The platform line separator used by `newLine()` is fixed to `\n`.
- An `IOException` in the middle of writing or on closing (GoEuroTest.java:163-181) is not modelled. What a buffered writer has already flushed at that point is not determined by the code. Only a failed open is modelled, as names in `Directory.denied`.
- Releasing the connection, the reader and the writers in the `finally` blocks (GoEuroTest.java:81-94, 166-181) is resource plumbing with no effect on the result.
- `args == null` and `jsonArray == null` cannot happen, so the model has no case for them.
- Concurrent runs writing the same file are not modelled.
