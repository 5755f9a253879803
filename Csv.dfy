/**
 * The transformer: each element of the parsed response array is either a
 * well-formed location record or a malformed one (one the JSON library
 * rejects). Each well-formed record becomes one CSV line
 * `id,"name","type",latitude,longitude` built by plain concatenation; the
 * malformed ones are skipped and the rest keep their array order.
 */
module Csv {
  import opened Wrappers
  import opened Strings

  /** Java's 64-bit `long`, the type the record's `_id` is read as. */
  type Long = n: int | -0x8000_0000_0000_0000 <= n < 0x8000_0000_0000_0000

  /**
   * One element of the response array. `placeType` is the JSON field `type`;
   * latitude and longitude are kept as the text Java's `double` conversion
   * gives them.
   */
  datatype Record =
    | Valid(id: Long, name: string, placeType: string, latitude: string, longitude: string)
    | Malformed

  predicate IsWellFormed(r: Record)
  {
    r.Valid?
  }

  predicate IsDigit(c: char)
  {
    '0' <= c <= '9'
  }

  predicate AllDigits(s: string)
  {
    forall i :: 0 <= i < |s| ==> IsDigit(s[i])
  }

  predicate IsComma(c: char)
  {
    c == ','
  }

  predicate IsQuote(c: char)
  {
    c == '"'
  }

  function DigitValue(c: char): (d: nat)
    requires IsDigit(c)
    ensures d < 10
  {
    c as int - '0' as int
  }

  function DigitChar(d: nat): (c: char)
    requires d < 10
    ensures IsDigit(c) && DigitValue(c) == d
  {
    ('0' as int + d) as char
  }

  /** The decimal digits of `n`, most significant first, with no leading zero. */
  function NatToDecimal(n: nat): (r: string)
    ensures r != [] && AllDigits(r)
    ensures r[0] == '0' ==> n == 0
  {
    if n < 10 then [DigitChar(n)] else NatToDecimal(n / 10) + [DigitChar(n % 10)]
  }

  /** The number a string of decimal digits denotes. */
  function DecimalToNat(s: string): nat
    requires AllDigits(s)
  {
    if s == [] then 0 else 10 * DecimalToNat(s[..|s| - 1]) + DigitValue(s[|s| - 1])
  }

  /** Reading back the digits of `n` gives `n`. */
  lemma {:induction false} DecimalRoundTrip(n: nat)
    ensures DecimalToNat(NatToDecimal(n)) == n
  {
    if n >= 10 {
      var r := NatToDecimal(n);
      assert r[..|r| - 1] == NatToDecimal(n / 10);
      DecimalRoundTrip(n / 10);
    }
  }

  /** The text of a `long` in string concatenation: a minus sign for negatives, then the digits. */
  function LongToDecimal(n: Long): (r: string)
    ensures r != [] && (r[0] == '-' <==> n < 0)
    ensures AllDigits(if n < 0 then r[1..] else r)
  {
    if n < 0 then "-" + NatToDecimal(-(n as int)) else NatToDecimal(n)
  }

  /** Reads an optionally signed decimal integer. */
  function ParseInteger(s: string): Option<int>
  {
    if |s| > 1 && s[0] == '-' && AllDigits(s[1..]) then Some(-(DecimalToNat(s[1..]) as int))
    else if s != [] && AllDigits(s) then Some(DecimalToNat(s))
    else None
  }

  /** The id's text reads back as the id. */
  lemma LongRoundTrip(n: Long)
    ensures ParseInteger(LongToDecimal(n)) == Some(n as int)
  {
    var r := LongToDecimal(n);
    if n < 0 {
      assert r[1..] == NatToDecimal(-(n as int));
      DecimalRoundTrip(-(n as int));
    } else {
      DecimalRoundTrip(n);
    }
  }

  /** The id's text is made of digits and at most a leading minus sign: no comma, quote or line break. */
  lemma LongTextIsNumeric(n: Long)
    ensures forall i :: 0 <= i < |LongToDecimal(n)| ==> IsDigit(LongToDecimal(n)[i]) || LongToDecimal(n)[i] == '-'
  {
  }

  /** The CSV line of a well-formed record; name and type are quoted but inserted verbatim, with no escaping. */
  function CsvLine(r: Record): (line: string)
    requires r.Valid?
    ensures |line| == |LongToDecimal(r.id)| + |r.name| + |r.placeType| + |r.latitude| + |r.longitude| + 8
    ensures line[..|LongToDecimal(r.id)|] == LongToDecimal(r.id)
    ensures line[|line| - |r.longitude|..] == r.longitude
  {
    LongToDecimal(r.id) + ",\"" + r.name + "\",\"" + r.placeType + "\"," + r.latitude + "," + r.longitude
  }

  /** The part of `s` before the first element satisfying `p`, and the rest from that element on. */
  function Cut(p: char -> bool, s: string): (string, string)
  {
    var i := FirstWhere(p, s);
    (s[..i], s[i..])
  }

  /** `s` without the prefix `lit`, if it starts with it. */
  function Skip(lit: string, s: string): Option<string>
  {
    if |lit| <= |s| && s[..|lit|] == lit then Some(s[|lit|..]) else None
  }

  /**
   * A field ends at the first character satisfying `p`, where the separator
   * `sep` must follow; the field and the text after the separator.
   */
  function Field(p: char -> bool, sep: string, s: string): Option<(string, string)>
  {
    var (field, rest) := Cut(p, s);
    match Skip(sep, rest)
    case None => None
    case Some(after) => Some((field, after))
  }

  /** A field free of `p` characters, followed by the separator, is cut off exactly. */
  lemma FieldAt(p: char -> bool, sep: string, a: string, b: string)
    requires forall j :: 0 <= j < |a| ==> !p(a[j])
    requires sep != [] && p(sep[0])
    ensures Field(p, sep, a + (sep + b)) == Some((a, b))
  {
    FirstWhereAt(p, a, sep + b);
    assert (a + (sep + b))[..|a|] == a;
    assert (a + (sep + b))[|a|..] == sep + b;
    assert (sep + b)[..|sep|] == sep;
    assert (sep + b)[|sep|..] == b;
  }

  /** Splits `name","type",latitude,longitude` at the first quote, the next quote and the next comma. */
  function ParseQuotedTail(s: string): Option<(string, string, string, string)>
  {
    match Field(IsQuote, "\",\"", s)
    case None => None
    case Some((name, r4)) =>
      match Field(IsQuote, "\",", r4)
      case None => None
      case Some((placeType, r6)) =>
        match Field(IsComma, ",", r6)
        case None => None
        case Some((latitude, longitude)) => Some((name, placeType, latitude, longitude))
  }

  /**
   * Splits a line back into a record: the id up to the first comma, the name
   * and the type between quotes, the latitude up to the next comma and the
   * longitude to the end.
   */
  function ParseCsvLine(line: string): Option<Record>
  {
    match Field(IsComma, ",\"", line)
    case None => None
    case Some((idText, rest)) =>
      match (ParseInteger(idText), ParseQuotedTail(rest))
      case (Some(id), Some((name, placeType, latitude, longitude))) =>
        if -0x8000_0000_0000_0000 <= id < 0x8000_0000_0000_0000
        then Some(Valid(id, name, placeType, latitude, longitude))
        else None
      case _ => None
  }

  /** The quoted part of a CSV line splits back into name, type, latitude and longitude. */
  lemma QuotedTailRoundTrip(name: string, placeType: string, latitude: string, longitude: string)
    requires '"' !in name && '"' !in placeType && ',' !in latitude
    ensures ParseQuotedTail(name + ("\",\"" + (placeType + ("\"," + (latitude + ("," + longitude)))))) ==
            Some((name, placeType, latitude, longitude))
  {
    var r6 := latitude + ("," + longitude);
    var r4 := placeType + ("\"," + r6);
    FieldAt(IsQuote, "\",\"", name, r4);
    FieldAt(IsQuote, "\",", placeType, r6);
    FieldAt(IsComma, ",", latitude, longitude);
  }

  /**
   * A line splits back into its record whenever the name and the type hold no
   * quote and the latitude holds no comma.
   */
  lemma CsvLineRoundTrip(r: Record)
    requires r.Valid?
    requires '"' !in r.name && '"' !in r.placeType && ',' !in r.latitude
    ensures ParseCsvLine(CsvLine(r)) == Some(r)
  {
    var idText := LongToDecimal(r.id);
    var tail := r.name + ("\",\"" + (r.placeType + ("\"," + (r.latitude + ("," + r.longitude)))));
    assert CsvLine(r) == idText + (",\"" + tail);
    assert forall j :: 0 <= j < |idText| ==> !IsComma(idText[j]) by {
      LongTextIsNumeric(r.id);
    }
    FieldAt(IsComma, ",\"", idText, tail);
    QuotedTailRoundTrip(r.name, r.placeType, r.latitude, r.longitude);
    LongRoundTrip(r.id);
  }

  /** Because nothing is escaped, two different records can give the same line. */
  lemma CsvLineIsNotInjective()
    ensures exists r1: Record, r2: Record :: r1.Valid? && r2.Valid? && r1 != r2 && CsvLine(r1) == CsvLine(r2)
  {
    var r1 := Valid(1, "a\",\"b", "c", "0", "0");
    var r2 := Valid(1, "a", "b\",\"c", "0", "0");
    assert CsvLine(r1) == CsvLine(r2);
  }

  /** The lines one array element contributes: its CSV line, or nothing when it is malformed. */
  function FormatRecord(r: Record): seq<string>
  {
    if r.Valid? then [CsvLine(r)] else []
  }

  /** The CSV lines of the response array: the well-formed records formatted, in array order. */
  function CsvLines(records: seq<Record>): (lines: seq<string>)
    ensures |lines| <= |records|
  {
    if records == [] then [] else FormatRecord(records[0]) + CsvLines(records[1..])
  }

  /** The lines of a concatenation are the lines of each part, in order. */
  lemma {:induction false} CsvLinesAppend(a: seq<Record>, b: seq<Record>)
    ensures CsvLines(a + b) == CsvLines(a) + CsvLines(b)
  {
    if a == [] {
      assert a + b == b;
    } else {
      assert (a + b)[0] == a[0];
      assert (a + b)[1..] == a[1..] + b;
      CsvLinesAppend(a[1..], b);
    }
  }

  /** The k-th line is the CSV line of the k-th well-formed record: one line per well-formed record and no other. */
  lemma {:induction false} CsvLinesAreValidRecords(records: seq<Record>)
    ensures |CsvLines(records)| == |Filter(IsWellFormed, records)|
    ensures forall k :: 0 <= k < |CsvLines(records)| ==>
      Filter(IsWellFormed, records)[k].Valid? && CsvLines(records)[k] == CsvLine(Filter(IsWellFormed, records)[k])
  {
    if records != [] {
      CsvLinesAreValidRecords(records[1..]);
    }
  }

  /** No line is produced exactly when every record is malformed (in particular for an empty array). */
  lemma {:induction false} CsvLinesEmptyIff(records: seq<Record>)
    ensures CsvLines(records) == [] <==> forall i :: 0 <= i < |records| ==> records[i].Malformed?
  {
    if records != [] {
      CsvLinesEmptyIff(records[1..]);
      assert forall i :: 1 <= i < |records| ==> records[i] == records[1..][i - 1];
    }
  }

  /** The id 1 is written as the single digit "1". */
  lemma LongToDecimalOne()
    ensures LongToDecimal(1) == "1"
  {
  }

  /** The Berlin record's CSV line, character for character. */
  lemma BerlinCsvLine()
    ensures CsvLine(Valid(1, "Berlin", "city", "52.5", "13.4")) == "1,\"Berlin\",\"city\",52.5,13.4"
  {
    LongToDecimalOne();
  }

  /** A one-record Berlin response gives exactly one line. */
  lemma BerlinLine()
    ensures CsvLines([Valid(1, "Berlin", "city", "52.5", "13.4")]) == ["1,\"Berlin\",\"city\",52.5,13.4"]
  {
    var record := Valid(1, "Berlin", "city", "52.5", "13.4");
    BerlinCsvLine();
    assert CsvLines([record]) == [CsvLine(record)] + CsvLines([]);
  }

  /** The lines of the first `i + 1` records are those of the first `i` and then the lines of record `i`. */
  lemma CsvLinesExtend(records: seq<Record>, i: nat)
    requires i < |records|
    ensures CsvLines(records[..i + 1]) == CsvLines(records[..i]) + FormatRecord(records[i])
  {
    assert records[..i + 1] == records[..i] + [records[i]];
    CsvLinesAppend(records[..i], [records[i]]);
    assert CsvLines([records[i]]) == FormatRecord(records[i]) + CsvLines([]);
  }

  /**
   * The loop over the parsed array: each well-formed record is formatted and
   * added to the list, each malformed one is skipped and the loop goes on.
   */
  method ToCsvLines(records: seq<Record>) returns (csvArray: seq<string>)
    ensures csvArray == CsvLines(records)
  {
    csvArray := [];
    var count := |records|;
    for i := 0 to count
      invariant csvArray == CsvLines(records[..i])
    {
      CsvLinesExtend(records, i);
      match records[i]
      case Valid(id, name, placeType, latitude, longitude) =>
        var csvStr := LongToDecimal(id) + ",\"" + name + "\",\"" + placeType + "\"," + latitude + "," + longitude;
        assert [csvStr] == FormatRecord(records[i]);
        csvArray := csvArray + [csvStr];
      case Malformed =>
    }
    assert records[..count] == records;
  }
}
