/**
 * The location argument as the program uses it: stripped of every character
 * that is not an ASCII letter or a space, then used both as the last path
 * segment of the request URL and as the stem of the output file name.
 */
module Location {
  import opened Strings

  /** The lookup service's endpoint; the sanitised location is appended to it verbatim. */
  const Endpoint: string := "http://api.goeuro.com/api/v2/position/suggest/en/"

  /** The extension of the output file. */
  const FileExt: string := ".csv"

  /** The characters the sanitiser keeps: `A`-`Z`, `a`-`z` and the space. */
  predicate IsLocationChar(c: char)
  {
    ('A' <= c <= 'Z') || ('a' <= c <= 'z') || c == ' '
  }

  /** The location with every character outside `[a-zA-Z ]` removed. */
  function Sanitize(location: string): (r: string)
    ensures |r| <= |location|
    ensures forall i :: 0 <= i < |r| ==> IsLocationChar(r[i])
  {
    Filter(IsLocationChar, location)
  }

  /** Each character occurs in the result as often as in the input when it is a letter or a space, and never otherwise. */
  lemma SanitizeKeepsExactly(location: string, c: char)
    ensures multiset(Sanitize(location))[c] == if IsLocationChar(c) then multiset(location)[c] else 0
  {
    FilterCount(IsLocationChar, location, c);
  }

  /** Sanitising a concatenation sanitises each part in place: the kept characters stay in their input order. */
  lemma SanitizeAppend(a: string, b: string)
    ensures Sanitize(a + b) == Sanitize(a) + Sanitize(b)
  {
    FilterAppend(IsLocationChar, a, b);
  }

  /** A location made only of letters and spaces is left as it is. */
  lemma SanitizeKeepsClean(location: string)
    requires forall i :: 0 <= i < |location| ==> IsLocationChar(location[i])
    ensures Sanitize(location) == location
  {
    FilterKeepsAll(IsLocationChar, location);
  }

  /** Sanitising twice gives the same result as sanitising once. */
  lemma SanitizeIdempotent(location: string)
    ensures Sanitize(Sanitize(location)) == Sanitize(location)
  {
    FilterIdempotent(IsLocationChar, location);
  }

  /** "Neu Berlin" holds only letters and a space, so it stays as it is. */
  lemma SanitizeKeepsNeuBerlin()
    ensures Sanitize("Neu Berlin") == "Neu Berlin"
  {
    var kept := "Neu Berlin";
    assert forall i :: 0 <= i < |kept| ==> kept[i] in "NeuBrlin ";
    SanitizeKeepsClean(kept);
  }

  /** "!2" holds neither letters nor spaces, so nothing of it is kept. */
  lemma SanitizeDropsBangTwo()
    ensures Sanitize("!2") == []
  {
    FilterDropsAll(IsLocationChar, "!2");
  }

  /** Punctuation and digits go, letters and the space stay: "Neu Berlin!2" becomes "Neu Berlin". */
  lemma SanitizeExample()
    ensures Sanitize("Neu Berlin!2") == "Neu Berlin"
  {
    assert "Neu Berlin" + "!2" == "Neu Berlin!2";
    SanitizeAppend("Neu Berlin", "!2");
    SanitizeKeepsNeuBerlin();
    SanitizeDropsBangTwo();
  }

  /**
   * The request URL: the endpoint followed by the sanitised location, without
   * percent-encoding; the path segment can hold no `/`, `?`, `%` or `#`.
   */
  function RequestUrl(location: string): (url: string)
    ensures |Endpoint| <= |url| <= |Endpoint| + |location|
    ensures url[..|Endpoint|] == Endpoint
    ensures forall i :: |Endpoint| <= i < |url| ==> IsLocationChar(url[i])
  {
    Endpoint + Sanitize(location)
  }

  /** The output file name for an already sanitised location. */
  function FileName(location: string): string
  {
    location + FileExt
  }

  /** The URL's last path segment and the output file's stem are the same string. */
  lemma UrlSegmentIsFileStem(location: string)
    ensures RequestUrl(location)[|Endpoint|..] == FileName(Sanitize(location))[..|Sanitize(location)|]
    ensures FileName(Sanitize(location))[|Sanitize(location)|..] == FileExt
  {
  }
}
