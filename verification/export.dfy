/**
 The data logic of the two request handlers: the preview slice of `index`
 (app.py line 58) and the file body and name of `download` (lines 68-78).
 */
module Export {
  import opened Wrappers
  import opened Builder

  /** How many mappings the index page shows. */
  const PreviewSize: nat := 10

  /** Line 58: `data[:10] if data else []`. */
  function Preview(ms: seq<Mapping>): (r: seq<Mapping>)
    ensures |r| == if |ms| < PreviewSize then |ms| else PreviewSize
    ensures r <= ms
  {
    if ms == [] then [] else ms[..if |ms| < PreviewSize then |ms| else PreviewSize]
  }

  const CsvHeader: string := "shortcut,phrase,locale\n"

  /** Line 76: one row, fields joined without any quoting. */
  function CsvRow(m: Mapping): string {
    m.shortcut + "," + m.phrase + ",en\n"
  }

  function CsvRows(ms: seq<Mapping>): string {
    if ms == [] then [] else CsvRow(ms[0]) + CsvRows(ms[1..])
  }

  /** Lines 74-76: the header followed by one row per mapping. */
  function ToCsv(ms: seq<Mapping>): (r: string)
    ensures CsvHeader <= r
    ensures ms == [] ==> r == CsvHeader
    ensures r[|r| - 1] == '\n'
  {
    CsvRowsEndWithNewline(ms);
    CsvHeader + CsvRows(ms)
  }

  lemma {:induction false} CsvRowsEndWithNewline(ms: seq<Mapping>)
    ensures ms != [] ==> CsvRows(ms)[|CsvRows(ms)| - 1] == '\n'
  {
    if ms != [] {
      CsvRowsEndWithNewline(ms[1..]);
    }
  }

  /** The loop of line 75 appends each row to what it has built so far. */
  lemma {:induction false} ToCsvAppend(ms: seq<Mapping>, m: Mapping)
    ensures ToCsv(ms + [m]) == ToCsv(ms) + CsvRow(m)
  {
    CsvRowsAppend(ms, m);
  }

  lemma {:induction false} CsvRowsAppend(ms: seq<Mapping>, m: Mapping)
    ensures CsvRows(ms + [m]) == CsvRows(ms) + CsvRow(m)
  {
    if ms == [] {
      assert [m][1..] == [];
    } else {
      assert (ms + [m])[1..] == ms[1..] + [m];
      CsvRowsAppend(ms[1..], m);
    }
  }

  /** Neither field of `m` contains a CSV delimiter. */
  predicate Plain(m: Mapping) {
    ',' !in m.shortcut && '\n' !in m.shortcut && ',' !in m.phrase && '\n' !in m.phrase
  }

  /** With no line break inside a field, the CSV text has one line per
      mapping plus the header line. */
  lemma CsvLineCount(ms: seq<Mapping>)
    requires forall j :: 0 <= j < |ms| ==> '\n' !in ms[j].shortcut && '\n' !in ms[j].phrase
    ensures multiset(ToCsv(ms))['\n'] == |ms| + 1
  {
    CsvRowsLineCount(ms);
    HeaderIsOneLine();
    assert multiset(ToCsv(ms)) == multiset(CsvHeader) + multiset(CsvRows(ms));
  }

  lemma HeaderIsOneLine()
    ensures multiset(CsvHeader)['\n'] == 1
  {
    var a, b, c := "shortcut,", "phrase,", "locale";
    assert '\n' !in a && '\n' !in b && '\n' !in c;
    assert CsvHeader == a + b + c + "\n";
    assert multiset(CsvHeader) == multiset(a) + multiset(b) + multiset(c) + multiset{'\n'};
  }

  lemma {:induction false} CsvRowsLineCount(ms: seq<Mapping>)
    requires forall j :: 0 <= j < |ms| ==> '\n' !in ms[j].shortcut && '\n' !in ms[j].phrase
    ensures multiset(CsvRows(ms))['\n'] == |ms|
  {
    if ms != [] {
      var m := ms[0];
      CsvRowsLineCount(ms[1..]);
      assert CsvRow(m) == m.shortcut + "," + m.phrase + ",en" + "\n";
      assert '\n' !in ",en";
    }
  }

  /** The index of the first `c` in `s`, or `|s|` when there is none. */
  function IndexOf(s: string, c: char): (k: nat)
    ensures k <= |s|
    ensures k < |s| ==> s[k] == c
    ensures forall i :: 0 <= i < k ==> s[i] != c
  {
    if s == [] then 0 else if s[0] == c then 0 else 1 + IndexOf(s[1..], c)
  }

  /** Reads one row back: `shortcut,phrase,en`. */
  function ParseRow(line: string): Option<Mapping> {
    var i := IndexOf(line, ',');
    if i == |line| then None
    else
      var rest := line[i + 1..];
      var j := IndexOf(rest, ',');
      if j == |rest| || rest[j + 1..] != "en" then None
      else Some(Mapping(rest[..j], line[..i]))
  }

  /** Reads newline-terminated rows back. */
  function ParseRows(s: string): Option<seq<Mapping>>
    decreases |s|
  {
    if s == [] then Some([])
    else
      var k := IndexOf(s, '\n');
      if k == |s| then None
      else
        match ParseRow(s[..k])
        case None => None
        case Some(m) =>
          match ParseRows(s[k + 1..])
          case None => None
          case Some(rest) => Some([m] + rest)
  }

  /** A reader for the CSV text: the header, then the rows. */
  function ParseCsv(text: string): Option<seq<Mapping>> {
    if CsvHeader <= text then ParseRows(text[|CsvHeader|..]) else None
  }

  lemma FirstIndex(s: string, c: char, k: nat)
    requires k < |s| && s[k] == c
    requires forall i :: 0 <= i < k ==> s[i] != c
    ensures IndexOf(s, c) == k
  {
  }

  lemma ParseRowOfCsvRow(m: Mapping)
    requires Plain(m)
    ensures ParseRow(m.shortcut + "," + m.phrase + ",en") == Some(m)
  {
    var line := m.shortcut + "," + m.phrase + ",en";
    var i := |m.shortcut|;
    assert forall k :: 0 <= k < i ==> line[k] == m.shortcut[k];
    FirstIndex(line, ',', i);
    var rest := line[i + 1..];
    assert rest == m.phrase + ",en";
    assert forall k :: 0 <= k < |m.phrase| ==> rest[k] == m.phrase[k];
    FirstIndex(rest, ',', |m.phrase|);
    assert rest[|m.phrase| + 1..] == "en";
    assert line[..i] == m.shortcut;
    assert rest[..|m.phrase|] == m.phrase;
  }

  /** Reading a text that starts with a delimiter-free row. */
  lemma ParseRowsCons(m: Mapping, t: string)
    requires Plain(m)
    ensures ParseRows(CsvRow(m) + t) ==
      match ParseRows(t)
      case None => None
      case Some(rest) => Some([m] + rest)
  {
    var line := m.shortcut + "," + m.phrase + ",en";
    var s := CsvRow(m) + t;
    assert s == line + "\n" + t;
    assert forall k :: 0 <= k < |line| ==> s[k] == line[k];
    assert '\n' !in line by {
      assert '\n' !in ",en";
    }
    FirstIndex(s, '\n', |line|);
    assert s[..|line|] == line;
    assert s[|line| + 1..] == t;
    ParseRowOfCsvRow(m);
  }

  /** Without delimiters inside the fields, the CSV text reads back as the
      mapping it was written from. */
  lemma CsvRoundTrip(ms: seq<Mapping>)
    requires forall j :: 0 <= j < |ms| ==> Plain(ms[j])
    ensures ParseCsv(ToCsv(ms)) == Some(ms)
  {
    CsvRowsRoundTrip(ms);
    assert ToCsv(ms)[|CsvHeader|..] == CsvRows(ms);
  }

  lemma {:induction false} CsvRowsRoundTrip(ms: seq<Mapping>)
    requires forall j :: 0 <= j < |ms| ==> Plain(ms[j])
    ensures ParseRows(CsvRows(ms)) == Some(ms)
  {
    if ms != [] {
      CsvRowsRoundTrip(ms[1..]);
      ParseRowsCons(ms[0], CsvRows(ms[1..]));
      assert ms == [ms[0]] + ms[1..];
    }
  }

  /** The file for a one-entry mapping, character for character. */
  lemma CsvFireExample()
    ensures ToCsv([Mapping("\U{1F525}", ":fire")]) == "shortcut,phrase,locale\n:fire,\U{1F525},en\n"
  {
  }

  /** Without quoting, a comma inside a field makes two different mappings
      produce the same CSV text. */
  lemma CsvCommaCollision()
    ensures ToCsv([Mapping("y", ":a,x")]) == ToCsv([Mapping("x,y", ":a")])
    ensures [Mapping("y", ":a,x")] != [Mapping("x,y", ":a")]
  {
  }

  const PlistFileName: string := "TypewiseEmojis.plist"
  const CsvFileName: string := "TypewiseEmojis.csv"

  /** What is handed to the file download. The property-list encoding itself
      belongs to `plistlib`; the model keeps the records it is given. */
  datatype Body = PlistRecords(records: seq<Mapping>) | CsvText(text: string)

  datatype Attachment = Attachment(body: Body, filename: string)

  /** Lines 68-78: `"ios"` gets the property list of the whole mapping, any
      other platform gets the CSV text. */
  function ExportFor(platform: string, ms: seq<Mapping>): (r: Attachment)
    ensures r.body.PlistRecords? <==> platform == "ios"
    ensures r.body.PlistRecords? ==> r.body.records == ms && r.filename == PlistFileName
    ensures r.body.CsvText? ==> r.filename == CsvFileName && r.body.text == ToCsv(ms)
  {
    if platform == "ios" then Attachment(PlistRecords(ms), PlistFileName)
    else Attachment(CsvText(ToCsv(ms)), CsvFileName)
  }
}
