/** The export of one worker's additional trainings as a semicolon-separated
    CSV file: cell escaping, the file name, and the document itself. A reader
    for the same dialect states what the escaping guarantees: the document
    reads back as exactly the rows that were written. */
module WorkerCsv {
  import opened Wrappers
  import opened Text

  /** The cell separator `SEP`. */
  const Sep: char := ';'
  /** The byte-order mark `BOM` that opens the file. */
  const Bom: char := '\U{FEFF}'
  const Crlf: string := "\r\n"

  // ---------------------------------------------------------------- cells

  /** The characters that force a cell into quotes: `/[;"\r\n]/`. */
  predicate Special(c: char) {
    c == Sep || c == '"' || c == '\r' || c == '\n'
  }

  predicate NeedsQuotes(s: string) {
    exists i :: 0 <= i < |s| && Special(s[i])
  }

  /** `s.replace(/"/g, '""')`. */
  function DoubleQuotes(s: string): (r: string)
    ensures |r| >= |s|
  {
    if s == [] then []
    else (if s[0] == '"' then "\"\"" else [s[0]]) + DoubleQuotes(s[1..])
  }

  /** `escapeCell(val)`: `null`/`undefined` become the empty cell; a value with
      a separator, a quote or a line break is quoted with its quotes doubled;
      any other value is written as it is. */
  function EscapeCell(v: Option<string>): (r: string)
    ensures v.None? ==> r == []
    ensures v.Some? && !NeedsQuotes(v.value) ==> r == v.value
    ensures v.Some? && NeedsQuotes(v.value) ==> |r| >= 2 && r[0] == '"' && r[|r| - 1] == '"'
  {
    var s := v.GetOr([]);
    if NeedsQuotes(s) then "\"" + DoubleQuotes(s) + "\"" else s
  }

  // ---------------------------------------------------------------- reading

  /** The body of a quoted cell after its opening quote: up to the closing
      quote, `""` standing for one quote. Returns the cell and what follows
      the closing quote, or `None` when the closing quote is missing. */
  function ReadQuoted(s: string): (o: Option<(string, string)>)
    ensures o.Some? ==> |o.value.1| < |s|
  {
    if s == [] then None
    else if s[0] == '"' then
      if |s| >= 2 && s[1] == '"' then
        match ReadQuoted(s[2..])
        case None => None
        case Some(p) => Some(("\"" + p.0, p.1))
      else Some(([], s[1..]))
    else
      match ReadQuoted(s[1..])
      case None => None
      case Some(p) => Some(([s[0]] + p.0, p.1))
  }

  /** An unquoted cell: everything up to the next separator or line end. */
  function ReadPlain(s: string): (p: (string, string))
    ensures p.0 + p.1 == s
  {
    if s == [] || s[0] == Sep || s[0] == '\r' then ([], s)
    else var q := ReadPlain(s[1..]); ([s[0]] + q.0, q.1)
  }

  function ReadCell(s: string): (o: Option<(string, string)>)
    ensures o.Some? ==> |o.value.1| <= |s|
  {
    if s != [] && s[0] == '"' then ReadQuoted(s[1..]) else Some(ReadPlain(s))
  }

  /** One record: cells separated by `;`, up to a line end or the end of the text. */
  function ReadRecord(s: string): (o: Option<(seq<string>, string)>)
    ensures o.Some? ==> |o.value.1| <= |s|
    decreases |s|
  {
    match ReadCell(s)
    case None => None
    case Some(p) =>
      if p.1 != [] && p.1[0] == Sep then
        match ReadRecord(p.1[1..])
        case None => None
        case Some(q) => Some(([p.0] + q.0, q.1))
      else Some(([p.0], p.1))
  }

  /** A whole document: records separated by CRLF. */
  function ReadRecords(s: string): (o: Option<seq<seq<string>>>)
    decreases |s|
  {
    match ReadRecord(s)
    case None => None
    case Some(p) =>
      if p.1 == [] then Some([p.0])
      else if |p.1| >= 2 && p.1[0] == '\r' && p.1[1] == '\n' then
        match ReadRecords(p.1[2..])
        case None => None
        case Some(rs) => Some([p.0] + rs)
      else None
  }

  // ---------------------------------------------------------------- writing

  function EscapeRow(cells: seq<string>): (r: seq<string>)
    ensures |r| == |cells|
  {
    if cells == [] then [] else [EscapeCell(Some(cells[0]))] + EscapeRow(cells[1..])
  }

  /** `[escapeCell(..), ...].join(SEP)`. */
  function EncodeRecord(cells: seq<string>): string {
    Join(EscapeRow(cells), [Sep])
  }

  function EncodeRecords(records: seq<seq<string>>): (r: seq<string>)
    ensures |r| == |records|
  {
    if records == [] then [] else [EncodeRecord(records[0])] + EncodeRecords(records[1..])
  }

  /** Records joined by CRLF. */
  function EncodeDocument(records: seq<seq<string>>): string {
    Join(EncodeRecords(records), Crlf)
  }

  // ---------------------------------------------------------------- round trip

  lemma {:induction false} ReadQuotedDoubled(x: string, rest: string)
    requires rest == [] || rest[0] != '"'
    ensures ReadQuoted(DoubleQuotes(x) + "\"" + rest) == Some((x, rest))
  {
    if x == [] {
      assert DoubleQuotes(x) + "\"" + rest == "\"" + rest;
    } else {
      ReadQuotedDoubled(x[1..], rest);
      if x[0] == '"' {
        ReadQuotedQuote(x, rest);
      } else {
        ReadQuotedOther(x, rest);
      }
    }
  }

  /** A doubled quote at the front reads as one quote. */
  lemma ReadQuotedQuote(x: string, rest: string)
    requires x != [] && x[0] == '"'
    requires ReadQuoted(DoubleQuotes(x[1..]) + "\"" + rest) == Some((x[1..], rest))
    ensures ReadQuoted(DoubleQuotes(x) + "\"" + rest) == Some((x, rest))
  {
    var tail := DoubleQuotes(x[1..]) + "\"" + rest;
    assert DoubleQuotes(x) + "\"" + rest == "\"\"" + tail;
    assert ("\"\"" + tail)[2..] == tail;
    assert "\"" + x[1..] == x;
  }

  /** Any other character at the front reads as itself. */
  lemma ReadQuotedOther(x: string, rest: string)
    requires x != [] && x[0] != '"'
    requires ReadQuoted(DoubleQuotes(x[1..]) + "\"" + rest) == Some((x[1..], rest))
    ensures ReadQuoted(DoubleQuotes(x) + "\"" + rest) == Some((x, rest))
  {
    var tail := DoubleQuotes(x[1..]) + "\"" + rest;
    assert DoubleQuotes(x) + "\"" + rest == [x[0]] + tail;
    assert ([x[0]] + tail)[1..] == tail;
    assert [x[0]] + x[1..] == x;
  }

  lemma {:induction false} ReadPlainClean(x: string, rest: string)
    requires !NeedsQuotes(x)
    requires rest == [] || rest[0] == Sep || rest[0] == '\r'
    ensures ReadPlain(x + rest) == (x, rest)
  {
    if x == [] {
      assert x + rest == rest;
    } else {
      ReadPlainClean(x[1..], rest);
      assert (x + rest)[1..] == x[1..] + rest;
      assert [x[0]] + x[1..] == x;
    }
  }

  /** An escaped cell reads back as the value it was made from. */
  lemma ReadCellEscaped(x: string, rest: string)
    requires rest == [] || rest[0] == Sep || rest[0] == '\r'
    ensures ReadCell(EscapeCell(Some(x)) + rest) == Some((x, rest))
  {
    if NeedsQuotes(x) {
      ReadCellQuoted(x, rest);
    } else {
      ReadPlainClean(x, rest);
      if x != [] { assert !Special(x[0]); }
    }
  }

  lemma ReadCellQuoted(x: string, rest: string)
    requires NeedsQuotes(x)
    requires rest == [] || rest[0] == Sep || rest[0] == '\r'
    ensures ReadCell(EscapeCell(Some(x)) + rest) == Some((x, rest))
  {
    var body := DoubleQuotes(x) + "\"" + rest;
    assert EscapeCell(Some(x)) + rest == "\"" + body;
    assert ("\"" + body)[1..] == body;
    ReadQuotedDoubled(x, rest);
  }

  lemma ReadRecordLast(s: string, f: string, r: string)
    requires ReadCell(s) == Some((f, r)) && (r == [] || r[0] != Sep)
    ensures ReadRecord(s) == Some(([f], r))
  {
  }

  lemma ReadRecordMore(s: string, f: string, r: string, fs: seq<string>, r2: string)
    requires ReadCell(s) == Some((f, r)) && r != [] && r[0] == Sep
    requires ReadRecord(r[1..]) == Some((fs, r2))
    ensures ReadRecord(s) == Some(([f] + fs, r2))
  {
  }

  /** A non-empty row of cells, escaped and joined, reads back as that row. */
  lemma {:induction false} ReadRecordEncoded(cells: seq<string>, rest: string)
    requires cells != []
    requires rest == [] || rest[0] == '\r'
    ensures ReadRecord(EncodeRecord(cells) + rest) == Some((cells, rest))
  {
    var e := EscapeCell(Some(cells[0]));
    if |cells| == 1 {
      assert EncodeRecord(cells) == e;
      ReadCellEscaped(cells[0], rest);
      ReadRecordLast(e + rest, cells[0], rest);
      assert [cells[0]] == cells;
    } else {
      var tail := EncodeRecord(cells[1..]) + rest;
      EncodeRecordHead(cells);
      SeparatedRest(e, EncodeRecord(cells[1..]), rest);
      ReadCellEscaped(cells[0], [Sep] + tail);
      ReadRecordEncoded(cells[1..], rest);
      ReadRecordMore(e + ([Sep] + tail), cells[0], [Sep] + tail, cells[1..], rest);
      assert [cells[0]] + cells[1..] == cells;
    }
  }

  /** A row of two or more cells is its first cell, a separator and the row
      of the other cells. */
  lemma EncodeRecordHead(cells: seq<string>)
    requires |cells| >= 2
    ensures EncodeRecord(cells) == EscapeCell(Some(cells[0])) + ([Sep] + EncodeRecord(cells[1..]))
  {
    assert EscapeRow(cells)[1..] == EscapeRow(cells[1..]);
  }

  lemma SeparatedRest(e: string, r: string, rest: string)
    ensures e + ([Sep] + r) + rest == e + ([Sep] + (r + rest))
    ensures ([Sep] + (r + rest))[1..] == r + rest
  {
  }

  /** The escaping is lossless: a document of non-empty rows reads back as
      exactly those rows, whatever separators, quotes and line breaks the
      cells hold. */
  lemma {:induction false} ReadDocumentEncoded(records: seq<seq<string>>)
    requires records != []
    requires forall i :: 0 <= i < |records| ==> records[i] != []
    ensures ReadRecords(EncodeDocument(records)) == Some(records)
  {
    if |records| == 1 {
      assert EncodeDocument(records) == EncodeRecord(records[0]);
      ReadRecordEncoded(records[0], []);
      assert EncodeDocument(records) + [] == EncodeDocument(records);
      assert [records[0]] == records;
    } else {
      var tail := EncodeDocument(records[1..]);
      EncodeDocumentHead(records);
      ReadRecordEncoded(records[0], Crlf + tail);
      ReadDocumentEncoded(records[1..]);
      ReadRecordsMore(EncodeDocument(records), records[0], tail, records[1..]);
      assert [records[0]] + records[1..] == records;
    }
  }

  /** A document of two or more rows is its first row, a line break and the
      document of the other rows. */
  lemma EncodeDocumentHead(records: seq<seq<string>>)
    requires |records| >= 2
    ensures EncodeDocument(records) == EncodeRecord(records[0]) + (Crlf + EncodeDocument(records[1..]))
  {
    assert EncodeRecords(records)[1..] == EncodeRecords(records[1..]);
  }

  lemma ReadRecordsMore(s: string, cells: seq<string>, rest: string, rs: seq<seq<string>>)
    requires ReadRecord(s) == Some((cells, Crlf + rest)) && ReadRecords(rest) == Some(rs)
    ensures ReadRecords(s) == Some([cells] + rs)
  {
    assert (Crlf + rest)[2..] == rest;
  }

  // ---------------------------------------------------------------- file name

  /** The characters no file name may hold: `[\\/:*?"<>|]`. */
  predicate Forbidden(c: char) {
    c == '\\' || c == '/' || c == ':' || c == '*' || c == '?' || c == '"'
    || c == '<' || c == '>' || c == '|'
  }

  function DropWhile(s: string, p: char -> bool): (r: string)
    ensures |r| <= |s| && r == s[|s| - |r|..]
    ensures r == [] || !p(r[0])
  {
    if s != [] && p(s[0]) then DropWhile(s[1..], p) else s
  }

  /** `s.replace(/X+/g, " ")` for the character class `p`: every maximal run
      of `p` characters becomes one space. The result holds only spaces and
      characters of `s` outside the class, and no two neighbours in the class. */
  function CollapseRuns(s: string, p: char -> bool): (r: string)
    ensures forall i :: 0 <= i < |r| ==> r[i] == ' ' || (r[i] in s && !p(r[i]))
    ensures forall i :: 0 <= i < |r| - 1 ==> !(p(r[i]) && p(r[i + 1]))
    ensures s != [] ==> r != [] && (if p(s[0]) then r[0] == ' ' else r[0] == s[0])
    decreases |s|
  {
    if s == [] then []
    else if p(s[0]) then " " + CollapseRuns(DropWhile(s, p), p)
    else [s[0]] + CollapseRuns(s[1..], p)
  }

  /** `sanitizeFileName(name)`. */
  function SanitizeFileName(name: Option<string>): string {
    var safe := Trim(name.GetOr([]));
    if |safe| == 0 then "Обучения"
    else Trim(CollapseRuns(CollapseRuns(safe, Forbidden), IsSpace))
  }

  predicate NoDoubleSpace(s: string) {
    forall i :: 0 <= i < |s| - 1 ==> !(IsSpace(s[i]) && IsSpace(s[i + 1]))
  }

  /** Trimming keeps a contiguous piece of the text. */
  lemma TrimIsSlice(s: string) returns (k: nat)
    ensures k + |Trim(s)| <= |s| && Trim(s) == s[k..k + |Trim(s)|]
  {
    var t := TrimStart(s);
    k := |s| - |t|;
    assert TrimEnd(t) == t[..|TrimEnd(t)|];
  }

  /** The two replacement passes leave no forbidden character and no two
      white-space characters in a row. */
  lemma CollapsedIsSafe(safe: string)
    ensures var b := CollapseRuns(CollapseRuns(safe, Forbidden), IsSpace);
      (forall i :: 0 <= i < |b| ==> !Forbidden(b[i])) && NoDoubleSpace(b)
  {
    var a := CollapseRuns(safe, Forbidden);
    var b := CollapseRuns(a, IsSpace);
    forall i | 0 <= i < |b| ensures !Forbidden(b[i]) {
      if b[i] != ' ' {
        var j :| 0 <= j < |a| && a[j] == b[i];
      }
    }
  }

  /** A name fit for a file: no forbidden character, no white space at either
      end, no two white-space characters in a row. */
  predicate SafeName(r: string) {
    (forall i :: 0 <= i < |r| ==> !Forbidden(r[i]))
    && (r == [] || (!IsSpace(r[0]) && !IsSpace(r[|r| - 1])))
    && NoDoubleSpace(r)
  }

  /** Trimming keeps both properties. */
  lemma TrimKeepsSafe(b: string)
    requires (forall i :: 0 <= i < |b| ==> !Forbidden(b[i])) && NoDoubleSpace(b)
    ensures SafeName(Trim(b))
  {
    var k := TrimIsSlice(b);
    SliceKeepsSafe(b, k, Trim(b));
  }

  lemma SliceKeepsSafe(b: string, k: nat, r: string)
    requires k + |r| <= |b| && r == b[k..k + |r|]
    requires (forall i :: 0 <= i < |b| ==> !Forbidden(b[i])) && NoDoubleSpace(b)
    ensures (forall i :: 0 <= i < |r| ==> !Forbidden(r[i])) && NoDoubleSpace(r)
  {
    forall i | 0 <= i < |r| ensures !Forbidden(r[i]) {
      assert r[i] == b[k + i];
    }
    forall i | 0 <= i < |r| - 1 ensures !(IsSpace(r[i]) && IsSpace(r[i + 1])) {
      assert r[i] == b[k + i] && r[i + 1] == b[k + i + 1];
    }
  }

  /** A sanitised name holds no forbidden character, does not start or end
      with white space and has no two white-space characters in a row; a
      blank name falls back to "Обучения". */
  lemma SanitizedNameIsSafe(name: Option<string>)
    ensures SafeName(SanitizeFileName(name))
    ensures AllSpace(name.GetOr([])) ==> SanitizeFileName(name) == "Обучения"
  {
    TrimEmptyIffAllSpace(name.GetOr([]));
    var safe := Trim(name.GetOr([]));
    if |safe| > 0 {
      var b := CollapseRuns(CollapseRuns(safe, Forbidden), IsSpace);
      assert SanitizeFileName(name) == Trim(b);
      CollapsedIsSafe(safe);
      TrimKeepsSafe(b);
    } else {
      FallbackIsSafe();
    }
  }

  lemma FallbackIsSafe()
    ensures SafeName("Обучения")
  {
    var r := "Обучения";
    assert forall i :: 0 <= i < |r| ==> !Forbidden(r[i]) && !IsSpace(r[i]);
  }

  /** A name made only of forbidden characters is not blank, yet sanitises
      to the empty name, giving the file name "Обучения_.csv". */
  lemma ForbiddenOnlyName()
    ensures SanitizeFileName(Some("??")) == []
  {
    QuestionMarksTrimmed();
    QuestionMarksCollapse();
    SpaceCollapses();
  }

  lemma QuestionMarksTrimmed()
    ensures Trim("??") == "??"
  {
    TrimOfTrimmed("??");
  }

  lemma QuestionMarksCollapse()
    ensures CollapseRuns("??", Forbidden) == " "
  {
    assert DropWhile("??", Forbidden) == [];
  }

  lemma SpaceCollapses()
    ensures CollapseRuns(" ", IsSpace) == " "
    ensures Trim(" ") == []
  {
    assert DropWhile(" ", IsSpace) == [];
  }

  // ---------------------------------------------------------------- export

  /** A training entry as stored: every field may be absent (`null` or
      `undefined`); numbers are held in their `String(..)` form. A `null`
      entry reads as one with no fields. */
  datatype RawTraining = RawTraining(
    title: Option<string>, kind: Option<string>,
    completedAt: Option<string>, dateReceived: Option<string>, date: Option<string>,
    certificateUrl: Option<string>, certificate: Option<string>, url: Option<string>,
    hours: Option<string>, duration: Option<string>)

  datatype TrainingLine = TrainingLine(title: string, completedAt: string, certificateUrl: string, hours: string)

  /** `a ?? b`: only an absent value falls through, an empty one does not. */
  function Coalesce(a: Option<string>, b: Option<string>): (r: Option<string>)
    ensures a.Some? ==> r == a
    ensures a.None? ==> r == b
  {
    if a.Some? then a else b
  }

  /** `mapTraining(t)`: each column takes the first field of its fallback
      chain that is present, or "". */
  function MapTraining(t: RawTraining): (r: TrainingLine)
    ensures t.title.Some? ==> r.title == t.title.value
    ensures t.title.None? && t.kind.Some? ==> r.title == t.kind.value
    ensures t.title.None? && t.kind.None? ==> r.title == []
    ensures t.completedAt.Some? ==> r.completedAt == t.completedAt.value
    ensures t.completedAt.None? && t.dateReceived.Some? ==> r.completedAt == t.dateReceived.value
    ensures t.completedAt.None? && t.dateReceived.None? && t.date.Some? ==> r.completedAt == t.date.value
    ensures t.completedAt.None? && t.dateReceived.None? && t.date.None? ==> r.completedAt == []
    ensures t.certificateUrl.Some? ==> r.certificateUrl == t.certificateUrl.value
    ensures t.certificateUrl.None? && t.certificate.Some? ==> r.certificateUrl == t.certificate.value
    ensures t.certificateUrl.None? && t.certificate.None? && t.url.Some? ==> r.certificateUrl == t.url.value
    ensures t.certificateUrl.None? && t.certificate.None? && t.url.None? ==> r.certificateUrl == []
    ensures t.hours.Some? ==> r.hours == t.hours.value
    ensures t.hours.None? && t.duration.Some? ==> r.hours == t.duration.value
    ensures t.hours.None? && t.duration.None? ==> r.hours == []
  {
    TrainingLine(
      Coalesce(t.title, t.kind).GetOr([]),
      Coalesce(Coalesce(t.completedAt, t.dateReceived), t.date).GetOr([]),
      Coalesce(Coalesce(t.certificateUrl, t.certificate), t.url).GetOr([]),
      Coalesce(t.hours, t.duration).GetOr([]))
  }

  const Headers: seq<string> := ["Название обучения", "Дата прохождения", "Сертификат", "Кол-во часов"]

  /** The four cells of one training, the date shown by `formatDate`. */
  function Cells(t: RawTraining, formatDate: string -> string): (c: seq<string>)
    ensures |c| == 4
  {
    var row := MapTraining(t);
    [row.title, formatDate(row.completedAt), row.certificateUrl, row.hours]
  }

  function TrainingRows(ts: seq<RawTraining>, formatDate: string -> string): (r: seq<seq<string>>)
    ensures |r| == |ts|
    ensures forall i :: 0 <= i < |ts| ==> r[i] == Cells(ts[i], formatDate)
  {
    if ts == [] then [] else [Cells(ts[0], formatDate)] + TrainingRows(ts[1..], formatDate)
  }

  /** `BOM + headers.join(SEP) + "\r\n" + lines.join("\r\n")`. */
  function Csv(ts: seq<RawTraining>, formatDate: string -> string): string {
    [Bom] + Join(Headers, [Sep]) + Crlf + Join(EncodeRecords(TrainingRows(ts, formatDate)), Crlf)
  }

  /** The column titles need no quoting. */
  lemma HeadersPlain()
    ensures EncodeRecord(Headers) == Join(Headers, [Sep])
  {
    var h := Headers;
    assert !NeedsQuotes(h[0]) && !NeedsQuotes(h[1]) && !NeedsQuotes(h[2]) && !NeedsQuotes(h[3]);
    assert EscapeRow(h[3..]) == h[3..];
    assert EscapeRow(h[2..]) == h[2..];
    assert EscapeRow(h[1..]) == h[1..];
    assert EscapeRow(h) == h;
  }

  /** The file opens with the byte-order mark and, after it, reads back as the
      header row followed by one four-cell row per training, in order. */
  lemma CsvReadsBack(ts: seq<RawTraining>, formatDate: string -> string)
    requires ts != []
    ensures Csv(ts, formatDate)[0] == Bom
    ensures ReadRecords(Csv(ts, formatDate)[1..]) == Some([Headers] + TrainingRows(ts, formatDate))
  {
    var all := [Headers] + TrainingRows(ts, formatDate);
    CsvBody(ts, formatDate);
    assert forall i :: 0 <= i < |all| ==> all[i] != [] by {
      forall i | 0 <= i < |all| ensures all[i] != [] {
        if i > 0 { assert all[i] == TrainingRows(ts, formatDate)[i - 1]; }
      }
    }
    ReadDocumentEncoded(all);
  }

  /** After the byte-order mark comes the document of the header row and the
      training rows. */
  lemma CsvBody(ts: seq<RawTraining>, formatDate: string -> string)
    requires ts != []
    ensures Csv(ts, formatDate)[0] == Bom
    ensures Csv(ts, formatDate)[1..] == EncodeDocument([Headers] + TrainingRows(ts, formatDate))
  {
    var rows := TrainingRows(ts, formatDate);
    var all := [Headers] + rows;
    HeadersPlain();
    EncodeDocumentHead(all);
    assert all[0] == Headers && all[1..] == rows;
    AfterFirst(Bom, Join(Headers, [Sep]), Join(EncodeRecords(rows), Crlf));
  }

  lemma AfterFirst(c: char, h: string, d: string)
    ensures ([c] + h + Crlf + d)[0] == c
    ensures ([c] + h + Crlf + d)[1..] == h + (Crlf + d)
  {
  }

  /** The query error as the client reports it; 0 stands for a missing status. */
  datatype QueryError = QueryError(status: int, statusCode: int, code: string)

  datatype Failure = TableUnavailable | Rethrown(e: QueryError)

  /** `{ count: 0 }`, or the saved file's name and content with `{ count }`. */
  datatype Export = NothingToExport | Exported(count: nat, fileName: string, csv: string)

  datatype Outcome = Failed(failure: Failure) | Done(result: Export)

  /** The file name the download is saved under. */
  function FileName(workerName: Option<string>): string {
    "Обучения_" + SanitizeFileName(workerName) + ".csv"
  }

  /** The saved file for a non-empty list of trainings. */
  function ExportOf(ts: seq<RawTraining>, workerName: Option<string>, formatDate: string -> string): (e: Export)
    requires ts != []
    ensures e.Exported? && e.count == |ts| && e.fileName == FileName(workerName)
    ensures |e.csv| > 0 && e.csv[0] == Bom
    ensures ReadRecords(e.csv[1..]) == Some([Headers] + TrainingRows(ts, formatDate))
  {
    var csv := Csv(ts, formatDate);
    CsvReadsBack(ts, formatDate);
    assert ReadRecords(csv[1..]) == Some([Headers] + TrainingRows(ts, formatDate));
    Exported(|ts|, FileName(workerName), csv)
  }

  /** `downloadWorkerTrainings(workerId, workerName)` once the query has
      answered: an error (`Some(e)`) or the `additional_trainings` field, `None`
      when it is not an array. */
  function DownloadWorkerTrainings(
    error: Option<QueryError>, trainingsRaw: Option<seq<RawTraining>>,
    workerName: Option<string>, formatDate: string -> string): (o: Outcome)
    ensures error.Some? <==> o.Failed?
    ensures o.Failed? ==> (o.failure == TableUnavailable
      <==> (if error.value.status != 0 then error.value.status else error.value.statusCode) == 404
           || error.value.code == "PGRST301")
    ensures o.Failed? && o.failure.Rethrown? ==> o.failure.e == error.value
    ensures o.Done? ==> (o.result.NothingToExport? <==> trainingsRaw.GetOr([]) == [])
    ensures o.Done? && o.result.Exported? ==>
      o.result.count == |trainingsRaw.value| > 0
      && o.result.fileName == FileName(workerName)
      && |o.result.csv| > 0 && o.result.csv[0] == Bom
      && ReadRecords(o.result.csv[1..]) == Some([Headers] + TrainingRows(trainingsRaw.value, formatDate))
  {
    if error.Some? then
      var e := error.value;
      var status := if e.status != 0 then e.status else e.statusCode;
      if status == 404 || e.code == "PGRST301" then Failed(TableUnavailable) else Failed(Rethrown(e))
    else
      var ts := trainingsRaw.GetOr([]);
      if ts == [] then Done(NothingToExport)
      else
        var ex := ExportOf(ts, workerName, formatDate);
        assert ReadRecords(ex.csv[1..]) == Some([Headers] + TrainingRows(ts, formatDate));
        Done(ex)
  }
}
