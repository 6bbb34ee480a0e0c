/**
 * The download stage of project/scripts/download_images.py: the request URL
 * and file name of each candidate, the log line and description row each HTTP
 * outcome produces, the session ledger (download_log.txt and description.csv),
 * and `download_dataset` with its worker pool replaced by a sequential loop.
 */
module Downloader {
  import opened Wrappers
  import opened Seqs
  import opened Text
  import opened Tables
  import opened Selection

  // ---------------------------------------------------------------------------
  // Request URL and file name
  // ---------------------------------------------------------------------------

  /** The parameters of an image request of the IIIF Image API 2.1, section 2.1. */
  datatype IiifRequest = IiifRequest(region: string, size: string, rotation: string, quality: string, format: string)

  /** `{identifier}/{region}/{size}/{rotation}/{quality}.{format}` under the image's base URL. */
  function RequestUrl(baseUrl: string, q: IiifRequest): string {
    baseUrl + "/" + q.region + "/" + q.size + "/" + q.rotation + "/" + q.quality + "." + q.format
  }

  /** The request the downloader sends: full region, full size, rotation 360, default quality, JPEG. */
  const DefaultRequest := IiifRequest("full", "full", "360", "default", "jpg")

  /** The URL requested for an image: the default request under its base URL. */
  function ImageUrl(baseUrl: string): (url: string)
    ensures url == RequestUrl(baseUrl, DefaultRequest)
    ensures |url| > |baseUrl| && url[..|baseUrl|] == baseUrl
  {
    baseUrl + "/full/full/360/default.jpg"
  }

  /** The file an image is saved as: its uuid with the `.jpg` extension. */
  function FileName(uuid: string): (name: string)
    ensures |name| == |uuid| + 4 && EndsWith(name, ".jpg") && name[..|uuid|] == uuid
  {
    uuid + ".jpg"
  }

  // ---------------------------------------------------------------------------
  // Outcome of one download
  // ---------------------------------------------------------------------------

  /** What the request produced: a response with its status code, or an exception with its message. */
  datatype Response = Http(status: nat) | Raised(message: string)

  /** A row of description.csv, before CSV rendering; a missing cell is `None`. */
  datatype DescriptionRow = DescriptionRow(
    uuid: string,
    filename: string,
    artist: Option<string>,
    title: Option<string>,
    date: Option<string>,
    classification: Option<string>,
    medium: Option<string>)

  /** `row.get(column, default)`: the default only when the column is absent; a present cell, even a missing one, is passed on. */
  function ColumnOr(col: Column, default: string): (v: Option<string>)
    ensures col.Absent? ==> v == Some(default)
    ensures col.Present? ==> v == col.cell
  {
    match col
    case Absent => Some(default)
    case Present(cell) => cell
  }

  /** The log line `download_image` writes for one candidate and one outcome. */
  function LogLine(c: Candidate, resp: Response): string {
    var name := FileName(c.uuid);
    var url := ImageUrl(c.baseUrl);
    match resp
    case Http(status) =>
      if status == 200 then "SUCCESS: " + name + " | URL: " + url
      else "FAILURE (HTTP " + NatToString(status) + "): " + name + " | URL: " + url
    case Raised(e) => "ERROR: " + name + " | URL: " + url + " | Exception: " + e
  }

  /** The description row written for a candidate: one on status 200, none otherwise. */
  function DescriptionOf(c: Candidate, resp: Response): (d: Option<DescriptionRow>)
    ensures d.Some? <==> resp == Http(200)
    ensures d.Some? ==> (
      && d.value.uuid == c.uuid && d.value.filename == FileName(c.uuid)
      && d.value.artist == ColumnOr(c.artist, "Unknown")
      && d.value.title == ColumnOr(c.title, "Untitled")
      && d.value.date == ColumnOr(c.displayDate, "Unknown")
      && d.value.classification == ColumnOr(c.classification, "Unknown")
      && d.value.medium == ColumnOr(c.medium, "Unknown"))
  {
    if resp == Http(200) then
      Some(DescriptionRow(c.uuid, FileName(c.uuid),
        ColumnOr(c.artist, "Unknown"), ColumnOr(c.title, "Untitled"), ColumnOr(c.displayDate, "Unknown"),
        ColumnOr(c.classification, "Unknown"), ColumnOr(c.medium, "Unknown")))
    else None
  }

  // ---------------------------------------------------------------------------
  // Reading a log line back
  // ---------------------------------------------------------------------------

  /** What a line of download_log.txt records. */
  datatype LineKind = SuccessLine | FailureLine(code: nat) | ErrorLine | OtherLine

  /** Classifies a log line by its prefix; a failure line also gives back its HTTP code. */
  function KindOfLine(line: string): LineKind {
    if StartsWith(line, "SUCCESS: ") then SuccessLine
    else if StartsWith(line, "FAILURE (HTTP ") then
      var digits := LeadingDigits(line[14..]);
      if |digits| > 0 then FailureLine(DigitsValue(digits)) else OtherLine
    else if StartsWith(line, "ERROR: ") then ErrorLine
    else OtherLine
  }

  /** The kind of line each outcome must produce. */
  function ExpectedKind(resp: Response): LineKind {
    match resp
    case Http(status) => if status == 200 then SuccessLine else FailureLine(status)
    case Raised(_) => ErrorLine
  }

  /** A string starts with whatever was put in front of it. */
  lemma StartsWithPrefix(prefix: string, rest: string)
    ensures StartsWith(prefix + rest, prefix)
  {
    assert (prefix + rest)[..|prefix|] == prefix;
  }

  /** A string that differs from `prefix` at some position within both does not start with it. */
  lemma NotStartsWith(s: string, prefix: string, k: nat)
    requires k < |prefix| && k < |s| && s[k] != prefix[k]
    ensures !StartsWith(s, prefix)
  {
    if |prefix| <= |s| {
      assert s[..|prefix|][k] == s[k];
    }
  }

  /** A line whose first two characters rule out the three outcome prefixes is of no outcome kind. */
  lemma OtherByFirstChars(line: string)
    requires |line| >= 2
    requires line[0] != 'S' || line[1] != 'U'
    requires line[0] != 'F' || line[1] != 'A'
    requires line[0] != 'E' || line[1] != 'R'
    ensures KindOfLine(line) == OtherLine
  {
    NotStartsWith(line, "SUCCESS: ", if line[0] != 'S' then 0 else 1);
    NotStartsWith(line, "FAILURE (HTTP ", if line[0] != 'F' then 0 else 1);
    NotStartsWith(line, "ERROR: ", if line[0] != 'E' then 0 else 1);
  }

  /** The same, for a line that begins with a fixed text. */
  lemma OtherByPrefix(prefix: string, rest: string)
    requires |prefix| >= 2
    requires prefix[0] != 'S' || prefix[1] != 'U'
    requires prefix[0] != 'F' || prefix[1] != 'A'
    requires prefix[0] != 'E' || prefix[1] != 'R'
    ensures KindOfLine(prefix + rest) == OtherLine
  {
    OtherByFirstChars(prefix + rest);
  }

  lemma SuccessKindOf(rest: string)
    ensures KindOfLine("SUCCESS: " + rest) == SuccessLine
  {
    StartsWithPrefix("SUCCESS: ", rest);
  }

  lemma {:induction false} FailureKindOf(digits: string, rest: string)
    requires |digits| > 0 && AllDigits(digits)
    requires |rest| > 0 && !IsDigit(rest[0])
    ensures KindOfLine("FAILURE (HTTP " + (digits + rest)) == FailureLine(DigitsValue(digits))
  {
    var line := "FAILURE (HTTP " + (digits + rest);
    StartsWithPrefix("FAILURE (HTTP ", digits + rest);
    NotStartsWith(line, "SUCCESS: ", 0);
    assert line[14..] == digits + rest;
    LeadingDigitsOf(digits, rest);
  }

  lemma ErrorKindOf(rest: string)
    ensures KindOfLine("ERROR: " + rest) == ErrorLine
  {
    var line := "ERROR: " + rest;
    StartsWithPrefix("ERROR: ", rest);
    NotStartsWith(line, "SUCCESS: ", 0);
    NotStartsWith(line, "FAILURE (HTTP ", 0);
  }

  lemma SuccessLineKind(c: Candidate)
    ensures KindOfLine(LogLine(c, Http(200))) == SuccessLine
  {
    var rest := FileName(c.uuid) + " | URL: " + ImageUrl(c.baseUrl);
    assert LogLine(c, Http(200)) == "SUCCESS: " + rest;
    SuccessKindOf(rest);
  }

  lemma FailureLineKind(c: Candidate, status: nat)
    requires status != 200
    ensures KindOfLine(LogLine(c, Http(status))) == FailureLine(status)
  {
    var digits := NatToString(status);
    var rest := "): " + FileName(c.uuid) + " | URL: " + ImageUrl(c.baseUrl);
    assert LogLine(c, Http(status)) == "FAILURE (HTTP " + (digits + rest);
    FailureKindOf(digits, rest);
    NatToStringRoundTrip(status);
  }

  lemma ErrorLineKind(c: Candidate, e: string)
    ensures KindOfLine(LogLine(c, Raised(e))) == ErrorLine
  {
    var rest := FileName(c.uuid) + " | URL: " + ImageUrl(c.baseUrl) + " | Exception: " + e;
    assert LogLine(c, Raised(e)) == "ERROR: " + rest;
    ErrorKindOf(rest);
  }

  /** Each outcome's log line is recognisably of its kind, and a failure line carries its exact HTTP code. */
  lemma LogLineKind(c: Candidate, resp: Response)
    ensures KindOfLine(LogLine(c, resp)) == ExpectedKind(resp)
  {
    match resp
    case Http(status) =>
      if status == 200 {
        SuccessLineKind(c);
      } else {
        FailureLineKind(c, status);
      }
    case Raised(e) =>
      ErrorLineKind(c, e);
  }

  /** The number of SUCCESS lines in a log. */
  function CountSuccess(lines: seq<string>): (n: nat)
    ensures n <= |lines|
  {
    if lines == [] then 0
    else CountSuccess(lines[..|lines| - 1]) + (if KindOfLine(lines[|lines| - 1]) == SuccessLine then 1 else 0)
  }

  /** Counting over a log made of two parts adds the counts of the parts. */
  lemma {:induction false} CountSuccessConcat(a: seq<string>, b: seq<string>)
    ensures CountSuccess(a + b) == CountSuccess(a) + CountSuccess(b)
    decreases |b|
  {
    if b == [] {
      assert a + b == a;
    } else {
      var init := b[..|b| - 1];
      assert (a + b)[..|a + b| - 1] == a + init;
      CountSuccessConcat(a, init);
    }
  }

  // ---------------------------------------------------------------------------
  // The ledger: download_log.txt and description.csv
  // ---------------------------------------------------------------------------

  /** A CSV file as its records, header included; `None` when the file does not exist. */
  type CsvFile = Option<seq<seq<string>>>

  /** The header of description.csv: the keys of `description_data` in order. */
  const DescriptionHeader: seq<string> := ["uuid", "filename", "artist", "title", "date", "classification", "medium"]

  function Record(d: DescriptionRow): seq<string> {
    [d.uuid, d.filename, CsvCell(d.artist), CsvCell(d.title), CsvCell(d.date), CsvCell(d.classification), CsvCell(d.medium)]
  }

  function Records(rows: seq<DescriptionRow>): (r: seq<seq<string>>)
    ensures |r| == |rows| && forall i :: 0 <= i < |rows| ==> r[i] == Record(rows[i])
  {
    seq(|rows|, i requires 0 <= i < |rows| => Record(rows[i]))
  }

  /** `write_description`: append one record, preceded by the header when the file did not exist. */
  function AppendRecord(file: CsvFile, d: DescriptionRow): CsvFile {
    Some((if file.None? then [DescriptionHeader] else file.value) + [Record(d)])
  }

  /** The file after `write_description` for each row in turn. */
  function AppendRecords(file: CsvFile, rows: seq<DescriptionRow>): CsvFile
    decreases |rows|
  {
    if rows == [] then file
    else AppendRecord(AppendRecords(file, rows[..|rows| - 1]), rows[|rows| - 1])
  }

  /** A file written from scratch holds exactly one header, first, and then one record per row. */
  lemma {:induction false} NewFileHasOneHeader(rows: seq<DescriptionRow>)
    ensures AppendRecords(None, rows) == if rows == [] then None else Some([DescriptionHeader] + Records(rows))
    decreases |rows|
  {
    if rows != [] {
      var init := rows[..|rows| - 1];
      NewFileHasOneHeader(init);
      assert Records(rows) == Records(init) + [Record(rows[|rows| - 1])];
      if init == [] {
        assert AppendRecords(None, rows) == AppendRecord(None, rows[0]);
        assert Records(rows) == [Record(rows[0])];
      } else {
        assert [DescriptionHeader] + Records(init) + [Record(rows[|rows| - 1])] == [DescriptionHeader] + Records(rows);
      }
    }
  }

  /** Appending to a file that exists never adds a header: earlier content stays, records follow. */
  lemma {:induction false} ExistingFileGetsNoHeader(f: seq<seq<string>>, rows: seq<DescriptionRow>)
    ensures AppendRecords(Some(f), rows) == Some(f + Records(rows))
    decreases |rows|
  {
    if rows == [] {
      assert f + Records(rows) == f;
    } else {
      var init := rows[..|rows| - 1];
      ExistingFileGetsNoHeader(f, init);
      assert Records(rows) == Records(init) + [Record(rows[|rows| - 1])];
      assert f + Records(rows) == f + Records(init) + [Record(rows[|rows| - 1])];
    }
  }

  /** The two shared files of a download session. */
  class Ledger {
    /** download_log.txt, line by line; it is only ever appended to. */
    var log: seq<string>
    /** description.csv. */
    var description: CsvFile

    /** The ledger over the files as they are found on disk. */
    constructor (existingLog: seq<string>, existingDescription: CsvFile)
      ensures log == existingLog && description == existingDescription
    {
      log := existingLog;
      description := existingDescription;
    }

    /** `write_log`: append one line. */
    method WriteLog(message: string)
      modifies this
      ensures log == old(log) + [message]
      ensures description == old(description)
    {
      log := log + [message];
    }

    /** `write_description`: the header goes in only when the file does not exist yet. */
    method WriteDescription(d: DescriptionRow)
      modifies this
      ensures description == AppendRecord(old(description), d)
      ensures log == old(log)
    {
      var fileExists := description.Some?;
      if fileExists {
        description := Some(description.value + [Record(d)]);
      } else {
        description := Some([DescriptionHeader] + [Record(d)]);
      }
    }

    /** Delete description.csv if it exists. */
    method RemoveDescription()
      modifies this
      ensures description == None
      ensures log == old(log)
    {
      if description.Some? {
        description := None;
      }
    }
  }

  // ---------------------------------------------------------------------------
  // download_image and download_dataset
  // ---------------------------------------------------------------------------

  /** The description file after one download. */
  function AfterItem(file: CsvFile, c: Candidate, resp: Response): CsvFile {
    match DescriptionOf(c, resp)
    case Some(d) => AppendRecord(file, d)
    case None => file
  }

  /**
   * `download_image` for one candidate, given what its request produced:
   * exactly one log line, and a description record only on status 200.
   */
  method DownloadImage(ledger: Ledger, c: Candidate, resp: Response)
    modifies ledger
    ensures ledger.log == old(ledger.log) + [LogLine(c, resp)]
    ensures ledger.description == AfterItem(old(ledger.description), c, resp)
  {
    ledger.WriteLog(LogLine(c, resp));
    match DescriptionOf(c, resp) {
      case Some(d) => ledger.WriteDescription(d);
      case None =>
    }
  }

  /** The log lines of the first `n` candidates, where `fetch(i)` is what the i-th request produced. */
  function ItemLines(cs: seq<Candidate>, fetch: nat -> Response, n: nat): (r: seq<string>)
    requires n <= |cs|
    ensures |r| == n
    ensures forall i :: 0 <= i < n ==> r[i] == LogLine(cs[i], fetch(i))
  {
    if n == 0 then [] else ItemLines(cs, fetch, n - 1) + [LogLine(cs[n - 1], fetch(n - 1))]
  }

  /** The description rows of the first `n` candidates: those whose request returned 200. */
  function ItemRecords(cs: seq<Candidate>, fetch: nat -> Response, n: nat): (r: seq<DescriptionRow>)
    requires n <= |cs|
    ensures |r| <= n
  {
    if n == 0 then []
    else (
      ItemRecords(cs, fetch, n - 1) +
      match DescriptionOf(cs[n - 1], fetch(n - 1)) case Some(d) => [d] case None => [])
  }

  /** An outcome logs a SUCCESS line exactly when it writes a description row. */
  lemma SuccessLineIff(c: Candidate, resp: Response)
    ensures KindOfLine(LogLine(c, resp)) == SuccessLine <==> DescriptionOf(c, resp).Some?
  {
    LogLineKind(c, resp);
  }

  /** How many of the first `n` requests returned status 200. */
  function Successes(fetch: nat -> Response, n: nat): nat {
    if n == 0 then 0 else Successes(fetch, n - 1) + (if fetch(n - 1) == Http(200) then 1 else 0)
  }

  /** A log whose i-th line is a SUCCESS line exactly when the i-th request returned 200 counts those requests. */
  lemma {:induction false} CountSuccessByOutcome(lines: seq<string>, fetch: nat -> Response)
    requires forall i :: 0 <= i < |lines| ==> (KindOfLine(lines[i]) == SuccessLine <==> fetch(i) == Http(200))
    ensures CountSuccess(lines) == Successes(fetch, |lines|)
  {
    if lines != [] {
      var init := lines[..|lines| - 1];
      assert forall i :: 0 <= i < |init| ==> init[i] == lines[i];
      CountSuccessByOutcome(init, fetch);
    }
  }

  /** The i-th item line is a SUCCESS line exactly when the i-th request returned 200. */
  lemma ItemLinesOutcomes(cs: seq<Candidate>, fetch: nat -> Response, n: nat)
    requires n <= |cs|
    ensures forall i :: 0 <= i < n ==> (KindOfLine(ItemLines(cs, fetch, n)[i]) == SuccessLine <==> fetch(i) == Http(200))
  {
    var lines := ItemLines(cs, fetch, n);
    forall i | 0 <= i < n
      ensures KindOfLine(lines[i]) == SuccessLine <==> fetch(i) == Http(200)
    {
      LogLineKind(cs[i], fetch(i));
    }
  }

  /** The item lines hold one SUCCESS line per request that returned 200. */
  lemma SuccessLinesCount(cs: seq<Candidate>, fetch: nat -> Response, n: nat)
    requires n <= |cs|
    ensures CountSuccess(ItemLines(cs, fetch, n)) == Successes(fetch, n)
  {
    ItemLinesOutcomes(cs, fetch, n);
    CountSuccessByOutcome(ItemLines(cs, fetch, n), fetch);
  }

  /** The description rows are one per request that returned 200. */
  lemma {:induction false} RecordsCount(cs: seq<Candidate>, fetch: nat -> Response, n: nat)
    requires n <= |cs|
    ensures |ItemRecords(cs, fetch, n)| == Successes(fetch, n)
  {
    if n > 0 {
      RecordsCount(cs, fetch, n - 1);
    }
  }

  /** There are exactly as many description rows as SUCCESS lines among the item lines. */
  lemma RecordsMatchSuccessLines(cs: seq<Candidate>, fetch: nat -> Response, n: nat)
    requires n <= |cs|
    ensures |ItemRecords(cs, fetch, n)| == CountSuccess(ItemLines(cs, fetch, n))
  {
    SuccessLinesCount(cs, fetch, n);
    RecordsCount(cs, fetch, n);
  }

  /** The rule of 60 `=` that frames the session-start lines. */
  function Rule(): (r: string)
    ensures |r| == 60 && r[0] == '='
  {
    Repeat('=', 60)
  }

  /** A `caption: a, b, c` line, written only when the list is not empty. */
  function OptionalLine(caption: string, values: seq<string>): (r: seq<string>)
    ensures |r| <= 1
  {
    if |values| > 0 then [caption + Join(values, ", ")] else []
  }

  /** The lines that open a session in download_log.txt. */
  function SessionHeader(cfg: Config): seq<string> {
    [Rule(), "New Download Session Started"]
    + OptionalLine("Filtering by artists: ", cfg.artistNames)
    + OptionalLine("Allowed classifications: ", cfg.allowedClassifications)
    + OptionalLine("Excluded subclassifications: ", cfg.excludedSubclassifications)
    + [Rule()]
  }

  lemma OptionalLineNoOutcome(caption: string, values: seq<string>)
    requires |caption| >= 2
    requires caption[0] != 'S' || caption[1] != 'U'
    requires caption[0] != 'F' || caption[1] != 'A'
    requires caption[0] != 'E' || caption[1] != 'R'
    ensures CountSuccess(OptionalLine(caption, values)) == 0
  {
    var r := OptionalLine(caption, values);
    if r != [] {
      OtherByPrefix(caption, Join(values, ", "));
      assert r[..0] == [];
    }
  }

  /** No session-start line reads as an outcome line. */
  lemma SessionHeaderHasNoOutcome(cfg: Config)
    ensures CountSuccess(SessionHeader(cfg)) == 0
  {
    var a := [Rule(), "New Download Session Started"];
    var b := OptionalLine("Filtering by artists: ", cfg.artistNames);
    var c := OptionalLine("Allowed classifications: ", cfg.allowedClassifications);
    var d := OptionalLine("Excluded subclassifications: ", cfg.excludedSubclassifications);
    OtherByFirstChars(Rule());
    OtherByFirstChars("New Download Session Started");
    assert CountSuccess(a) == 0 by {
      assert a[..1] == [Rule()];
      assert [Rule()][..0] == [];
    }
    OptionalLineNoOutcome("Filtering by artists: ", cfg.artistNames);
    OptionalLineNoOutcome("Allowed classifications: ", cfg.allowedClassifications);
    OptionalLineNoOutcome("Excluded subclassifications: ", cfg.excludedSubclassifications);
    assert CountSuccess([Rule()]) == 0 by {
      assert [Rule()][..0] == [];
    }
    CountSuccessConcat(a, b);
    CountSuccessConcat(a + b, c);
    CountSuccessConcat(a + b + c, d);
    CountSuccessConcat(a + b + c + d, [Rule()]);
  }

  /**
   * Over a whole session the log gains exactly one SUCCESS line per
   * description record, and the description file holds one header followed
   * by those records (or does not exist when nothing succeeded).
   */
  lemma SessionBookkeeping(cfg: Config, cs: seq<Candidate>, fetch: nat -> Response)
    ensures CountSuccess(SessionHeader(cfg) + ItemLines(cs, fetch, |cs|)) == |ItemRecords(cs, fetch, |cs|)|
    ensures AppendRecords(None, ItemRecords(cs, fetch, |cs|)) ==
      if ItemRecords(cs, fetch, |cs|) == [] then None
      else Some([DescriptionHeader] + Records(ItemRecords(cs, fetch, |cs|)))
  {
    CountSuccessConcat(SessionHeader(cfg), ItemLines(cs, fetch, |cs|));
    SessionHeaderHasNoOutcome(cfg);
    RecordsMatchSuccessLines(cs, fetch, |cs|);
    NewFileHasOneHeader(ItemRecords(cs, fetch, |cs|));
  }

  /** One more download extends the description file by that candidate's row, if any. */
  lemma {:induction false} ItemRecordsStep(file: CsvFile, cs: seq<Candidate>, fetch: nat -> Response, i: nat)
    requires i < |cs|
    ensures AppendRecords(file, ItemRecords(cs, fetch, i + 1)) ==
      AfterItem(AppendRecords(file, ItemRecords(cs, fetch, i)), cs[i], fetch(i))
  {
    var rows := ItemRecords(cs, fetch, i + 1);
    match DescriptionOf(cs[i], fetch(i))
    case Some(d) =>
      assert rows == ItemRecords(cs, fetch, i) + [d];
      assert rows[..|rows| - 1] == ItemRecords(cs, fetch, i);
    case None =>
      assert rows == ItemRecords(cs, fetch, i);
  }

  /** The worker pool as a sequential loop: one `download_image` per candidate, in submission order. */
  method DownloadAll(ledger: Ledger, cs: seq<Candidate>, fetch: nat -> Response)
    modifies ledger
    ensures ledger.log == old(ledger.log) + ItemLines(cs, fetch, |cs|)
    ensures ledger.description == AppendRecords(old(ledger.description), ItemRecords(cs, fetch, |cs|))
  {
    for i := 0 to |cs|
      invariant ledger.log == old(ledger.log) + ItemLines(cs, fetch, i)
      invariant ledger.description == AppendRecords(old(ledger.description), ItemRecords(cs, fetch, i))
    {
      DownloadImage(ledger, cs[i], fetch(i));
      ItemRecordsStep(old(ledger.description), cs, fetch, i);
    }
  }

  /** One optional session-start line. */
  method WriteOptionalLine(ledger: Ledger, caption: string, values: seq<string>)
    modifies ledger
    ensures ledger.log == old(ledger.log) + OptionalLine(caption, values)
    ensures ledger.description == old(ledger.description)
  {
    if |values| > 0 {
      ledger.WriteLog(caption + Join(values, ", "));
    } else {
      assert ledger.log + [] == ledger.log;
    }
  }

  /** The session-start lines, written one by one. */
  method WriteSessionHeader(ledger: Ledger, cfg: Config)
    modifies ledger
    ensures ledger.log == old(ledger.log) + SessionHeader(cfg)
    ensures ledger.description == old(ledger.description)
  {
    ledger.WriteLog(Rule());
    ledger.WriteLog("New Download Session Started");
    WriteOptionalLine(ledger, "Filtering by artists: ", cfg.artistNames);
    WriteOptionalLine(ledger, "Allowed classifications: ", cfg.allowedClassifications);
    WriteOptionalLine(ledger, "Excluded subclassifications: ", cfg.excludedSubclassifications);
    ledger.WriteLog(Rule());
  }

  /**
   * The candidate list of `download_dataset`, built as the source builds it:
   * `data` is narrowed filter by filter, the first empty result ends the
   * preparation, and the two enrichments follow.
   */
  method PrepareCandidates(src: Sources, cfg: Config) returns (prepared: Prepared)
    ensures prepared == Prepare(src, cfg)
  {
    var data := WithUrls(src.images);
    if ClassificationRequested(src, cfg) {
      data := FilterByClassification(data, src.objects.value,
        cfg.allowedClassifications, cfg.excludedSubclassifications);
      if |data| == 0 {
        return NoClassificationMatches;
      }
    }
    if ArtistFilterRequested(src, cfg) {
      data := FilterByArtists(data, src.constituents.value, src.links.value, cfg.artistNames);
      if |data| == 0 {
        return NoArtistMatches;
      }
    }
    assert data == AfterArtists(src, cfg);
    var rows := if src.objects.Some? then MergeObjects(data, src.objects.value) else WithoutObjects(data);
    if ArtistsAvailable(src) && !AllNamed(ArtistPairs(src.links.value, src.constituents.value)) {
      return ArtistJoinFailed;
    }
    AfterArtistsHaveUrls(src, cfg);
    prepared := Ready(AttachArtists(rows, src));
  }

  /**
   * `download_dataset`: delete the description file, prepare the candidates,
   * stop when there are none to try, otherwise open the session in the log and
   * download every candidate.
   */
  method DownloadDataset(ledger: Ledger, src: Sources, cfg: Config, fetch: nat -> Response) returns (prepared: Prepared)
    modifies ledger
    ensures prepared == Prepare(src, cfg)
    ensures !prepared.Ready? ==> ledger.log == old(ledger.log) && ledger.description == None
    ensures prepared.Ready? ==>
      ledger.log == old(ledger.log) + SessionHeader(cfg) + ItemLines(prepared.candidates, fetch, |prepared.candidates|)
    ensures prepared.Ready? ==>
      ledger.description == AppendRecords(None, ItemRecords(prepared.candidates, fetch, |prepared.candidates|))
  {
    ledger.RemoveDescription();
    prepared := PrepareCandidates(src, cfg);
    if prepared.Ready? {
      WriteSessionHeader(ledger, cfg);
      DownloadAll(ledger, prepared.candidates, fetch);
    }
  }
}
