/** The server side: the analyzer controller's size guard, prompt payload, line-oriented metric
    extraction from the model's reply, and the order in which `AnalyzeProject` validates, calls
    the completion backend and maps failures to HTTP outcomes. */
module Analyzer {
  import opened Wrappers
  import opened Text

  // ------------------------------------------------------------------ data

  /** Token ceiling the controller enforces on the bounded structure text. */
  const MaxInputTokens: int := 4000
  /** Character ceiling past which the serialized structure is cut. */
  const TruncationCeiling: nat := 12000
  const TruncationMarker: string := "... (truncated)"
  /** Characters that separate words in the token estimate. */
  const TokenSeparators: set<char> := {' ', '\n', '\r'}

  /** The metrics record the controller fills from the model's reply. */
  datatype ProjectMetrics = ProjectMetrics(
    TotalFiles: int,
    TotalDirectories: int,
    AverageNestingLevel: int,
    DeepestDirectory: string,
    FileTypeDistribution: map<string, int>,
    Services: int,
    Projects: int,
    Patterns: int,
    ArchitectureLayers: int)

  /** The record before any line has been read: every field zero or empty. */
  const DefaultMetrics := ProjectMetrics(0, 0, 0, "", map[], 0, 0, 0, 0)

  /** The exceptions extraction can raise. */
  datatype Fault =
    | InvalidGptResponseFormat  // the reply carries no content, or empty content
    | IndexOutOfRange           // a matched metric line has no ':' to split on

  /** The request body: the project structure, already serialized to JSON text, or null. */
  datatype ProjectStructure = ProjectStructure(Structure: Option<string>)

  /** The chat-completion request handed to the backend: the user message and the fixed
      generation parameters. */
  datatype Payload = Payload(
    userContent: string,
    maxTokens: int,
    temperature: real,
    topP: real,
    presencePenalty: real,
    frequencyPenalty: real)

  /** What the backend call yields: it failed (transport error, non-success status, unparsable
      body), or it answered with the message content of the first choice, which may be absent. */
  datatype BackendReply = CallFailed | Replied(content: Option<string>)

  /** The HTTP outcome of `AnalyzeProject`. */
  datatype Response = Status200(body: string) | Status400(message: string) | Status500(message: string)

  const InvalidRequestMessage := "Invalid request. Structure is required."
  const TooLargeMessage := "Input too large to process. Please simplify your structure."
  const InternalErrorMessage := "Internal server error."

  // ------------------------------------------------------------------ size guard

  /** Cuts the serialized structure to the character ceiling and marks the cut. */
  function SummarizeStructure(structureJson: string): (r: string)
    ensures |structureJson| <= TruncationCeiling ==> r == structureJson
    ensures |structureJson| > TruncationCeiling ==>
      && |r| == TruncationCeiling + |TruncationMarker|
      && r[..TruncationCeiling] == structureJson[..TruncationCeiling]
      && r[TruncationCeiling..] == TruncationMarker
  {
    if |structureJson| > TruncationCeiling then
      structureJson[..TruncationCeiling] + TruncationMarker
    else
      structureJson
  }

  /** Summarizing a summary changes nothing. */
  lemma SummarizeIdempotent(s: string)
    ensures SummarizeStructure(SummarizeStructure(s)) == SummarizeStructure(s)
  {
    if |s| > TruncationCeiling {
      var r := SummarizeStructure(s);
      assert r[..TruncationCeiling] + TruncationMarker == r;
    }
  }

  /** The approximate token count: the words between spaces and line breaks, plus one token
      per six characters. */
  function EstimateTokens(input: string): (n: nat)
    ensures n == WordEnds(input, TokenSeparators) + |input| / 6
    ensures input == [] ==> n == 0
  {
    SplitCountsWords(input, TokenSeparators);
    |RemoveEmpty(Split(input, TokenSeparators))| + |input| / 6
  }

  /** Accepts the input when its estimated token count is within the limit. */
  function ValidateTokenCount(input: string, maxAllowedTokens: int): (ok: bool)
    ensures ok <==> WordEnds(input, TokenSeparators) + |input| / 6 <= maxAllowedTokens
  {
    EstimateTokens(input) <= maxAllowedTokens
  }

  /** Whatever the input size, the summarized text never estimates above 8010 tokens. */
  lemma SummaryEstimateBounded(s: string)
    ensures EstimateTokens(SummarizeStructure(s)) <= 8010
  {
    WordEndsBound(SummarizeStructure(s), TokenSeparators);
  }

  /** A structure of at most 6000 characters always passes the token check. */
  lemma ShortStructureAccepted(s: string)
    requires |s| <= 6000
    ensures ValidateTokenCount(SummarizeStructure(s), MaxInputTokens)
  {
    WordEndsBound(s, TokenSeparators);
  }

  /** The token check runs on the truncated text: one long word of 24000 characters or more
      would fail the check on its own, yet its summary passes. */
  lemma TruncationBeforeTokenCheck(s: string)
    requires |s| >= 24000
    requires forall i :: 0 <= i < |s| ==> s[i] !in TokenSeparators
    ensures !ValidateTokenCount(s, MaxInputTokens)
    ensures ValidateTokenCount(SummarizeStructure(s), MaxInputTokens)
  {
    assert s + [] == s;
    WordThenSeparator(s, [], TokenSeparators);
    SummaryOfOneWord(s);
  }

  /** A single word longer than the ceiling summarizes to two words: its first 12000 characters
      with "..." attached, and "(truncated)". */
  lemma SummaryOfOneWord(s: string)
    requires |s| > TruncationCeiling
    requires forall i :: 0 <= i < |s| ==> s[i] !in TokenSeparators
    ensures WordEnds(SummarizeStructure(s), TokenSeparators) == 2
  {
    var head := s[..TruncationCeiling] + "...";
    var tail := " (truncated)";
    assert SummarizeStructure(s) == head + tail;
    assert forall i :: 0 <= i < |head| ==> head[i] !in TokenSeparators by {
      assert forall i :: 0 <= i < TruncationCeiling ==> head[i] == s[i];
    }
    WordThenSeparator(head, tail, TokenSeparators);
    MarkerTailIsOneWord();
  }

  lemma MarkerTailIsOneWord()
    ensures WordEnds(" (truncated)", TokenSeparators) == 1
  {
    var word := "(truncated)";
    assert word + [] == word;
    WordThenSeparator(word, [], TokenSeparators);
  }

  // ------------------------------------------------------------------ prompt payload

  const UserPreamble: string :=
    "\nAnalyze this project structure. Provide critical feedback, highlight specific issues, and give sarcastic advice in the format above:\n\n"

  /** The request body sent to the backend (the fixed system instruction is not modelled). */
  function BuildPayload(bounded: string): (p: Payload)
    ensures |p.userContent| >= |bounded|
    ensures p.userContent[|p.userContent| - |bounded|..] == bounded
    ensures p.maxTokens == 4000 && p.temperature == 0.9 && p.topP == 0.95
    ensures p.presencePenalty == 0.3 && p.frequencyPenalty == 0.2
  {
    Payload(UserPreamble + bounded, 4000, 0.9, 0.95, 0.3, 0.2)
  }

  // ------------------------------------------------------------------ line scanning

  /** The prefix a metric line starts with: `- **<name>**`. */
  function Label(metricName: string): (head: string)
    ensures |head| == |metricName| + 6
    ensures head[0] == '-' && head[1] == ' ' && head[2] == '*' && head[3] == '*'
    ensures forall i :: 0 <= i < |metricName| ==> head[4 + i] == metricName[i]
    ensures head[|head| - 2] == '*' && head[|head| - 1] == '*'
    ensures ':' in head <==> ':' in metricName
  {
    "- **" + metricName + "**"
  }

  /** `Array.Find` with a case-insensitive prefix test, as the index of the first matching line. */
  function FindFirst(lines: seq<string>, prefix: string): (r: Option<nat>)
    ensures r.None? <==> forall i :: 0 <= i < |lines| ==> !StartsWithIgnoreCase(lines[i], prefix)
    ensures r.Some? ==>
      && r.value < |lines|
      && StartsWithIgnoreCase(lines[r.value], prefix)
      && forall i :: 0 <= i < r.value ==> !StartsWithIgnoreCase(lines[i], prefix)
  {
    FindFrom(lines, prefix, 0)
  }

  function FindFrom(lines: seq<string>, prefix: string, k: nat): (r: Option<nat>)
    requires k <= |lines|
    ensures r.None? <==> forall i :: k <= i < |lines| ==> !StartsWithIgnoreCase(lines[i], prefix)
    ensures r.Some? ==>
      && k <= r.value < |lines|
      && StartsWithIgnoreCase(lines[r.value], prefix)
      && forall i :: k <= i < r.value ==> !StartsWithIgnoreCase(lines[i], prefix)
    decreases |lines| - k
  {
    if k == |lines| then None
    else if StartsWithIgnoreCase(lines[k], prefix) then Some(k)
    else FindFrom(lines, prefix, k + 1)
  }

  /** `line.Split(":")[1].Trim()`: the trimmed text after the first ':' and before the second;
      `None` where the indexing would throw because the line has no ':'. */
  function ColonField(line: string): (r: Option<string>)
    ensures r.None? <==> ':' !in line
    ensures r.Some? ==> ':' !in r.value
  {
    var pieces := Split(line, {':'});
    if |pieces| < 2 then None else Some(Trim(pieces[1]))
  }

  /** The colon field is the text strictly between the first ':' (at `i`) and the next one
      (at `j`, or the end of the line), trimmed. */
  lemma ColonFieldBetween(line: string, i: nat, j: nat)
    requires i < j <= |line| && line[i] == ':' && (j == |line| || line[j] == ':')
    requires forall k :: 0 <= k < j && k != i ==> line[k] != ':'
    ensures ColonField(line) == Some(Trim(line[i + 1..j]))
  {
    SecondPiece(line, ':', i, j);
  }

  /** The first line labelled `metricName` has no ':', so reading its field throws. */
  predicate MissingColon(lines: seq<string>, metricName: string)
    ensures MissingColon(lines, metricName) ==> exists l :: l in lines && ':' !in l
  {
    var found := FindFirst(lines, Label(metricName));
    found.Some? && ':' !in lines[found.value]
  }

  /** The first line labelled `metricName` has a colon field that parses as `v`. */
  predicate FieldReads(lines: seq<string>, metricName: string, v: int)
  {
    var found := FindFirst(lines, Label(metricName));
    found.Some? && ColonField(lines[found.value]).Some? && TryParseInt(ColonField(lines[found.value]).value) == Some(v)
  }

  /** The first line labelled `metricName` has a colon field that does not parse as an `int`. */
  predicate FieldUnparsable(lines: seq<string>, metricName: string)
  {
    var found := FindFirst(lines, Label(metricName));
    found.Some? && ColonField(lines[found.value]).Some? && TryParseInt(ColonField(lines[found.value]).value).None?
  }

  /** An integer metric: the first line labelled `metricName` (any letter case) decides; its colon
      field parsed as an `int`, or 0 when no line is labelled or the field does not parse. */
  function ExtractNumericMetric(lines: seq<string>, metricName: string): (r: Result<int, Fault>)
    ensures r.Err? <==> MissingColon(lines, metricName)
    ensures r.Err? ==> r.error == IndexOutOfRange
    ensures FindFirst(lines, Label(metricName)).None? ==> r == Ok(0)
    ensures r.Ok? && r.value != 0 ==>
      var i := FindFirst(lines, Label(metricName)).value;
      ColonField(lines[i]).Some? && TryParseInt(ColonField(lines[i]).value) == Some(r.value)
    ensures r.Ok? ==> Int32Min <= r.value <= Int32Max
    ensures forall v :: FieldReads(lines, metricName, v) ==> r == Ok(v)
    ensures FieldUnparsable(lines, metricName) ==> r == Ok(0)
  {
    match FindFirst(lines, Label(metricName))
    case None => Ok(0)
    case Some(i) =>
      match ColonField(lines[i])
      case None => Err(IndexOutOfRange)
      case Some(field) => Ok(TryParseInt(field).GetOr(0))
  }

  /** A text metric: the colon field of the first line labelled `metricName`, or "" when no
      line is labelled. */
  function ExtractStringMetric(lines: seq<string>, metricName: string): (r: Result<string, Fault>)
    ensures r.Err? <==> MissingColon(lines, metricName)
    ensures r.Err? ==> r.error == IndexOutOfRange
    ensures FindFirst(lines, Label(metricName)).None? ==> r == Ok("")
    ensures r.Ok? && r.value != "" ==>
      var i := FindFirst(lines, Label(metricName)).value;
      ColonField(lines[i]) == Some(r.value)
    ensures r.Ok? ==> ':' !in r.value
    ensures var found := FindFirst(lines, Label(metricName));
      found.Some? && ColonField(lines[found.value]).Some? ==> r == Ok(ColonField(lines[found.value]).value)
  {
    match FindFirst(lines, Label(metricName))
    case None => Ok("")
    case Some(i) =>
      match ColonField(lines[i])
      case None => Err(IndexOutOfRange)
      case Some(field) => Ok(field)
  }

  /** A metric found on an earlier line is not affected by any later line. */
  lemma {:induction false} FirstLabelledLineWins(lines: seq<string>, more: seq<string>, metricName: string)
    requires FindFirst(lines, Label(metricName)).Some?
    ensures ExtractNumericMetric(lines + more, metricName) == ExtractNumericMetric(lines, metricName)
    ensures ExtractStringMetric(lines + more, metricName) == ExtractStringMetric(lines, metricName)
  {
    FindFirstIgnoresLaterLines(lines, more, Label(metricName));
  }

  lemma FindFirstIgnoresLaterLines(lines: seq<string>, more: seq<string>, prefix: string)
    requires FindFirst(lines, prefix).Some?
    ensures FindFirst(lines + more, prefix) == FindFirst(lines, prefix)
    ensures (lines + more)[FindFirst(lines, prefix).value] == lines[FindFirst(lines, prefix).value]
  {
    var i := FindFirst(lines, prefix).value;
    assert forall k :: 0 <= k <= i ==> (lines + more)[k] == lines[k];
  }

  /** The first line starting with the prefix is found, whatever follows it. */
  lemma FindFirstAt(before: seq<string>, line: string, after: seq<string>, prefix: string)
    requires forall i :: 0 <= i < |before| ==> !StartsWithIgnoreCase(before[i], prefix)
    requires StartsWithIgnoreCase(line, prefix)
    ensures FindFirst(before + [line] + after, prefix) == Some(|before|)
    ensures (before + [line] + after)[|before|] == line
  {
    var lines := before + [line] + after;
    assert forall i :: 0 <= i < |before| ==> lines[i] == before[i];
    assert lines[|before|] == line;
    var found := FindFirst(lines, prefix);
    assert found.Some?;
    assert found.value <= |before|;
  }

  /** A metric line as the reply format writes it, `- **<name>**: <field>`, is labelled with the
      metric, and its colon field is `field` (when the name and the field hold no ':' and the
      field has no white space at its ends). */
  lemma MetricLine(metricName: string, field: string)
    requires ':' !in metricName && ':' !in field
    requires field != [] && !IsWhiteSpace(field[0]) && !IsWhiteSpace(field[|field| - 1])
    ensures StartsWithIgnoreCase(Label(metricName) + ": " + field, Label(metricName))
    ensures ColonField(Label(metricName) + ": " + field) == Some(field)
  {
    var head := Label(metricName) + ": ";
    var line := head + field;
    assert line == Label(metricName) + ": " + field;
    assert line[..|Label(metricName)|] == Label(metricName);
    ExactPrefixMatches(line, Label(metricName));
    forall i | 0 <= i < |head| - 2 ensures head[i] != ':' {
      if 4 <= i < 4 + |metricName| { assert head[i] == metricName[i - 4]; }
    }
    ColonFieldAfterHead(head, field);
  }

  /** Round trip for numbers: writing `v` on the first line labelled with the metric, whatever
      surrounds it, reads back as `v`. */
  lemma NumericMetricRoundTrip(before: seq<string>, metricName: string, v: int, after: seq<string>)
    requires ':' !in metricName && Int32Min <= v <= Int32Max
    requires forall i :: 0 <= i < |before| ==> !StartsWithIgnoreCase(before[i], Label(metricName))
    ensures ExtractNumericMetric(before + [Label(metricName) + ": " + FormatInt(v)] + after, metricName) == Ok(v)
  {
    var num := FormatInt(v);
    FormatIntShape(v);
    assert ':' !in num;
    MetricLine(metricName, num);
    FindFirstAt(before, Label(metricName) + ": " + num, after, Label(metricName));
    ParseFormatRoundTrip(v);
    assert FieldReads(before + [Label(metricName) + ": " + num] + after, metricName, v);
  }

  /** Round trip for text: a field without ':' and without white space at its ends, written on
      the first line labelled with the metric, reads back unchanged. */
  lemma StringMetricRoundTrip(before: seq<string>, metricName: string, value: string, after: seq<string>)
    requires ':' !in metricName && ':' !in value
    requires value != [] && !IsWhiteSpace(value[0]) && !IsWhiteSpace(value[|value| - 1])
    requires forall i :: 0 <= i < |before| ==> !StartsWithIgnoreCase(before[i], Label(metricName))
    ensures ExtractStringMetric(before + [Label(metricName) + ": " + value] + after, metricName) == Ok(value)
  {
    MetricLine(metricName, value);
    FindFirstAt(before, Label(metricName) + ": " + value, after, Label(metricName));
  }

  // ------------------------------------------------------------------ file type distribution

  const DistributionLabel: string := "- **File Type Distribution**"
  const CsvOpen: string := "```csv"
  const Fence: string := "```"

  /** Where the CSV text starts: just past the first "```csv", or at 5 (= -1 + 6) when the line
      has no such marker. Never negative, never past the end of a labelled line. */
  function CsvStart(line: string): (start: nat)
    requires StartsWithIgnoreCase(line, DistributionLabel)
    ensures 5 <= start <= |line|
    ensures IndexOf(line, CsvOpen, 0) == -1 ==> start == 5
    ensures IndexOf(line, CsvOpen, 0) >= 0 ==>
      && start >= |CsvOpen|
      && OccursAt(line, CsvOpen, start - |CsvOpen|)
      && forall i :: 0 <= i < start - |CsvOpen| ==> !OccursAt(line, CsvOpen, i)
  {
    IndexOf(line, CsvOpen, 0) + |CsvOpen|
  }

  /** One CSV row into the map: exactly two comma-separated parts, the second an `int`. */
  function AddRow(m: map<string, int>, row: string): (r: map<string, int>)
    ensures m.Keys <= r.Keys && |r.Keys| <= |m.Keys| + 1
    ensures r.Keys <= m.Keys + {Trim(Split(row, {','})[0])}
    ensures forall k :: k in m && r[k] != m[k] ==>
      |Split(row, {','})| == 2 && k == Trim(Split(row, {','})[0])
    ensures var parts := Split(row, {','});
      |parts| == 2 && TryParseInt(Trim(parts[1])).Some? ==>
        Trim(parts[0]) in r && r[Trim(parts[0])] == TryParseInt(Trim(parts[1])).value
    ensures var parts := Split(row, {','});
      !(|parts| == 2 && TryParseInt(Trim(parts[1])).Some?) ==> r == m
  {
    var parts := Split(row, {','});
    if |parts| == 2 && TryParseInt(Trim(parts[1])).Some? then
      m[Trim(parts[0]) := TryParseInt(Trim(parts[1])).value]
    else
      m
  }

  /** The rows, added left to right. */
  function RowsToMap(rows: seq<string>): (m: map<string, int>)
    ensures rows == [] ==> m == map[]
    ensures forall k :: k in m ==> exists row :: row in rows && NamesKey(row, k)
  {
    if rows == [] then map[]
    else
      var before, row := rows[..|rows| - 1], rows[|rows| - 1];
      var prev := RowsToMap(before);
      var m := AddRow(prev, row);
      assert forall k :: k in m && k !in prev ==> NamesKey(row, k);
      assert forall r :: r in before ==> r in rows;
      m
  }

  /** `row` has exactly two comma-separated parts and names the file type `k`. */
  predicate NamesKey(row: string, k: string)
  {
    |Split(row, {','})| == 2 && Trim(Split(row, {','})[0]) == k
  }

  /** Each row adds at most one file type. */
  lemma {:induction false} RowsToMapBound(rows: seq<string>)
    ensures |RowsToMap(rows).Keys| <= |rows|
    decreases |rows|
  {
    if rows != [] {
      RowsToMapBound(rows[..|rows| - 1]);
    }
  }

  /** Adding the rows up to `k + 1` is adding row `k` to the rows before it. */
  lemma RowsToMapStep(rows: seq<string>, k: nat)
    requires k < |rows|
    ensures RowsToMap(rows[..k + 1]) == AddRow(RowsToMap(rows[..k]), rows[k])
  {
    var upTo := rows[..k + 1];
    assert upTo != [] && upTo[|upTo| - 1] == rows[k];
    assert upTo[..|upTo| - 1] == rows[..k];
  }

  /** The trimmed text between `CsvStart` and the next "```", or `None` when there is no closing
      fence. */
  function CsvBlock(line: string): (r: Option<string>)
    requires StartsWithIgnoreCase(line, DistributionLabel)
    ensures r.None? <==> IndexOf(line, Fence, CsvStart(line)) == -1
    ensures r.Some? ==> forall c :: c in r.value ==> c in line
    ensures r.Some? ==>
      && CsvStart(line) <= IndexOf(line, Fence, CsvStart(line))
      && r.value == Trim(line[CsvStart(line)..IndexOf(line, Fence, CsvStart(line))])
  {
    var csvStart := CsvStart(line);
    var csvEnd := IndexOf(line, Fence, csvStart);
    if csvEnd < csvStart then None
    else
      var block := line[csvStart..csvEnd];
      assert forall c :: c in block ==> c in line;
      Some(Trim(block))
  }

  /** The file type distribution that `ExtractFileTypeDistribution` computes. */
  function FileTypeDistributionOf(lines: seq<string>): (m: map<string, int>)
    ensures FindFirst(lines, DistributionLabel).None? ==> m == map[]
  {
    match FindFirst(lines, DistributionLabel)
    case None => map[]
    case Some(i) =>
      match CsvBlock(lines[i])
      case None => map[]
      case Some(csv) => RowsToMap(Split(csv, {'\n'}))
  }

  /** Scans for the distribution line, cuts out the CSV block and adds its rows one by one. */
  method ExtractFileTypeDistribution(lines: seq<string>) returns (distribution: map<string, int>)
    ensures distribution == FileTypeDistributionOf(lines)
  {
    distribution := map[];
    var found := FindFirst(lines, DistributionLabel);
    if found.None? {
      return;
    }
    var distributionLine := lines[found.value];
    var csvStart := IndexOf(distributionLine, CsvOpen, 0) + |CsvOpen|;
    var csvEnd := IndexOf(distributionLine, Fence, csvStart);
    if csvStart < 0 || csvEnd < csvStart {
      return;
    }
    var csvContent := Trim(distributionLine[csvStart..csvEnd]);
    assert CsvBlock(distributionLine) == Some(csvContent);
    var rows := Split(csvContent, {'\n'});
    assert FileTypeDistributionOf(lines) == RowsToMap(rows);
    for k := 0 to |rows|
      invariant distribution == RowsToMap(rows[..k])
    {
      var parts := Split(rows[k], {','});
      if |parts| == 2 {
        var count := TryParseInt(Trim(parts[1]));
        if count.Some? {
          distribution := distribution[Trim(parts[0]) := count.value];
        }
      }
      RowsToMapStep(rows, k);
    }
    assert rows[..|rows|] == rows;
  }

  /** With no closing "```" at or after the CSV start, the distribution is empty. */
  lemma NoClosingFenceGivesEmpty(lines: seq<string>)
    requires FindFirst(lines, DistributionLabel).Some?
    requires var line := lines[FindFirst(lines, DistributionLabel).value];
      IndexOf(line, Fence, CsvStart(line)) == -1
    ensures FileTypeDistributionOf(lines) == map[]
  {
  }

  /** Lines without '\n' (as every line of a reply split on "\n" is) give at most one entry:
      the CSV block is a single row. */
  lemma DistributionHasAtMostOneEntry(lines: seq<string>)
    requires forall l :: l in lines ==> '\n' !in l
    ensures |FileTypeDistributionOf(lines).Keys| <= 1
  {
    var found := FindFirst(lines, DistributionLabel);
    if found.Some? {
      var line := lines[found.value];
      var block := CsvBlock(line);
      if block.Some? {
        var csv := block.value;
        assert '\n' !in csv;
        SplitWithoutSeparator(csv, {'\n'});
        assert RowsToMap([csv]) == AddRow(map[], csv);
      }
    }
  }

  /** The single row decides: `name,count` with an `int` count gives exactly that entry, and a
      row of any other shape gives the empty map. */
  lemma SingleRowDistribution(lines: seq<string>, csv: string)
    requires FindFirst(lines, DistributionLabel).Some?
    requires CsvBlock(lines[FindFirst(lines, DistributionLabel).value]) == Some(csv)
    requires '\n' !in csv
    ensures var parts := Split(csv, {','});
      if |parts| == 2 && TryParseInt(Trim(parts[1])).Some? then
        FileTypeDistributionOf(lines) == map[Trim(parts[0]) := TryParseInt(Trim(parts[1])).value]
      else
        FileTypeDistributionOf(lines) == map[]
  {
    SplitWithoutSeparator(csv, {'\n'});
    assert RowsToMap([csv]) == AddRow(map[], csv);
  }

  /** Without a "```csv" marker the CSV start is 5, so the guard `csvStart < 0` never fires and
      the text from index 5 of the line up to the first "```" is read as the CSV block. */
  lemma MissingCsvMarkerReadsFromIndexFive(line: string)
    requires StartsWithIgnoreCase(line, DistributionLabel)
    requires forall i :: !OccursAt(line, CsvOpen, i)
    ensures CsvStart(line) == 5
    ensures IndexOf(line, Fence, 5) >= 5 ==> CsvBlock(line) == Some(Trim(line[5..IndexOf(line, Fence, 5)]))
  {
  }

  // ------------------------------------------------------------------ parsing the reply

  /** The reply split on "\n" with empty entries removed. */
  function Lines(content: string): (lines: seq<string>)
    ensures forall l :: l in lines ==> l != [] && '\n' !in l
  {
    RemoveEmpty(Split(content, {'\n'}))
  }

  /** Extraction throws exactly when the content is null or empty, or when the first line carrying
      one of the labels read with a colon split has no ':'. */
  predicate ExtractionFails(content: Option<string>)
    ensures content.None? || content == Some("") ==> ExtractionFails(content)
    ensures ExtractionFails(content) && content.Some? && content.value != [] ==>
      exists l :: l in Lines(content.value) && ':' !in l
  {
    || content.None?
    || content.value == []
    || var lines := Lines(content.value);
       || MissingColon(lines, "Total Files")
       || MissingColon(lines, "Total Directories")
       || MissingColon(lines, "Average Nesting Levels")
       || MissingColon(lines, "Deepest Directory")
       || MissingColon(lines, "Services Detected")
       || MissingColon(lines, "Projects")
       || MissingColon(lines, "Design Patterns")
       || MissingColon(lines, "Architecture Layers")
  }

  /** Extraction throws only on a labelled line without ':': a non-empty reply whose every line
      has a ':' never fails, and neither does one with no labelled line at all. */
  lemma ColonInEveryLineNeverFails(content: string)
    requires content != []
    requires forall l :: l in Lines(content) ==> ':' in l
    ensures !ExtractionFails(Some(content))
  {
    var lines := Lines(content);
    forall name | true ensures !MissingColon(lines, name) {
      var found := FindFirst(lines, Label(name));
      if found.Some? {
        assert lines[found.value] in lines;
      }
    }
  }

  /** Fills a metrics record field by field from the reply's lines; any field whose label is
      missing keeps its zero or empty default. */
  method ParseMetricsFromGptResponse(content: Option<string>) returns (r: Result<ProjectMetrics, Fault>)
    ensures r.Err? <==> ExtractionFails(content)
    ensures content.None? || content == Some("") ==> r == Err(InvalidGptResponseFormat)
    ensures r.Ok? ==>
      var lines := Lines(content.value);
      && r.value.TotalFiles == ExtractNumericMetric(lines, "Total Files").value
      && r.value.TotalDirectories == ExtractNumericMetric(lines, "Total Directories").value
      && r.value.AverageNestingLevel == ExtractNumericMetric(lines, "Average Nesting Levels").value
      && r.value.DeepestDirectory == ExtractStringMetric(lines, "Deepest Directory").value
      && r.value.FileTypeDistribution == FileTypeDistributionOf(lines)
      && r.value.Services == ExtractNumericMetric(lines, "Services Detected").value
      && r.value.Projects == ExtractNumericMetric(lines, "Projects").value
      && r.value.Patterns == ExtractNumericMetric(lines, "Design Patterns").value
      && r.value.ArchitectureLayers == ExtractNumericMetric(lines, "Architecture Layers").value
    ensures r.Ok? ==> |r.value.FileTypeDistribution.Keys| <= 1
  {
    if content.None? || content.value == [] {
      return Err(InvalidGptResponseFormat);
    }
    var metrics := DefaultMetrics;
    var lines := Lines(content.value);
    var totalFiles :- ExtractNumericMetric(lines, "Total Files");
    metrics := metrics.(TotalFiles := totalFiles);
    var totalDirectories :- ExtractNumericMetric(lines, "Total Directories");
    metrics := metrics.(TotalDirectories := totalDirectories);
    var averageNestingLevel :- ExtractNumericMetric(lines, "Average Nesting Levels");
    metrics := metrics.(AverageNestingLevel := averageNestingLevel);
    var deepestDirectory :- ExtractStringMetric(lines, "Deepest Directory");
    metrics := metrics.(DeepestDirectory := deepestDirectory);
    var distribution := ExtractFileTypeDistribution(lines);
    metrics := metrics.(FileTypeDistribution := distribution);
    var services :- ExtractNumericMetric(lines, "Services Detected");
    metrics := metrics.(Services := services);
    var projects :- ExtractNumericMetric(lines, "Projects");
    metrics := metrics.(Projects := projects);
    var patterns :- ExtractNumericMetric(lines, "Design Patterns");
    metrics := metrics.(Patterns := patterns);
    var layers :- ExtractNumericMetric(lines, "Architecture Layers");
    metrics := metrics.(ArchitectureLayers := layers);

    DistributionHasAtMostOneEntry(lines);
    return Ok(metrics);
  }

  // ------------------------------------------------------------------ a reply that ignored the format

  /** A line whose `k`-th character differs from the prefix's, letter case aside, does not start
      with the prefix. */
  lemma DiffersAt(line: string, prefix: string, k: nat)
    requires k < |prefix| && (|line| < |prefix| || LowerAscii(line[k]) != LowerAscii(prefix[k]))
    ensures !StartsWithIgnoreCase(line, prefix)
  {
    if |prefix| <= |line| {
      assert ToLowerAscii(line[..|prefix|])[k] != ToLowerAscii(prefix)[k];
    }
  }

  /** A single line whose label starts with another letter is not labelled with `name`. */
  lemma NotThatMetric(line: string, name: string)
    requires name != [] && |line| > 4 && LowerAscii(line[4]) != LowerAscii(name[0])
    ensures FindFirst([line], Label(name)) == None
  {
    assert Label(name)[4] == name[0];
    DiffersAt(line, Label(name), 4);
  }

  /** A content without "\n" is a single line. */
  lemma SingleLine(content: string)
    requires content != [] && '\n' !in content
    ensures Lines(content) == [content]
  {
    SplitWithoutSeparator(content, {'\n'});
    var one: seq<string> := [content];
    assert one[1..] == [];
    assert RemoveEmpty(one[1..]) == [];
  }

  /** Behind a head ending in ": " and holding no other ':', the colon field is the rest of the
      line, provided that rest has no ':' and no white space at its ends. */
  lemma ColonFieldAfterHead(head: string, rest: string)
    requires |head| >= 2 && head[|head| - 2] == ':' && head[|head| - 1] == ' '
    requires forall i :: 0 <= i < |head| - 2 ==> head[i] != ':'
    requires rest != [] && !IsWhiteSpace(rest[0]) && !IsWhiteSpace(rest[|rest| - 1])
    requires ':' !in rest
    ensures ColonField(head + rest) == Some(rest)
  {
    var line := head + rest;
    var colon := |head| - 2;
    OnlyColonInHead(head, rest);
    ColonFieldBetween(line, colon, |line|);
    assert line[colon + 1..|line|] == [' '] + rest;
    TrimLeadingSpace(rest);
  }

  /** The ':' before the head's final space is the only one in the line. */
  lemma OnlyColonInHead(head: string, rest: string)
    requires |head| >= 2 && head[|head| - 2] == ':'
    requires forall i :: 0 <= i < |head| - 2 ==> head[i] != ':'
    requires head[|head| - 1] != ':' && ':' !in rest
    ensures forall k :: 0 <= k < |head + rest| && k != |head| - 2 ==> (head + rest)[k] != ':'
  {
    forall k | 0 <= k < |head + rest| && k != |head| - 2 ensures (head + rest)[k] != ':' {
      if k >= |head| { assert (head + rest)[k] == rest[k - |head|]; }
    }
  }

  /** The head of a "Total Files" line as the reply format writes it: label, ':' and a space. */
  const TotalFilesHead: string := "- **Total Files**: "

  /** A reply holding one line labelled with any other letter than the eight labels read after
      "Total Files" yields their zero and empty defaults. */
  lemma OtherMetricsAbsent(line: string)
    requires |line| > 10 && line[4] == 'T' && line[10] == 'F'
    ensures var lines := [line];
      && ExtractNumericMetric(lines, "Total Directories") == Ok(0)
      && ExtractNumericMetric(lines, "Average Nesting Levels") == Ok(0)
      && ExtractStringMetric(lines, "Deepest Directory") == Ok("")
      && FileTypeDistributionOf(lines) == map[]
      && ExtractNumericMetric(lines, "Services Detected") == Ok(0)
      && ExtractNumericMetric(lines, "Projects") == Ok(0)
      && ExtractNumericMetric(lines, "Design Patterns") == Ok(0)
      && ExtractNumericMetric(lines, "Architecture Layers") == Ok(0)
  {
    assert Label("Total Directories")[10] == 'D';
    DiffersAt(line, Label("Total Directories"), 10);
    NotThatMetric(line, "Average Nesting Levels");
    NotThatMetric(line, "Deepest Directory");
    NotThatMetric(line, "Services Detected");
    NotThatMetric(line, "Projects");
    NotThatMetric(line, "Design Patterns");
    NotThatMetric(line, "Architecture Layers");
    assert DistributionLabel[4] == 'F';
    DiffersAt(line, DistributionLabel, 4);
  }

  /** The head has its only ':' just before its final space, and no line break. */
  lemma TotalFilesHeadShape()
    ensures |TotalFilesHead| == 19 && TotalFilesHead[17] == ':' && TotalFilesHead[18] == ' '
    ensures forall i :: 0 <= i < 17 ==> TotalFilesHead[i] != ':'
    ensures '\n' !in TotalFilesHead
    ensures TotalFilesHead[..|Label("Total Files")|] == Label("Total Files")
  {
  }

  /** Appending text without line breaks to a head without line breaks gives one line. */
  lemma NoLineBreakInJoin(head: string, rest: string)
    requires '\n' !in head && '\n' !in rest
    ensures '\n' !in head + rest
  {
    forall k | 0 <= k < |head + rest| ensures (head + rest)[k] != '\n' {
      if k >= |head| { assert (head + rest)[k] == rest[k - |head|]; }
    }
  }

  /** A line "- **Total Files**: " followed by a signed numeral is a reply of one line, labelled
      "Total Files", whose colon field is the numeral. */
  lemma TotalFilesField(num: string)
    requires num != [] && IsDigit(num[|num| - 1])
    requires forall i :: 0 <= i < |num| ==> IsDigit(num[i]) || num[i] == '-'
    ensures var content := TotalFilesHead + num;
      && Lines(content) == [content]
      && FindFirst([content], Label("Total Files")) == Some(0)
      && ColonField(content) == Some(num)
  {
    var content := TotalFilesHead + num;
    TotalFilesHeadShape();
    assert '\n' !in num && ':' !in num;
    NoLineBreakInJoin(TotalFilesHead, num);
    SingleLine(content);
    assert content[..|Label("Total Files")|] == TotalFilesHead[..|Label("Total Files")|];
    ColonFieldAfterHead(TotalFilesHead, num);
  }

  /** The line "- **Total Files**: v" is a reply of one line, and reads as TotalFiles == v. */
  lemma TotalFilesLine(v: int)
    requires Int32Min <= v <= Int32Max
    ensures var content := TotalFilesHead + FormatInt(v);
      && Lines(content) == [content]
      && ExtractNumericMetric([content], "Total Files") == Ok(v)
  {
    FormatIntShape(v);
    TotalFilesField(FormatInt(v));
    ParseFormatRoundTrip(v);
  }

  /** The letters that tell "Total Files" apart from the other labels. */
  lemma TotalFilesLetters(line: string)
    requires |line| >= |TotalFilesHead| && line[..|TotalFilesHead|] == TotalFilesHead
    ensures |line| > 10 && line[4] == 'T' && line[10] == 'F'
  {
    assert line[4] == line[..|TotalFilesHead|][4];
    assert line[10] == line[..|TotalFilesHead|][10];
  }

  /** A reply that is only the line "- **Total Files**: v" parses without an exception: TotalFiles
      is v and every other metric keeps its default. */
  lemma DegradedReplyKeepsTotalFiles(v: int)
    requires Int32Min <= v <= Int32Max
    ensures var content := TotalFilesHead + FormatInt(v);
      && !ExtractionFails(Some(content))
      && Lines(content) == [content]
      && ExtractNumericMetric([content], "Total Files") == Ok(v)
      && ExtractNumericMetric([content], "Total Directories") == Ok(0)
      && ExtractNumericMetric([content], "Average Nesting Levels") == Ok(0)
      && ExtractStringMetric([content], "Deepest Directory") == Ok("")
      && FileTypeDistributionOf([content]) == map[]
      && ExtractNumericMetric([content], "Services Detected") == Ok(0)
      && ExtractNumericMetric([content], "Projects") == Ok(0)
      && ExtractNumericMetric([content], "Design Patterns") == Ok(0)
      && ExtractNumericMetric([content], "Architecture Layers") == Ok(0)
  {
    var content := TotalFilesHead + FormatInt(v);
    TotalFilesLine(v);
    assert content[..|TotalFilesHead|] == TotalFilesHead;
    TotalFilesLetters(content);
    OtherMetricsAbsent(content);
  }

  // ------------------------------------------------------------------ the endpoint

  /** The endpoint: rejects a missing structure, truncates the serialized structure, rejects it
      when the truncated text is over the token limit, and only then calls the backend; any
      failure of the call or of extraction becomes a 500, and otherwise the reply's content is
      returned. The extracted metrics are computed and then discarded. `sent` is the payload
      handed to the backend, `None` when no call was made. */
  method AnalyzeProject(request: Option<ProjectStructure>, call: Payload -> BackendReply)
    returns (response: Response, sent: Option<Payload>)
    ensures request.None? || request.value.Structure.None? ==>
      response == Status400(InvalidRequestMessage) && sent.None?
    ensures request.Some? && request.value.Structure.Some? ==>
      var bounded := SummarizeStructure(request.value.Structure.value);
      && (!ValidateTokenCount(bounded, MaxInputTokens) ==>
            response == Status400(TooLargeMessage) && sent.None?)
      && (ValidateTokenCount(bounded, MaxInputTokens) ==>
            && sent == Some(BuildPayload(bounded))
            && (call(BuildPayload(bounded)).CallFailed? ==> response == Status500(InternalErrorMessage))
            && (call(BuildPayload(bounded)).Replied? ==>
                  var content := call(BuildPayload(bounded)).content;
                  if ExtractionFails(content) then response == Status500(InternalErrorMessage)
                  else response == Status200(content.value)))
  {
    sent := None;
    if request.None? || request.value.Structure.None? {
      return Status400(InvalidRequestMessage), None;
    }
    var inputStructureJson := SummarizeStructure(request.value.Structure.value);
    if !ValidateTokenCount(inputStructureJson, MaxInputTokens) {
      return Status400(TooLargeMessage), None;
    }
    var payload := BuildPayload(inputStructureJson);
    sent := Some(payload);
    var reply := call(payload);
    if reply.CallFailed? {
      return Status500(InternalErrorMessage), sent;
    }
    var metrics := ParseMetricsFromGptResponse(reply.content);
    if metrics.Err? {
      return Status500(InternalErrorMessage), sent;
    }
    response := Status200(reply.content.value);
  }
}
