# Over-engineering detector: a Dafny model

The over-engineering detector has two parts. The browser side captures a picked project
directory as a nested map. The ASP.NET `AnalyzerController` bounds that map's JSON text, sends it
to a chat-completion backend with an instruction to roast the architecture, reads metric lines
back out of the reply, and answers with the reply's text. The browser then shows a "shame badge",
a complexity score, and each critique point marked as praise or not.

This project models both parts in Dafny and proves what they promise:

- `wrappers.dfy` (`Wrappers`): `Option` for null, and `Result` for an operation that may throw.
- `text.dfy` (`Text`): the .NET and JavaScript string primitives the code relies on, written over
  `seq<char>`:
  - `String.Trim`;
  - `String.Split`, with and without `RemoveEmptyEntries`;
  - `IndexOf`;
  - `StartsWith(…, OrdinalIgnoreCase)`;
  - `toLowerCase().includes`;
  - `int.TryParse`.
- `analyzer.dfy` (`Analyzer`): the controller.
  - The size guard (`SummarizeStructure`) and the token estimate (`ValidateTokenCount`).
  - The request payload.
  - The line scanner (`ExtractNumericMetric`, `ExtractStringMetric`, `ExtractFileTypeDistribution`).
  - `ParseMetricsFromGptResponse`.
  - The order in which `AnalyzeProject` validates, calls the backend and maps failures to 400 and 500.
- `detector.dfy` (`Detector`): the React component's `scanDirectory` and three display rules:
  - the badge tier;
  - the complexity score;
  - the positive-point classifier.

How each part is written:

- `ExtractFileTypeDistribution` keeps its loop. It is a `method` that adds the CSV rows one by
  one, proved equal to the function `FileTypeDistributionOf`.
- `ParseMetricsFromGptResponse` is a `method`. It starts from the all-default record and
  overwrites it field by field. A field whose line has no `':'` aborts with an exception.
- `AnalyzeProject` is a `method` over an abstract backend `call`. Its out-parameter `sent` is the
  payload handed to the backend, and is `None` when validation rejected the request first.
- `scanDirectory` is modelled as plain recursion over `Entry = File(name) | Directory(name, children)`.
  The original fans out concurrently and merges the children by key.

Behaviour of the code that the model keeps:

- **User message.** The user message is a fixed instruction followed by the bounded structure,
  which ends the message (`BuildPayload`).
- **No depth limit.** The directory scan descends into every directory that is not excluded.
- **Empty structure.** An empty structure is accepted. Only a null request or a null `Structure`
  gets the first 400.
- **Line scanner only.** Metrics are read only by scanning the reply's lines for labels.
- **Response body.** The 200 answer carries the reply's content (as a JSON value; the model keeps
  its text). The extracted metrics are computed and then discarded, yet an exception while
  extracting them still turns the answer into a 500.

## Model

| member | source | states |
|---|---|---|
| Analyzer.SummarizeStructure | OverEngineeringAnalyzer/Controllers/AnalyzerController.cs:244-252 | A text of at most 12000 characters comes back unchanged. A longer one becomes exactly its first 12000 characters followed by "... (truncated)", 12015 characters in all |
| Analyzer.SummarizeIdempotent | OverEngineeringAnalyzer/Controllers/AnalyzerController.cs:244-252 | Summarizing an already summarized text changes nothing |
| Analyzer.EstimateTokens | OverEngineeringAnalyzer/Controllers/AnalyzerController.cs:238 | The estimate is the number of words separated by space, LF or CR, plus length / 6. The estimate of "" is 0 |
| Analyzer.ValidateTokenCount | OverEngineeringAnalyzer/Controllers/AnalyzerController.cs:235-241 | Accepts exactly when words + length / 6 is at most the limit |
| Analyzer.SummaryEstimateBounded | OverEngineeringAnalyzer/Controllers/AnalyzerController.cs:238-249 | Whatever the input, the summarized text estimates at most 8010 tokens |
| Analyzer.ShortStructureAccepted | OverEngineeringAnalyzer/Controllers/AnalyzerController.cs:17 | Any structure of at most 6000 characters passes the 4000-token check |
| Analyzer.TruncationBeforeTokenCheck | OverEngineeringAnalyzer/Controllers/AnalyzerController.cs:45-51 | The check runs on the truncated text. A single word of 24000 or more characters fails the check on its own, yet its summary passes |
| Analyzer.SummaryOfOneWord | OverEngineeringAnalyzer/Controllers/AnalyzerController.cs:249 | A one-word text over the ceiling summarizes to exactly two words |
| Analyzer.BuildPayload | OverEngineeringAnalyzer/Controllers/AnalyzerController.cs:54-107 | The user message ends with the bounded structure. The generation parameters are 4000 tokens, temperature 0.9, top_p 0.95, presence 0.3 and frequency 0.2 |
| Analyzer.Label | OverEngineeringAnalyzer/Controllers/AnalyzerController.cs:194 | The label is "- **", the metric name and "**", six characters longer than the name. It holds a ':' exactly when the name does |
| Analyzer.FindFirst | OverEngineeringAnalyzer/Controllers/AnalyzerController.cs:194 | Array.Find: the index of the first line starting with the label (ASCII case-insensitive), or none exactly when no line does |
| Analyzer.ColonField | OverEngineeringAnalyzer/Controllers/AnalyzerController.cs:195 | Split(":")[1] is missing exactly when the line has no ':'. The trimmed field never holds a ':' |
| Analyzer.ColonFieldBetween | OverEngineeringAnalyzer/Controllers/AnalyzerController.cs:195 | The field is the trimmed text strictly between the first ':' and the second ':' (or the end of the line) |
| Analyzer.MissingColon | OverEngineeringAnalyzer/Controllers/AnalyzerController.cs:194-195 | When the first labelled line lacks the ':' that Split(":")[1] needs, some line of the reply lacks a ':' |
| Analyzer.ExtractNumericMetric | OverEngineeringAnalyzer/Controllers/AnalyzerController.cs:192-200 | Throws exactly when the first labelled line has no ':'. Gives 0 when no line is labelled. When that line's field parses, the result is the parsed value; when it does not parse, the result is 0. Every value fits 32 bits |
| Analyzer.ExtractStringMetric | OverEngineeringAnalyzer/Controllers/AnalyzerController.cs:202-206 | Throws exactly when the first labelled line has no ':'. Gives "" when no line is labelled, and otherwise exactly that line's trimmed colon field, which holds no ':' |
| Analyzer.FirstLabelledLineWins | OverEngineeringAnalyzer/Controllers/AnalyzerController.cs:194-205 | Once a labelled line exists, lines appended after it change neither extraction |
| Analyzer.FindFirstIgnoresLaterLines | OverEngineeringAnalyzer/Controllers/AnalyzerController.cs:194 | Array.Find's first match is unaffected by lines appended after it |
| Analyzer.FindFirstAt | OverEngineeringAnalyzer/Controllers/AnalyzerController.cs:194 | When no earlier line starts with the label, the first line that does is the one found |
| Analyzer.MetricLine | OverEngineeringAnalyzer/Controllers/AnalyzerController.cs:180-206 | When neither the name nor the field holds ':', and the field is non-empty with no white space at either end, the line "- **Name**: field" starts with the label and its colon field is exactly the field |
| Analyzer.NumericMetricRoundTrip | OverEngineeringAnalyzer/Controllers/AnalyzerController.cs:192-200 | For a metric name without ':', writing a 32-bit value on its metric line, after lines that do not start with its label, reads the value back |
| Analyzer.StringMetricRoundTrip | OverEngineeringAnalyzer/Controllers/AnalyzerController.cs:202-206 | For a metric name without ':', writing a non-empty text without ':' and without white space at its ends on its metric line, after lines that do not start with its label, reads the text back |
| Analyzer.CsvStart | OverEngineeringAnalyzer/Controllers/AnalyzerController.cs:214 | IndexOf("```csv") + 6 is at least 5 and within the line. It is exactly 5 when the marker is absent, and otherwise just past the first occurrence of the marker |
| Analyzer.CsvBlock | OverEngineeringAnalyzer/Controllers/AnalyzerController.cs:215-218 | No block exactly when no "```" occurs at or after the CSV start. Otherwise the block is the trimmed text from the CSV start to the first "```" there |
| Analyzer.FileTypeDistributionOf | OverEngineeringAnalyzer/Controllers/AnalyzerController.cs:210-211 | With no distribution line the map is empty |
| Analyzer.ExtractFileTypeDistribution | OverEngineeringAnalyzer/Controllers/AnalyzerController.cs:208-232 | The loop over the CSV rows yields exactly FileTypeDistributionOf of the lines |
| Analyzer.NoClosingFenceGivesEmpty | OverEngineeringAnalyzer/Controllers/AnalyzerController.cs:215-216 | No closing "```" at or after the CSV start gives the empty map |
| Analyzer.DistributionHasAtMostOneEntry | OverEngineeringAnalyzer/Controllers/AnalyzerController.cs:208-232 | Lines already split on "\n" hold a single CSV row, so the map has at most one key |
| Analyzer.SingleRowDistribution | OverEngineeringAnalyzer/Controllers/AnalyzerController.cs:222-229 | The one row "name,count" with an int count gives exactly {name: count}. Any other row gives the empty map |
| Analyzer.MissingCsvMarkerReadsFromIndexFive | OverEngineeringAnalyzer/Controllers/AnalyzerController.cs:214-218 | Without "```csv" the start is 5, so the csvStart < 0 guard never fires and the text from index 5 to the first "```" is read |
| Analyzer.AddRow | OverEngineeringAnalyzer/Controllers/AnalyzerController.cs:222-229 | A row of two comma pieces whose count parses maps the trimmed name to the count. Any other row leaves the map unchanged. The new keys are the old keys plus at most the row's trimmed name, and only that key can change |
| Analyzer.RowsToMap | OverEngineeringAnalyzer/Controllers/AnalyzerController.cs:220-229 | No rows give the empty map, and every key is the trimmed name of some row with exactly two comma pieces |
| Analyzer.RowsToMapBound | OverEngineeringAnalyzer/Controllers/AnalyzerController.cs:220-230 | The map never has more keys than there are rows |
| Analyzer.RowsToMapStep | OverEngineeringAnalyzer/Controllers/AnalyzerController.cs:220-230 | Each further row updates the map built from the rows before it |
| Analyzer.Lines | OverEngineeringAnalyzer/Controllers/AnalyzerController.cs:177 | Every line is non-empty and holds no '\n' |
| Analyzer.ExtractionFails | OverEngineeringAnalyzer/Controllers/AnalyzerController.cs:159-188 | Null or empty content fails. Any other content that fails has a line without ':' |
| Analyzer.ParseMetricsFromGptResponse | OverEngineeringAnalyzer/Controllers/AnalyzerController.cs:154-191 | Fails exactly when the content is null or empty (InvalidGptResponseFormat) or one of the eight labelled lines lacks ':'. Otherwise each field is its label's extraction (defaults when absent), and the distribution has at most one key |
| Analyzer.ColonInEveryLineNeverFails | OverEngineeringAnalyzer/Controllers/AnalyzerController.cs:159-188 | Non-empty content whose every line holds a ':' never makes extraction throw |
| Analyzer.DiffersAt | OverEngineeringAnalyzer/Controllers/AnalyzerController.cs:194 | A line differing from the label at one position, case aside, does not start with it |
| Analyzer.NotThatMetric | OverEngineeringAnalyzer/Controllers/AnalyzerController.cs:194 | A lone line whose label starts with another letter is not found for that metric |
| Analyzer.SingleLine | OverEngineeringAnalyzer/Controllers/AnalyzerController.cs:177 | Non-empty content without '\n' is one line |
| Analyzer.ColonFieldAfterHead | OverEngineeringAnalyzer/Controllers/AnalyzerController.cs:195 | When the head ends in ": " and holds no other ':', and the rest is non-empty, holds no ':' and has no white space at either end, the colon field is the rest |
| Analyzer.OtherMetricsAbsent | OverEngineeringAnalyzer/Controllers/AnalyzerController.cs:180-188 | A lone "Total Files" line leaves every other metric at its default |
| Analyzer.TotalFilesField | OverEngineeringAnalyzer/Controllers/AnalyzerController.cs:192-200 | "- **Total Files**: " plus a non-empty run of digits and '-' ending in a digit is one line, found for Total Files, with that run as its field |
| Analyzer.TotalFilesLine | OverEngineeringAnalyzer/Controllers/AnalyzerController.cs:192-200 | "- **Total Files**: v" reads as v for every 32-bit v |
| Analyzer.TotalFilesLetters | OverEngineeringAnalyzer/Controllers/AnalyzerController.cs:180 | A line starting "- **Total Files**: " has 'T' at index 4 and 'F' at index 10 |
| Analyzer.DegradedReplyKeepsTotalFiles | OverEngineeringAnalyzer/Controllers/AnalyzerController.cs:154-191 | A reply that is only "- **Total Files**: v" raises nothing. It gives TotalFiles v, every other number 0, DeepestDirectory "" and an empty distribution |
| Analyzer.AnalyzeProject | OverEngineeringAnalyzer/Controllers/AnalyzerController.cs:30-133 | A null request or structure gives 400 before anything else. The token check on the truncated text gives the second 400, before any call. Otherwise the bounded payload is sent. A failed call or a failing extraction gives 500, and else 200 with the content |
| Text.IsWhiteSpace | OverEngineeringAnalyzer/Controllers/AnalyzerController.cs:195 | Space, tab, LF and CR are white space. No digit, letter, sign, ':' or ',' is |
| Text.Trim | OverEngineeringAnalyzer/Controllers/AnalyzerController.cs:195 | The result is the input without its leading and trailing white space: the slice between them, with no white space at either end. It is unchanged when the input has none, and empty exactly when the input is all white space |
| Text.LeadingBlanks | OverEngineeringAnalyzer/Controllers/AnalyzerController.cs:195 | Counts the white space at the start: everything before the count is white space, and the character at the count is not |
| Text.ContentEnd | OverEngineeringAnalyzer/Controllers/AnalyzerController.cs:195 | Where the text ends: everything from there on is white space, and the character before it is not |
| Text.TrimLeadingSpace | OverEngineeringAnalyzer/Controllers/AnalyzerController.cs:195 | Trimming " x" gives x when x is non-empty and has no white space at its ends |
| Text.Split | OverEngineeringAnalyzer/Controllers/AnalyzerController.cs:195 | At least one piece. No piece holds a separator. The first piece is empty exactly when the text is empty or starts with a separator. There are two or more pieces exactly when a separator occurs |
| Text.JoinSplit | OverEngineeringAnalyzer/Controllers/AnalyzerController.cs:222 | Joining the pieces with the separator gives the text back |
| Text.SplitWithoutSeparator | OverEngineeringAnalyzer/Controllers/AnalyzerController.cs:222 | A text without separators is one piece |
| Text.FirstPiece | OverEngineeringAnalyzer/Controllers/AnalyzerController.cs:224 | The first piece is the text before the first separator |
| Text.SplitAtFirst | OverEngineeringAnalyzer/Controllers/AnalyzerController.cs:195 | The pieces are the text before the first separator, then the pieces of the rest |
| Text.SecondPiece | OverEngineeringAnalyzer/Controllers/AnalyzerController.cs:195 | Piece 1 is the text between the first and second separators |
| Text.RemoveEmpty | OverEngineeringAnalyzer/Controllers/AnalyzerController.cs:177 | RemoveEmptyEntries keeps exactly the non-empty pieces and never adds any |
| Text.RemoveEmptyAppend | OverEngineeringAnalyzer/Controllers/AnalyzerController.cs:177 | Removing empty pieces distributes over concatenation |
| Text.RemoveEmptySingle | OverEngineeringAnalyzer/Controllers/AnalyzerController.cs:177 | One piece is kept exactly when it is non-empty |
| Text.SplitCountsWords | OverEngineeringAnalyzer/Controllers/AnalyzerController.cs:238 | The number of non-empty pieces equals the word count WordEnds |
| Text.WordEndsBound | OverEngineeringAnalyzer/Controllers/AnalyzerController.cs:238 | n characters hold at most (n + 1) / 2 words |
| Text.WordThenSeparator | OverEngineeringAnalyzer/Controllers/AnalyzerController.cs:238 | A word followed by a separator or by nothing adds one to the count |
| Text.ToLowerAscii | src/app/components/over-engineering-detector.tsx:269 | Same length, each character lower-cased |
| Text.StartsWithIgnoreCase | OverEngineeringAnalyzer/Controllers/AnalyzerController.cs:194 | A match needs a text at least as long as the prefix, and the empty prefix always matches |
| Text.StartsWithIgnoreCaseCharwise | OverEngineeringAnalyzer/Controllers/AnalyzerController.cs:194 | The test holds exactly when each prefix character equals the text's character at the same index, letter case aside |
| Text.StartsWithIgnoreCaseIgnoresCase | OverEngineeringAnalyzer/Controllers/AnalyzerController.cs:194 | Lower-casing the line first does not change whether it starts with the label |
| Text.ExactPrefixMatches | OverEngineeringAnalyzer/Controllers/AnalyzerController.cs:194 | A line that starts with the label exactly starts with it ignoring case |
| Text.IndexOf | OverEngineeringAnalyzer/Controllers/AnalyzerController.cs:214-215 | -1 when the pattern does not occur at or after start, otherwise its first occurrence there |
| Text.Contains | src/app/components/over-engineering-detector.tsx:269-273 | True exactly when the pattern occurs somewhere |
| Text.TryParseInt | OverEngineeringAnalyzer/Controllers/AnalyzerController.cs:225 | Succeeds only on an optional sign and digits. Digits, "+digits" and "-digits" read as their value exactly when it fits 32 bits |
| Text.Numeral | OverEngineeringAnalyzer/Controllers/AnalyzerController.cs:195 | A non-empty string of digits |
| Text.NumeralValue | OverEngineeringAnalyzer/Controllers/AnalyzerController.cs:195 | The digits of n read back as n |
| Text.FormatIntShape | OverEngineeringAnalyzer/Controllers/AnalyzerController.cs:195 | A formatted int is digits with at most a leading minus sign |
| Text.ParseFormatRoundTrip | OverEngineeringAnalyzer/Controllers/AnalyzerController.cs:195 | TryParse of a formatted 32-bit value gives that value back |
| Detector.ScanDirectory | src/app/components/over-engineering-detector.tsx:57-82 | The keys are exactly the names of the files and of the directories not excluded, except "__proto__", for which assignment into a plain object creates no own key |
| Detector.ScanValues | src/app/components/over-engineering-detector.tsx:70-76 | Each recorded file maps to "file", even one named like an excluded directory. Each recorded directory maps to its own recursive scan |
| Detector.ExcludedDirectoryIgnored | src/app/components/over-engineering-detector.tsx:63-69 | An excluded directory contributes nothing, whatever it contains, wherever it appears |
| Detector.ScanOrderIrrelevant | src/app/components/over-engineering-detector.tsx:58-81 | The same entries, each name once, give the same map in any enumeration order |
| Detector.OnlyExcludedScansEmpty | src/app/components/over-engineering-detector.tsx:58-81 | Only excluded directories scan to the empty map |
| Detector.ScanExample | src/app/components/over-engineering-detector.tsx:63-76 | src/a.ts plus test/b.ts scans to {src: {a.ts: file}} |
| Detector.BadgeTier | src/app/components/over-engineering-detector.tsx:222-244 | Architecture Astronaut exactly above 5, Complexity Creator exactly in (3, 5], and Clean Code Champion exactly at 3 or below. The tiers exclude each other and cover all values |
| Detector.BadgeTierMonotone | src/app/components/over-engineering-detector.tsx:222-244 | Deeper average nesting never earns a better badge |
| Detector.TierTitle | src/app/components/over-engineering-detector.tsx:237-239 | Each heading belongs to exactly one tier: "Architecture Astronaut", "Complexity Creator" and "Clean Code Champion" each name their own tier and no other |
| Detector.BadgeTitle | src/app/components/over-engineering-detector.tsx:237-239 | The heading shown is "Architecture Astronaut" above 5, "Complexity Creator" above 3, and "Clean Code Champion" otherwise |
| Detector.TierTitleInjective | src/app/components/over-engineering-detector.tsx:237-239 | The three headings are distinct, so the heading shown identifies the tier |
| Detector.ComplexityScore | src/app/components/over-engineering-detector.tsx:255 | Defined as the displayed formula 20·nesting + 10·services + 15·layers. Its contract states that non-negative counts give a non-negative score, and that every score is a multiple of 5 |
| Detector.ComplexityScoreMonotone | src/app/components/over-engineering-detector.tsx:255 | Raising any count never lowers the score; each extra nesting level adds at least 20 |
| Detector.ScoreAgreesWithTier | src/app/components/over-engineering-detector.tsx:222-255 | With non-negative counts, an Architecture Astronaut scores at least 120, and a Clean Code Champion gets at most 60 from nesting on top of the service and layer terms |
| Detector.IsPositivePoint | src/app/components/over-engineering-detector.tsx:269-273 | Positive exactly when the lower-cased point contains one of well-defined, consistent, clean, good or adherence |
| Detector.LowerIdempotent | src/app/components/over-engineering-detector.tsx:269 | Lower-casing twice is lower-casing once |
| Detector.IsPositivePointIgnoresCase | src/app/components/over-engineering-detector.tsx:269-273 | The classifier ignores letter case |
| Detector.NegatedKeywordStillPositive | src/app/components/over-engineering-detector.tsx:269-273 | "Not GOOD at all" is classified as praise, because matching is by substring |

## Left out

- The backend call (`CallAzureGptApi`, AnalyzerController.cs:135-152) is left out, with its URL,
  headers and the `api-key` header added twice, because it is network I/O. It becomes the
  parameter `call`, which yields failure or the first choice's content, which may be absent. An
  empty `choices` array also ends in a 500 in the original; here it is one more way of failing.
- JSON is left out, because it needs library parsers:
  - `JsonSerializer.Serialize` of the request's structure: the request carries the serialized text.
  - `JsonNode.Parse` of the backend body.
  - The browser's double `JSON.parse` of the answer.
- Logging is left out: it is a side effect with no effect on the outcome.
- The fixed system instruction text of the payload is left out. Only the user message and the
  generation parameters are modelled.
- Text.StartsWithIgnoreCase folds ASCII letters only. It does not do the Unicode case mapping of
  `OrdinalIgnoreCase`. The labels are ASCII, but a reply line with non-ASCII letters in the
  label's place is compared differently.
- Text.ToLowerAscii folds ASCII letters only, unlike JavaScript's Unicode `toLowerCase`.
- Text.IndexOf compares ordinally. The culture-sensitive comparison of `IndexOf(string)` is not
  modelled.
- Text.TryParseInt does not accept trailing NUL characters or culture-specific signs. Its input is
  always trimmed first, so the white space `int.TryParse` allows never reaches it.
- The concurrent fan-out of `scanDirectory` is left out, because it is concurrency. The model is
  plain recursion over the entries.
- Detector.ScanDirectory: the map model drops the key order of the captured object. JavaScript
  lists integer-like keys first, in ascending order, then the other keys in the order they were
  assigned. Files are assigned as they are enumerated, and a subdirectory's key when its scan
  finishes, which can fall between file keys. That order decides which text the
  12000-character cut keeps. ScanOrderIrrelevant is about the map only.
- Analyzer.AnalyzeProject: the 200 body is the content JSON value serialized once more as JSON,
  which is why the browser parses it twice (over-engineering-detector.tsx:115). The model returns
  the content text and leaves that serialization out.
- The `FileSystemDirectoryHandle` API is left out, because it is browser I/O.
- Lengths are counted in characters (code points), while `Length`, `Substring(0, 12000)` and
  `Length / 6` count UTF-16 code units. The two agree on the structure text because the default
  JSON encoder that produces it escapes every non-ASCII character. The model assumes that text is
  ASCII-only and does not model surrogate pairs.
- Detector.ScanValues assumes that the names in one directory are distinct, as a file system
  guarantees.
- Metrics are ints, not JavaScript numbers, and the bar-width division is left out, because both
  involve floating point.
- The regular-expression split of the roasting message into points is left out, as are React
  state, rendering, `fetch` and `alert`. Only the classification of one point is modelled.
- The client reads `AverageNestingLevels` while the server's record names the field
  `AverageNestingLevel`. The display rules are modelled over the value the client reads.
- `Program.cs`, `OpenAIConfig.cs`, `ProjectPicker.tsx`, the type declarations and `next.config.ts`
  are not part of this model. They hold configuration and wiring only.
